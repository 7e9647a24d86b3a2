/** The decision tree both tree searches build (`TreeNode` in `tree.py` and `tree_algo.py`):
    a node at depth k has decided the first k actions of the catalog, one level per action. */
module DecisionTree {
  import opened Catalog

  /** The root, or a child recording the action it includes (None for an exclusion child)
      and a reference to its parent. The child links of the source are write-only and are
      not kept. */
  datatype TreeNode = Root | Node(action: Option<Action>, parent: TreeNode)

  function Depth(n: TreeNode): nat {
    match n
    case Root => 0
    case Node(_, p) => 1 + Depth(p)
  }

  /** Walks from the node up to the root and collects the included actions, nearest first. */
  function GetPath(n: TreeNode): (path: seq<Action>)
    ensures |path| <= Depth(n)
  {
    match n
    case Root => []
    case Node(a, p) => (if a.Some? then [a.value] else []) + GetPath(p)
  }

  /** Total cost and total profit of the actions on the path to the node. They build up one
      level at a time: nothing at the root, the totals of the path above plus the action's cost
      and profit at an inclusion child, and the totals of the path above at an exclusion
      child. */
  function CalculateCostProfit(n: TreeNode): (r: (real, real))
    ensures n.Root? ==> r.0 == 0.0 && r.1 == 0.0
    ensures n.Node? && n.action.Some? ==>
      r.0 == TotalCost(GetPath(n.parent)) + n.action.value.cost
      && r.1 == TotalProfit(GetPath(n.parent)) + n.action.value.Profit()
    ensures n.Node? && n.action.None? ==>
      r.0 == TotalCost(GetPath(n.parent)) && r.1 == TotalProfit(GetPath(n.parent))
  {
    var path := GetPath(n);
    match n
    case Root => (TotalCost(path), TotalProfit(path))
    case Node(a, p) =>
      if a.Some? then
        assert path == [a.value] + GetPath(p);
        TotalsConcat([a.value], GetPath(p));
        (TotalCost(path), TotalProfit(path))
      else
        assert path == GetPath(p);
        (TotalCost(path), TotalProfit(path))
  }

  function Cost(n: TreeNode): real {
    CalculateCostProfit(n).0
  }

  function Gain(n: TreeNode): real {
    CalculateCostProfit(n).1
  }

  /** An inclusion child puts its action in front of its parent's path and adds the action's
      cost and profit to the parent's totals. */
  lemma IncludeTotals(node: TreeNode, x: Action)
    ensures GetPath(Node(Some(x), node)) == [x] + GetPath(node)
    ensures Cost(Node(Some(x), node)) == Cost(node) + x.cost
    ensures Gain(Node(Some(x), node)) == Gain(node) + x.Profit()
  {
    TotalsConcat([x], GetPath(node));
  }

  /** An exclusion child has its parent's path and totals. */
  lemma ExcludeTotals(node: TreeNode)
    ensures GetPath(Node(None, node)) == GetPath(node)
    ensures Cost(Node(None, node)) == Cost(node) && Gain(Node(None, node)) == Gain(node)
  {
    assert [] + GetPath(node) == GetPath(node);
  }

  /** The include/exclude decisions from the root down to the node. */
  function Decisions(n: TreeNode): (ds: seq<bool>)
    ensures |ds| == Depth(n)
  {
    match n
    case Root => []
    case Node(a, p) => Decisions(p) + [a.Some?]
  }

  /** The nodes the searches create: a child at depth k + 1 either includes the action at
      position k of the catalog or includes nothing. */
  predicate Grown(items: seq<Action>, n: TreeNode) {
    match n
    case Root => true
    case Node(a, p) =>
      Grown(items, p) && Depth(p) < |items| && (a.None? || a.value == items[Depth(p)])
  }

  /** The actions chosen by the decisions, in catalog order. */
  function Select(items: seq<Action>, ds: seq<bool>): seq<Action>
    requires |ds| <= |items|
    decreases |ds|
  {
    if ds == [] then []
    else Select(items, ds[..|ds| - 1]) + (if ds[|ds| - 1] then [items[|ds| - 1]] else [])
  }

  function Reverse(s: seq<Action>): (r: seq<Action>)
    ensures |r| == |s|
    ensures forall i :: 0 <= i < |s| ==> r[i] == s[|s| - 1 - i]
  {
    if s == [] then [] else Reverse(s[1..]) + [s[0]]
  }

  lemma ReverseSnoc(s: seq<Action>, x: Action)
    ensures Reverse(s + [x]) == [x] + Reverse(s)
  {
  }

  /** The path of a grown node is the chosen actions in reverse catalog order. */
  lemma {:induction false} PathIsReversedSelection(items: seq<Action>, n: TreeNode)
    requires Grown(items, n)
    ensures Depth(n) <= |items|
    ensures GetPath(n) == Reverse(Select(items, Decisions(n)))
  {
    match n
    case Root =>
    case Node(a, p) =>
      PathIsReversedSelection(items, p);
      var ds := Decisions(n);
      assert ds[..|ds| - 1] == Decisions(p);
      var own := if a.Some? then [items[Depth(p)]] else [];
      if a.Some? {
        ReverseSnoc(Select(items, Decisions(p)), items[Depth(p)]);
      } else {
        assert Select(items, Decisions(p)) + own == Select(items, Decisions(p));
      }
  }

  lemma {:induction false} TotalsReverse(s: seq<Action>)
    ensures TotalCost(Reverse(s)) == TotalCost(s)
    ensures TotalProfit(Reverse(s)) == TotalProfit(s)
    ensures multiset(Reverse(s)) == multiset(s)
    decreases |s|
  {
    if s != [] {
      TotalsReverse(s[1..]);
      TotalsConcat(Reverse(s[1..]), [s[0]]);
      assert s == [s[0]] + s[1..];
      assert TotalCost([s[0]]) == s[0].cost && TotalProfit([s[0]]) == s[0].Profit();
    }
  }

  /** The chosen actions are drawn from the decided prefix of the catalog, each at most once. */
  lemma {:induction false} SelectSubMultiset(items: seq<Action>, ds: seq<bool>)
    requires |ds| <= |items|
    ensures multiset(Select(items, ds)) <= multiset(items[..|ds|])
    decreases |ds|
  {
    if ds != [] {
      var k := |ds| - 1;
      SelectSubMultiset(items, ds[..k]);
      assert items[..k + 1] == items[..k] + [items[k]];
    }
  }

  /** The path of a grown node holds each action at most as often as the decided prefix of
      the catalog does. */
  lemma PathSubMultiset(items: seq<Action>, n: TreeNode)
    requires Grown(items, n)
    ensures Depth(n) <= |items|
    ensures forall a :: multiset(GetPath(n))[a] <= multiset(items[..Depth(n)])[a]
  {
    PathIsReversedSelection(items, n);
    TotalsReverse(Select(items, Decisions(n)));
    SelectSubMultiset(items, Decisions(n));
  }
}
