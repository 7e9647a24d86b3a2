/** `tree_algo.py`: exhaustive depth-first search of the decision tree, include child first,
    that only prunes an inclusion whose path cost exceeds the budget. */
module TreeAlgo {
  import opened Catalog
  import opened Optimum
  import opened DecisionTree
  import opened TreeWalk

  /** Visits the node at the given level. At a leaf the path replaces the incumbent when it
      fits the budget and is strictly more profitable; otherwise the include child is visited
      (see VisitInclude), then the exclude child always. */
  function BuildTree(items: seq<Action>, maxBudget: real, node: TreeNode, level: nat, s: Search): (r: Search)
    requires level <= |items|
    ensures r.bestProfit >= s.bestProfit
    ensures r.nodesExplored > s.nodesExplored
    ensures r.bestProfit == s.bestProfit ==> r.bestCombination == s.bestCombination
    decreases |items| - level, 1
  {
    var s1 := s.(nodesExplored := s.nodesExplored + 1);
    if level == |items| then
      var (cost, profit) := CalculateCostProfit(node);
      if cost <= maxBudget && profit > s1.bestProfit then
        s1.(bestProfit := profit, bestCombination := GetPath(node))
      else s1
    else
      BuildTree(items, maxBudget, Node(None, node), level + 1, VisitInclude(items, maxBudget, node, level, s1))
  }

  /** The include child of the node at the given level, built only when its path cost fits
      the budget. */
  function VisitInclude(items: seq<Action>, maxBudget: real, node: TreeNode, level: nat, s: Search): (r: Search)
    requires level < |items|
    ensures r.bestProfit >= s.bestProfit
    ensures r.nodesExplored >= s.nodesExplored
    ensures r.bestProfit == s.bestProfit ==> r.bestCombination == s.bestCombination
    decreases |items| - level, 0
  {
    var includeNode := Node(Some(items[level]), node);
    var tempCost := CalculateCostProfit(includeNode).0;
    if tempCost <= maxBudget then BuildTree(items, maxBudget, includeNode, level + 1, s) else s
  }

  /** `tree_bruteforce`: searches from the root and reports the incumbent with its cost. */
  function TreeBruteforce(items: seq<Action>, maxBudget: real): (r: Result)
    ensures Consistent(r)
    ensures r.combination != [] ==> r.totalCost <= maxBudget
    ensures multiset(r.combination) <= multiset(items)
    ensures r.totalProfit >= 0.0
    ensures r.combination == [] <==> r.totalProfit == 0.0
  {
    var s := BuildTree(items, maxBudget, Root, 0, Start());
    assert TotalProfit([]) == 0.0 && TotalCost([]) == 0.0;
    RootIsWalk(items, maxBudget);
    WalkReports(items, 0, maxBudget, false, 0.0, 0.0, [], Start(), multiset(items));
    Result(s.bestCombination, TotalCost(s.bestCombination), s.bestProfit)
  }

  /** The number of nodes the search visits (printed by the source, never returned). */
  function NodesExplored(items: seq<Action>, maxBudget: real): (n: nat)
    ensures n >= 1
  {
    BuildTree(items, maxBudget, Root, 0, Start()).nodesExplored
  }

  /** The search from a node is the unbounded walk from the node's path. */
  lemma {:induction false} BuildTreeIsWalk(items: seq<Action>, maxBudget: real, node: TreeNode, level: nat, s: Search,
                                           c: real, g: real, path: seq<Action>)
    requires level <= |items| && c == Cost(node) && g == Gain(node) && path == GetPath(node)
    ensures BuildTree(items, maxBudget, node, level, s) == Walk(items, level, maxBudget, false, c, g, path, s)
    decreases |items| - level, 1
  {
    if level < |items| {
      var s1 := s.(nodesExplored := s.nodesExplored + 1);
      IncludeIsWalk(items, maxBudget, node, level, s1, c, g, path);
      ExcludeTotals(node);
      BuildTreeIsWalk(items, maxBudget, Node(None, node), level + 1, VisitInclude(items, maxBudget, node, level, s1), c, g, path);
    }
  }

  lemma {:induction false} IncludeIsWalk(items: seq<Action>, maxBudget: real, node: TreeNode, level: nat, s: Search,
                                         c: real, g: real, path: seq<Action>)
    requires level < |items| && c == Cost(node) && g == Gain(node) && path == GetPath(node)
    ensures VisitInclude(items, maxBudget, node, level, s) == WalkInclude(items, level, maxBudget, false, c, g, path, s)
    decreases |items| - level, 0
  {
    var x := items[level];
    IncludeTotals(node, x);
    if c + x.cost <= maxBudget {
      BuildTreeIsWalk(items, maxBudget, Node(Some(x), node), level + 1, s, c + x.cost, g + x.Profit(), [x] + path);
    }
  }

  /** The search from the root is the walk from the empty path over the whole catalog. */
  lemma RootIsWalk(items: seq<Action>, maxBudget: real)
    ensures BuildTree(items, maxBudget, Root, 0, Start()) == Walk(items, 0, maxBudget, false, 0.0, 0.0, [], Start())
    ensures items[0..] == items
  {
    assert CalculateCostProfit(Root) == (0.0, 0.0);
    BuildTreeIsWalk(items, maxBudget, Root, 0, Start(), 0.0, 0.0, []);
  }

  /** The search reaches the optimum, whatever the signs of costs and rates. */
  lemma TreeBruteforceValue(items: seq<Action>, maxBudget: real)
    ensures TreeBruteforce(items, maxBudget).totalProfit == Opt(items, maxBudget)
  {
    RootIsWalk(items, maxBudget);
    WalkValue(items, 0, maxBudget, 0.0, 0.0, [], Start());
    OptNonNeg(items, maxBudget);
  }

  /** Optimality: when no cost is negative, no selection drawn from the catalog (each action
      at most once) that fits the budget earns more than the reported combination. */
  lemma TreeBruteforceOptimal(items: seq<Action>, maxBudget: real, sel: seq<Action>)
    requires NonNegCosts(items)
    requires multiset(sel) <= multiset(items) && TotalCost(sel) <= maxBudget
    ensures TotalProfit(sel) <= TreeBruteforce(items, maxBudget).totalProfit
  {
    TreeBruteforceValue(items, maxBudget);
    OptSubMultiset(sel, items, maxBudget);
  }
}
