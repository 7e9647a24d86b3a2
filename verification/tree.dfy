/** `tree.py`: the decision-tree search of `tree_algo.py` with one more prune. An inclusion
    that fits the budget is explored only when its path profit plus the fractional estimate of
    the undecided actions beats the incumbent. */
module Tree {
  import opened Catalog
  import opened Optimum
  import opened StableSort
  import opened Fractional
  import opened DecisionTree
  import opened TreeWalk
  import A = TreeAlgo

  /** Visits the node at the given level, as `build_tree` in `tree.py` does. */
  function BuildTree(items: seq<Action>, maxBudget: real, node: TreeNode, level: nat, s: Search): (r: Search)
    requires level <= |items|
    ensures r.bestProfit >= s.bestProfit
    ensures r.nodesExplored > s.nodesExplored
    ensures r.bestProfit == s.bestProfit ==> r.bestCombination == s.bestCombination
    decreases |items| - level, 1
  {
    var s1 := s.(nodesExplored := s.nodesExplored + 1);
    if level == |items| then
      var (cost, profit) := CalculateCostProfit(node);
      if cost <= maxBudget && profit > s1.bestProfit then
        s1.(bestProfit := profit, bestCombination := GetPath(node))
      else s1
    else
      BuildTree(items, maxBudget, Node(None, node), level + 1, VisitInclude(items, maxBudget, node, level, s1))
  }

  /** The include child of the node at the given level, built only when its path cost fits the
      budget and its path profit plus the estimate over the later actions beats the
      incumbent. */
  function VisitInclude(items: seq<Action>, maxBudget: real, node: TreeNode, level: nat, s: Search): (r: Search)
    requires level < |items|
    ensures r.bestProfit >= s.bestProfit
    ensures r.nodesExplored >= s.nodesExplored
    ensures r.bestProfit == s.bestProfit ==> r.bestCombination == s.bestCombination
    decreases |items| - level, 0
  {
    var includeNode := Node(Some(items[level]), node);
    var tempCost := CalculateCostProfit(includeNode).0;
    if tempCost <= maxBudget then
      var remainingBudget := maxBudget - tempCost;
      var currentProfit := CalculateCostProfit(includeNode).1;
      if currentProfit + EstimateMaxPotentialProfit(remainingBudget, items, level + 1) > s.bestProfit
      then BuildTree(items, maxBudget, includeNode, level + 1, s)
      else s
    else s
  }

  /** `tree_bruteforce` of `tree.py`. */
  function TreeBruteforce(items: seq<Action>, maxBudget: real): (r: Result)
    ensures Consistent(r)
    ensures r.combination != [] ==> r.totalCost <= maxBudget
    ensures multiset(r.combination) <= multiset(items)
    ensures r.totalProfit >= 0.0
    ensures r.combination == [] <==> r.totalProfit == 0.0
  {
    var s := BuildTree(items, maxBudget, Root, 0, Start());
    assert TotalProfit([]) == 0.0 && TotalCost([]) == 0.0;
    RootIsWalk(items, maxBudget);
    WalkReports(items, 0, maxBudget, true, 0.0, 0.0, [], Start(), multiset(items));
    Result(s.bestCombination, TotalCost(s.bestCombination), s.bestProfit)
  }

  function NodesExplored(items: seq<Action>, maxBudget: real): (n: nat)
    ensures n >= 1
  {
    BuildTree(items, maxBudget, Root, 0, Start()).nodesExplored
  }

  /** The pruned search from a node is the bounded walk from the node's path. */
  lemma {:induction false} BuildTreeIsWalk(items: seq<Action>, maxBudget: real, node: TreeNode, level: nat, s: Search,
                                           c: real, g: real, path: seq<Action>)
    requires level <= |items| && c == Cost(node) && g == Gain(node) && path == GetPath(node)
    ensures BuildTree(items, maxBudget, node, level, s) == Walk(items, level, maxBudget, true, c, g, path, s)
    decreases |items| - level, 1
  {
    if level < |items| {
      var s1 := s.(nodesExplored := s.nodesExplored + 1);
      IncludeIsWalk(items, maxBudget, node, level, s1, c, g, path);
      ExcludeTotals(node);
      BuildTreeIsWalk(items, maxBudget, Node(None, node), level + 1, VisitInclude(items, maxBudget, node, level, s1), c, g, path);
    }
  }

  lemma {:induction false} IncludeIsWalk(items: seq<Action>, maxBudget: real, node: TreeNode, level: nat, s: Search,
                                         c: real, g: real, path: seq<Action>)
    requires level < |items| && c == Cost(node) && g == Gain(node) && path == GetPath(node)
    ensures VisitInclude(items, maxBudget, node, level, s) == WalkInclude(items, level, maxBudget, true, c, g, path, s)
    decreases |items| - level, 0
  {
    var x := items[level];
    var inc := Node(Some(x), node);
    IncludeTotals(node, x);
    assert CalculateCostProfit(inc).0 == c + x.cost && CalculateCostProfit(inc).1 == g + x.Profit();
    if c + x.cost <= maxBudget {
      BuildTreeIsWalk(items, maxBudget, inc, level + 1, s, c + x.cost, g + x.Profit(), [x] + path);
      var est := EstimateMaxPotentialProfit(maxBudget - (c + x.cost), items, level + 1);
      var remainingBudget := maxBudget - CalculateCostProfit(inc).0;
      assert remainingBudget == maxBudget - (c + x.cost);
      assert CalculateCostProfit(inc).1 + EstimateMaxPotentialProfit(remainingBudget, items, level + 1)
        == g + x.Profit() + est;
      if g + x.Profit() + est > s.bestProfit {
        assert VisitInclude(items, maxBudget, node, level, s) == BuildTree(items, maxBudget, inc, level + 1, s);
        assert WalkInclude(items, level, maxBudget, true, c, g, path, s)
          == Walk(items, level + 1, maxBudget, true, c + x.cost, g + x.Profit(), [x] + path, s);
      } else {
        assert VisitInclude(items, maxBudget, node, level, s) == s;
      }
    } else {
      assert VisitInclude(items, maxBudget, node, level, s) == s;
    }
  }

  lemma RootIsWalk(items: seq<Action>, maxBudget: real)
    ensures BuildTree(items, maxBudget, Root, 0, Start()) == Walk(items, 0, maxBudget, true, 0.0, 0.0, [], Start())
  {
    assert CalculateCostProfit(Root) == (0.0, 0.0);
    BuildTreeIsWalk(items, maxBudget, Root, 0, Start(), 0.0, 0.0, []);
  }

  /** Outside the loader's filter the prune is unsound: with an action of negative rate after
      a profitable one, the estimate counts the loss, the profitable inclusion is cut, and the
      search reports 0 where the optimum is 1. */
  lemma NegativeRateDefeatsPrune()
    ensures var xs := [Action("P", 10.0, 10.0), Action("N", 10.0, -10.0)];
      Opt(xs, 100.0) == 1.0 && TreeBruteforce(xs, 100.0).totalProfit == 0.0
  {
    var p, n := Action("P", 10.0, 10.0), Action("N", 10.0, -10.0);
    var xs := [p, n];
    assert p.Profit() == 1.0 && n.Profit() == -1.0;
    assert xs[1..] == [n] && xs[2..] == [] && [n][1..] == [];
    assert SortDesc([n]) == [n] && SortDesc([]) == [];
    OptCons(n, [], 100.0);
    OptCons(n, [], 90.0);
    OptCons(p, [n], 100.0);
  }

  /** The same with a negative cost: an action costing -10 at 10% loses 1, the estimate must
      take it whole since it always fits, and the profitable inclusion is cut again. */
  lemma NegativeCostDefeatsPrune()
    ensures var xs := [Action("P", 10.0, 10.0), Action("N", -10.0, 10.0)];
      Opt(xs, 100.0) == 1.0 && TreeBruteforce(xs, 100.0).totalProfit == 0.0
  {
    var p, n := Action("P", 10.0, 10.0), Action("N", -10.0, 10.0);
    var xs := [p, n];
    assert p.Profit() == 1.0 && n.Profit() == -1.0;
    assert xs[1..] == [n] && xs[2..] == [] && [n][1..] == [];
    assert SortDesc([n]) == [n] && SortDesc([]) == [];
    OptCons(n, [], 100.0);
    OptCons(n, [], 90.0);
    OptCons(p, [n], 100.0);
  }

  /** Both source variants report the same combination, cost and profit on every filtered
      catalog, and the pruned one visits no more nodes. */
  lemma TreeBruteforceMatchesAlgo(items: seq<Action>, maxBudget: real)
    requires Positive(items)
    ensures TreeBruteforce(items, maxBudget) == A.TreeBruteforce(items, maxBudget)
    ensures NodesExplored(items, maxBudget) <= A.NodesExplored(items, maxBudget)
  {
    RootIsWalk(items, maxBudget);
    A.RootIsWalk(items, maxBudget);
    WalkBoundSound(items, 0, maxBudget, 0.0, 0.0, [], Start(), Start());
  }

  /** On a filtered catalog the pruned search reaches the optimum, and no selection drawn from
      the catalog (each action at most once) within the budget earns more. */
  lemma TreeBruteforceOptimal(items: seq<Action>, maxBudget: real, sel: seq<Action>)
    requires Positive(items)
    requires multiset(sel) <= multiset(items) && TotalCost(sel) <= maxBudget
    ensures TreeBruteforce(items, maxBudget).totalProfit == Opt(items, maxBudget)
    ensures TotalProfit(sel) <= TreeBruteforce(items, maxBudget).totalProfit
  {
    TreeBruteforceMatchesAlgo(items, maxBudget);
    A.TreeBruteforceValue(items, maxBudget);
    A.TreeBruteforceOptimal(items, maxBudget, sel);
  }
}
