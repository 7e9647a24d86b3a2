/** `optimized.py`: sorts a copy of the actions with Python's stable `sorted(..., reverse=True)`
    under `Action.__lt__`, which compares ratios only, then runs the greedy selection. */
module Optimized {
  import opened Catalog
  import opened Optimum
  import opened StableSort
  import opened Greedy

  /** `Action.__lt__`: one action is less than another when its ratio is smaller. */
  predicate Less(a: Action, b: Action) {
    a.Ratio() < b.Ratio()
  }

  /** `__lt__` orders actions exactly as their profit rates do. */
  lemma LessIsRate(a: Action, b: Action)
    ensures Less(a, b) <==> Rate(a) < Rate(b)
    ensures !Less(a, b) && !Less(b, a) <==> Rate(a) == Rate(b)
  {
  }

  /** `sorted(actions.copy(), reverse=True)`: a permutation of the actions in which no action
      is less than one after it, and actions that compare equal keep their original order. */
  function SortedReverse(actions: seq<Action>): (r: seq<Action>)
    ensures multiset(r) == multiset(actions)
    ensures forall i, j :: 0 <= i < j < |r| ==> !Less(r[i], r[j])
    ensures forall k :: WithRate(r, k) == WithRate(actions, k)
  {
    SortDescPermutation(actions);
    SortDescSorted(actions);
    forall k ensures WithRate(SortDesc(actions), k) == WithRate(actions, k) {
      SortDescStable(actions, k);
    }
    SortDesc(actions)
  }

  /** `greedy_investment`: the greedy pass over the sorted copy. The selection fits the
      budget, is drawn from the actions, and with no negative cost earns at most the optimum. */
  method GreedyInvestment(actions: seq<Action>, maxBudget: real) returns (r: Result)
    ensures r.combination == Take(SortedReverse(actions), maxBudget)
    ensures Consistent(r)
    ensures r.combination != [] ==> r.totalCost <= maxBudget
    ensures multiset(r.combination) <= multiset(actions)
    ensures NonNegCosts(actions) ==> r.totalProfit <= Opt(actions, maxBudget)
  {
    var sortedActions := SortedReverse(actions);
    r := GreedyScan(sortedActions, maxBudget);
    TakeSubMultiset(sortedActions, maxBudget);
    TakeFits(sortedActions, maxBudget);
    if NonNegCosts(actions) {
      TakeWithinOpt(sortedActions, maxBudget);
      OptPermutation(actions, sortedActions, maxBudget);
    }
  }

  /** Three actions on which the greedy pass falls short of the optimum under a budget of
      500: 100 at 10%, 200 at 15% and 300 at 8%. */
  function Example(): seq<Action> {
    [Action("A", 100.0, 10.0), Action("B", 200.0, 15.0), Action("C", 300.0, 8.0)]
  }

  /** The greedy result can fall short of the optimum: on the example the greedy pass takes
      the 200 and the 100 (profit 40), after which the 300 no longer fits, while the 200 and
      the 300 together earn 54. */
  lemma GreedyCanMissOptimum()
    ensures TotalProfit(Take(SortedReverse(Example()), 500.0)) == 40.0
    ensures Opt(Example(), 500.0) == 54.0
  {
    ExampleSorted();
    ExampleTaken();
    ExampleOptimum();
  }

  lemma ExampleSorted()
    ensures SortedReverse(Example()) == [Example()[1], Example()[0], Example()[2]]
  {
    var xs := Example();
    var a, b, c := xs[0], xs[1], xs[2];
    assert xs[1..][1..][1..] == [] && xs[1..][1..] == [c] && xs[1..] == [b, c];
    assert SortDesc([c]) == Insert(c, []) == [c];
    assert SortDesc([b, c]) == Insert(b, [c]) == [b, c];
    assert Insert(a, [c]) == [a, c];
    assert Insert(a, [b, c]) == [b] + Insert(a, [c]);
  }

  lemma ExampleTaken()
    ensures var xs := Example();
      Take([xs[1], xs[0], xs[2]], 500.0) == [xs[1], xs[0]]
      && TotalProfit([xs[1], xs[0]]) == 40.0
  {
    var xs := Example();
    var a, b, c := xs[0], xs[1], xs[2];
    assert a.Profit() == 10.0 && b.Profit() == 30.0;
    assert [b, a, c][1..] == [a, c] && [a, c][1..] == [c] && [c][1..] == [];
    assert Take([c], 200.0) == [];
    assert Take([a, c], 300.0) == [a];
    assert Take([b, a, c], 500.0) == [b] + [a];
    assert [b, a][1..] == [a] && [a][1..] == [];
    assert TotalProfit([a]) == a.Profit() + TotalProfit([]);
    assert TotalProfit([b, a]) == b.Profit() + TotalProfit([a]);
  }

  lemma ExampleOptimum()
    ensures Opt(Example(), 500.0) == 54.0
  {
    var xs := Example();
    var a, b, c := xs[0], xs[1], xs[2];
    assert a.Profit() == 10.0 && b.Profit() == 30.0 && c.Profit() == 24.0;
    assert xs == [a] + [b, c] && [b, c] == [b] + [c] && [c] == [c] + [];
    OptCons(c, [], 500.0);
    OptCons(c, [], 400.0);
    OptCons(c, [], 300.0);
    OptCons(c, [], 200.0);
    OptCons(b, [c], 500.0);
    OptCons(b, [c], 400.0);
    OptCons(a, [b, c], 500.0);
  }
}
