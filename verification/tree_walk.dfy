/** The state the nested `build_tree` of `tree.py` and `tree_algo.py` shares with its caller,
    and the walk both searches reduce to: the same depth-first visit, include child first, with
    the path's cost, profit and actions carried along instead of recomputed from the node. The
    flag `bound` switches on the estimate prune of `tree.py`. */
module TreeWalk {
  import opened Catalog
  import opened Optimum
  import opened Fractional

  /** The incumbent profit and combination and the number of nodes visited. */
  datatype Search = Search(bestProfit: real, bestCombination: seq<Action>, nodesExplored: nat)

  /** Before the search: profit 0, no combination, no node visited. */
  function Start(): Search {
    Search(0.0, [], 0)
  }

  /** Visits a node at the given level whose path has cost c, profit g and actions path. */
  function Walk(items: seq<Action>, level: nat, maxBudget: real, bound: bool,
                c: real, g: real, path: seq<Action>, s: Search): (r: Search)
    requires level <= |items|
    ensures r.bestProfit >= s.bestProfit
    ensures r.nodesExplored > s.nodesExplored
    ensures r.bestProfit == s.bestProfit ==> r.bestCombination == s.bestCombination
    decreases |items| - level, 1
  {
    var s1 := s.(nodesExplored := s.nodesExplored + 1);
    if level == |items| then
      if c <= maxBudget && g > s1.bestProfit then s1.(bestProfit := g, bestCombination := path) else s1
    else
      Walk(items, level + 1, maxBudget, bound, c, g, path, WalkInclude(items, level, maxBudget, bound, c, g, path, s1))
  }

  /** The include child of a node at the given level: visited when its path cost fits the
      budget and, under the bound, when its profit plus the estimate beats the incumbent. */
  function WalkInclude(items: seq<Action>, level: nat, maxBudget: real, bound: bool,
                       c: real, g: real, path: seq<Action>, s: Search): (r: Search)
    requires level < |items|
    ensures r.bestProfit >= s.bestProfit
    ensures r.nodesExplored >= s.nodesExplored
    ensures r.bestProfit == s.bestProfit ==> r.bestCombination == s.bestCombination
    decreases |items| - level, 0
  {
    var x := items[level];
    if c + x.cost <= maxBudget
       && (!bound || g + x.Profit() + EstimateMaxPotentialProfit(maxBudget - (c + x.cost), items, level + 1) > s.bestProfit)
    then Walk(items, level + 1, maxBudget, bound, c + x.cost, g + x.Profit(), [x] + path, s)
    else s
  }

  /** What the unbounded walk leaves as incumbent profit: the better of the incumbent and the
      path's profit plus the best 0/1 completion of the undecided actions within the budget the
      path leaves. The path must fit the budget unless its profit cannot beat the incumbent,
      which happens only at the root under a negative budget. No sign condition on the
      catalog. */
  lemma {:induction false} WalkValue(items: seq<Action>, level: nat, maxBudget: real,
                                     c: real, g: real, path: seq<Action>, s: Search)
    requires level <= |items|
    requires c <= maxBudget || g <= s.bestProfit
    ensures Walk(items, level, maxBudget, false, c, g, path, s).bestProfit
      == Max(s.bestProfit, g + Opt(items[level..], maxBudget - c))
    decreases |items| - level, 1
  {
    if level == |items| {
      assert items[level..] == [];
    } else {
      var x := items[level];
      var s1 := s.(nodesExplored := s.nodesExplored + 1);
      var s2 := WalkInclude(items, level, maxBudget, false, c, g, path, s1);
      var left := maxBudget - (c + x.cost);
      IncludeValue(items, level, maxBudget, c, g, path, s1);
      WalkValue(items, level + 1, maxBudget, c, g, path, s2);
      OptAt(items, level, maxBudget - c, left);
      var o1, o2 := Opt(items[level + 1..], maxBudget - c), Opt(items[level + 1..], left);
      assert Max(s2.bestProfit, g + o1)
        == Max(s.bestProfit, g + (if x.cost <= maxBudget - c then Max(o1, x.Profit() + o2) else o1));
    }
  }

  lemma {:induction false} IncludeValue(items: seq<Action>, level: nat, maxBudget: real,
                                        c: real, g: real, path: seq<Action>, s: Search)
    requires level < |items|
    ensures var x := items[level];
      var r := WalkInclude(items, level, maxBudget, false, c, g, path, s);
      if c + x.cost <= maxBudget
      then r.bestProfit == Max(s.bestProfit, (g + x.Profit()) + Opt(items[level + 1..], maxBudget - (c + x.cost)))
      else r == s
    decreases |items| - level, 0
  {
    var x := items[level];
    if c + x.cost <= maxBudget {
      WalkValue(items, level + 1, maxBudget, c + x.cost, g + x.Profit(), [x] + path, s);
    }
  }

  /** Opt unfolded at a position of the catalog, with the budget left after taking it named. */
  lemma OptAt(items: seq<Action>, level: nat, budget: real, left: real)
    requires level < |items| && left == budget - items[level].cost
    ensures Opt(items[level..], budget)
      == if items[level].cost <= budget
         then Max(Opt(items[level + 1..], budget), items[level].Profit() + Opt(items[level + 1..], left))
         else Opt(items[level + 1..], budget)
  {
    assert items[level..][0] == items[level] && items[level..][1..] == items[level + 1..];
  }

  /** Whatever a walk reports in place of the incumbent is a path it reached: its totals are
      the reported profit and a cost within the budget, and it draws from any pool that holds
      the starting path and the undecided actions. */
  lemma {:induction false} WalkReports(items: seq<Action>, level: nat, maxBudget: real, bound: bool,
                                       c: real, g: real, path: seq<Action>, s: Search, pool: multiset<Action>)
    requires level <= |items| && c == TotalCost(path) && g == TotalProfit(path)
    requires multiset(path) + multiset(items[level..]) <= pool
    ensures var r := Walk(items, level, maxBudget, bound, c, g, path, s);
      r.bestProfit > s.bestProfit ==>
        r.bestProfit == TotalProfit(r.bestCombination) && TotalCost(r.bestCombination) <= maxBudget
        && multiset(r.bestCombination) <= pool
    decreases |items| - level, 1
  {
    if level < |items| {
      var s1 := s.(nodesExplored := s.nodesExplored + 1);
      assert multiset(items[level..]) == multiset{items[level]} + multiset(items[level + 1..]) by {
        assert items[level..] == [items[level]] + items[level + 1..];
      }
      IncludeReports(items, level, maxBudget, bound, c, g, path, s1, pool);
      WalkReports(items, level + 1, maxBudget, bound, c, g, path,
        WalkInclude(items, level, maxBudget, bound, c, g, path, s1), pool);
    }
  }

  lemma {:induction false} IncludeReports(items: seq<Action>, level: nat, maxBudget: real, bound: bool,
                                          c: real, g: real, path: seq<Action>, s: Search, pool: multiset<Action>)
    requires level < |items| && c == TotalCost(path) && g == TotalProfit(path)
    requires multiset(path) + multiset{items[level]} + multiset(items[level + 1..]) <= pool
    ensures var r := WalkInclude(items, level, maxBudget, bound, c, g, path, s);
      r.bestProfit > s.bestProfit ==>
        r.bestProfit == TotalProfit(r.bestCombination) && TotalCost(r.bestCombination) <= maxBudget
        && multiset(r.bestCombination) <= pool
    decreases |items| - level, 0
  {
    var x := items[level];
    if WalkInclude(items, level, maxBudget, bound, c, g, path, s) != s {
      ConsTotals(x, path);
      WalkReports(items, level + 1, maxBudget, bound, c + x.cost, g + x.Profit(), [x] + path, s, pool);
    }
  }

  lemma ConsTotals(x: Action, path: seq<Action>)
    ensures TotalCost([x] + path) == x.cost + TotalCost(path)
    ensures TotalProfit([x] + path) == x.Profit() + TotalProfit(path)
  {
    TotalsConcat([x], path);
  }

  /** The estimate prune never changes the outcome: on a filtered catalog (positive costs and
      rates), the bounded and the unbounded walk from the same path leave the same incumbent
      when started from the same incumbent, and the bounded one visits no more nodes. */
  lemma {:induction false} WalkBoundSound(items: seq<Action>, level: nat, maxBudget: real,
                                          c: real, g: real, path: seq<Action>, s: Search, t: Search)
    requires Positive(items) && level <= |items|
    requires s.bestProfit == t.bestProfit && s.bestCombination == t.bestCombination
    ensures var r1 := Walk(items, level, maxBudget, true, c, g, path, s);
      var r2 := Walk(items, level, maxBudget, false, c, g, path, t);
      r1.bestProfit == r2.bestProfit && r1.bestCombination == r2.bestCombination
      && r1.nodesExplored - s.nodesExplored <= r2.nodesExplored - t.nodesExplored
    decreases |items| - level, 1
  {
    if level < |items| {
      var s1 := s.(nodesExplored := s.nodesExplored + 1);
      var t1 := t.(nodesExplored := t.nodesExplored + 1);
      IncludeBoundSound(items, level, maxBudget, c, g, path, s1, t1);
      WalkBoundSound(items, level + 1, maxBudget, c, g, path,
        WalkInclude(items, level, maxBudget, true, c, g, path, s1),
        WalkInclude(items, level, maxBudget, false, c, g, path, t1));
    }
  }

  lemma {:induction false} IncludeBoundSound(items: seq<Action>, level: nat, maxBudget: real,
                                             c: real, g: real, path: seq<Action>, s: Search, t: Search)
    requires Positive(items) && level < |items|
    requires s.bestProfit == t.bestProfit && s.bestCombination == t.bestCombination
    ensures var r1 := WalkInclude(items, level, maxBudget, true, c, g, path, s);
      var r2 := WalkInclude(items, level, maxBudget, false, c, g, path, t);
      r1.bestProfit == r2.bestProfit && r1.bestCombination == r2.bestCombination
      && r1.nodesExplored - s.nodesExplored <= r2.nodesExplored - t.nodesExplored
    decreases |items| - level, 0
  {
    var x := items[level];
    if c + x.cost <= maxBudget {
      var left := maxBudget - (c + x.cost);
      if g + x.Profit() + EstimateMaxPotentialProfit(left, items, level + 1) > s.bestProfit {
        WalkBoundSound(items, level + 1, maxBudget, c + x.cost, g + x.Profit(), [x] + path, s, t);
      } else {
        IncludeValue(items, level, maxBudget, c, g, path, t);
        EstimateAboveOpt(left, items, level + 1);
      }
    }
  }

  /** The node count is diagnostic only: two walks that start from the same incumbent with
      different counts leave the same incumbent and visit the same number of nodes. */
  lemma {:induction false} WalkCountIrrelevant(items: seq<Action>, level: nat, maxBudget: real, bound: bool,
                                               c: real, g: real, path: seq<Action>, s: Search, t: Search)
    requires level <= |items|
    requires s.bestProfit == t.bestProfit && s.bestCombination == t.bestCombination
    ensures var r1 := Walk(items, level, maxBudget, bound, c, g, path, s);
      var r2 := Walk(items, level, maxBudget, bound, c, g, path, t);
      r1.bestProfit == r2.bestProfit && r1.bestCombination == r2.bestCombination
      && r1.nodesExplored - s.nodesExplored == r2.nodesExplored - t.nodesExplored
    decreases |items| - level, 1
  {
    if level < |items| {
      var s1 := s.(nodesExplored := s.nodesExplored + 1);
      var t1 := t.(nodesExplored := t.nodesExplored + 1);
      IncludeCountIrrelevant(items, level, maxBudget, bound, c, g, path, s1, t1);
      WalkCountIrrelevant(items, level + 1, maxBudget, bound, c, g, path,
        WalkInclude(items, level, maxBudget, bound, c, g, path, s1),
        WalkInclude(items, level, maxBudget, bound, c, g, path, t1));
    }
  }

  lemma {:induction false} IncludeCountIrrelevant(items: seq<Action>, level: nat, maxBudget: real, bound: bool,
                                                  c: real, g: real, path: seq<Action>, s: Search, t: Search)
    requires level < |items|
    requires s.bestProfit == t.bestProfit && s.bestCombination == t.bestCombination
    ensures var r1 := WalkInclude(items, level, maxBudget, bound, c, g, path, s);
      var r2 := WalkInclude(items, level, maxBudget, bound, c, g, path, t);
      r1.bestProfit == r2.bestProfit && r1.bestCombination == r2.bestCombination
      && r1.nodesExplored - s.nodesExplored == r2.nodesExplored - t.nodesExplored
    decreases |items| - level, 0
  {
    var x := items[level];
    if c + x.cost <= maxBudget {
      WalkCountIrrelevant(items, level + 1, maxBudget, bound, c + x.cost, g + x.Profit(), [x] + path, s, t);
    }
  }
}
