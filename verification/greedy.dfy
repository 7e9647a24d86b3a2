/** The selection loop `greedy_investment` runs in both `greedy_bruteforce.py` and
    `optimized.py` once the actions are sorted: walk the sorted list and take each action whose
    cost, added to the running total, stays within the budget. */
module Greedy {
  import opened Catalog
  import opened Optimum

  /** Reference definition with the budget counted down: the actions taken from s when left
      is what remains of the budget. */
  function Take(s: seq<Action>, left: real): seq<Action>
    decreases |s|
  {
    if s == [] then []
    else if s[0].cost <= left then [s[0]] + Take(s[1..], left - s[0].cost)
    else Take(s[1..], left)
  }

  /** The loop as written: running cost and profit start at 0, and an action is appended when
      the running cost plus its cost is within the budget. */
  method GreedyScan(sorted: seq<Action>, maxBudget: real) returns (r: Result)
    ensures r.combination == Take(sorted, maxBudget)
    ensures Consistent(r)
  {
    var selected: seq<Action> := [];
    var totalCost := 0.0;
    var totalProfit := 0.0;
    var i := 0;
    while i < |sorted|
      invariant i <= |sorted|
      invariant selected + Take(sorted[i..], maxBudget - totalCost) == Take(sorted, maxBudget)
      invariant totalCost == TotalCost(selected) && totalProfit == TotalProfit(selected)
    {
      var action := sorted[i];
      assert sorted[i..][0] == action && sorted[i..][1..] == sorted[i + 1..];
      if totalCost + action.cost <= maxBudget {
        TotalsConcat(selected, [action]);
        assert maxBudget - totalCost - action.cost == maxBudget - (totalCost + action.cost);
        selected := selected + [action];
        totalCost := totalCost + action.cost;
        totalProfit := totalProfit + action.Profit();
      }
      i := i + 1;
    }
    r := Result(selected, totalCost, totalProfit);
  }

  /** Every position moved one place to the right. */
  function Shift(q: seq<nat>): (r: seq<nat>)
    ensures |r| == |q| && forall k :: 0 <= k < |q| ==> r[k] == q[k] + 1
  {
    seq(|q|, k requires 0 <= k < |q| => q[k] + 1)
  }

  /** What is taken is a subsequence of s: the actions at some increasing positions of s, in
      the order of s. */
  lemma {:induction false} TakeSubsequence(s: seq<Action>, left: real) returns (p: seq<nat>)
    ensures Increasing(p) && ValidPicks(s, p)
    ensures Actions(s, p) == Take(s, left)
    decreases |s|
  {
    if s == [] {
      p := [];
    } else {
      var x := s[0];
      var rest := if x.cost <= left then left - x.cost else left;
      var q := TakeSubsequence(s[1..], rest);
      var sq := Shift(q);
      assert ValidPicks(s, sq);
      assert Increasing(sq);
      assert Actions(s, sq) == Actions(s[1..], q) by {
        forall k | 0 <= k < |q| ensures Actions(s, sq)[k] == Actions(s[1..], q)[k] {
          assert s[sq[k]] == s[1..][q[k]];
        }
      }
      if x.cost <= left {
        p := [0] + sq;
        assert Actions(s, p) == [x] + Actions(s, sq) by {
          forall k | 0 <= k < |p| ensures Actions(s, p)[k] == ([x] + Actions(s, sq))[k] {
            if k > 0 { assert p[k] == sq[k - 1]; }
          }
        }
      } else {
        p := sq;
      }
    }
  }

  /** What is taken is drawn from s, each action at most as often as it occurs there. */
  lemma {:induction false} TakeSubMultiset(s: seq<Action>, left: real)
    ensures multiset(Take(s, left)) <= multiset(s)
    decreases |s|
  {
    if s != [] {
      TakeSubMultiset(s[1..], left);
      TakeSubMultiset(s[1..], left - s[0].cost);
      assert s == [s[0]] + s[1..];
    }
  }

  /** Whatever is taken fits the budget, whatever the signs of the costs: after every
      inclusion the remaining budget is non-negative. */
  lemma {:induction false} TakeFits(s: seq<Action>, left: real)
    ensures Take(s, left) != [] ==> TotalCost(Take(s, left)) <= left
    decreases |s|
  {
    if s != [] {
      if s[0].cost <= left {
        var rest := Take(s[1..], left - s[0].cost);
        TakeFits(s[1..], left - s[0].cost);
        ConsCost(s[0], rest);
      } else {
        TakeFits(s[1..], left);
      }
    }
  }

  lemma ConsCost(x: Action, rest: seq<Action>)
    ensures TotalCost([x] + rest) == x.cost + TotalCost(rest)
    ensures TotalProfit([x] + rest) == x.Profit() + TotalProfit(rest)
  {
    assert ([x] + rest)[1..] == rest;
  }

  /** The greedy profit never exceeds the best 0/1 selection over the same sequence and
      budget: the greedy choice is one of the branches the optimum considers. */
  lemma {:induction false} TakeWithinOpt(s: seq<Action>, left: real)
    ensures TotalProfit(Take(s, left)) <= Opt(s, left)
    decreases |s|
  {
    if s != [] {
      if s[0].cost <= left {
        TakeWithinOpt(s[1..], left - s[0].cost);
        OptNonNeg(s[1..], left);
        ConsCost(s[0], Take(s[1..], left - s[0].cost));
      } else {
        TakeWithinOpt(s[1..], left);
      }
    }
  }

  /** The actions s leaves behind when t is taken from it. */
  function LeftBehind(s: seq<Action>, t: seq<Action>): multiset<Action> {
    multiset(s) - multiset(t)
  }

  /** Nothing left behind would still fit: with no negative cost, every action of s not taken
      costs more than the budget the selection leaves over. */
  lemma {:induction false} TakeMaximal(s: seq<Action>, left: real)
    requires NonNegCosts(s)
    ensures var t := Take(s, left);
      forall a :: a in LeftBehind(s, t) ==> a.cost > left - TotalCost(t)
    decreases |s|
  {
    if s != [] {
      var x := s[0];
      var tail := s[1..];
      NonNegSplit(s);
      if x.cost <= left {
        assert Take(s, left) == [x] + Take(tail, left - x.cost);
        TakeMaximal(tail, left - x.cost);
        MaximalTaken(x, tail, Take(tail, left - x.cost), left);
      } else {
        assert Take(s, left) == Take(tail, left);
        TakeMaximal(tail, left);
        TakeSubMultiset(tail, left);
        TakeCostNonNeg(tail, left);
        MaximalSkipped(x, tail, Take(tail, left), left);
      }
    }
  }

  lemma MaximalTaken(x: Action, tail: seq<Action>, rest: seq<Action>, left: real)
    requires forall a :: a in LeftBehind(tail, rest) ==> a.cost > left - x.cost - TotalCost(rest)
    ensures forall a :: a in LeftBehind([x] + tail, [x] + rest) ==> a.cost > left - TotalCost([x] + rest)
  {
    ConsCost(x, rest);
    assert LeftBehind([x] + tail, [x] + rest) == LeftBehind(tail, rest);
  }

  lemma MaximalSkipped(x: Action, tail: seq<Action>, rest: seq<Action>, left: real)
    requires x.cost > left && TotalCost(rest) >= 0.0 && multiset(rest) <= multiset(tail)
    requires forall a :: a in LeftBehind(tail, rest) ==> a.cost > left - TotalCost(rest)
    ensures forall a :: a in LeftBehind([x] + tail, rest) ==> a.cost > left - TotalCost(rest)
  {
    assert LeftBehind([x] + tail, rest) == multiset{x} + LeftBehind(tail, rest);
  }

  lemma TakeCostNonNeg(s: seq<Action>, left: real)
    requires NonNegCosts(s)
    ensures TotalCost(Take(s, left)) >= 0.0
  {
    TakeSubMultiset(s, left);
    var t := Take(s, left);
    forall a | a in t ensures a.cost >= 0.0 {
      assert a in multiset(t);
    }
    TotalCostNonNeg(t);
  }
}
