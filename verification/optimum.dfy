/** The best profit a 0/1 selection can reach under a budget: the reference every solver is
    measured against. */
module Optimum {
  import opened Catalog

  function Max(x: real, y: real): real {
    if x >= y then x else y
  }

  /** Best profit over selections from s, deciding items front to back and taking an item
      only when it fits in the budget still left; 0 when nothing fits. */
  function Opt(s: seq<Action>, budget: real): real
    decreases |s|
  {
    if s == [] then 0.0
    else if s[0].cost <= budget then
      Max(Opt(s[1..], budget), s[0].Profit() + Opt(s[1..], budget - s[0].cost))
    else Opt(s[1..], budget)
  }

  /** One step of the recursion, for a sequence written as a head and a tail. */
  lemma OptCons(x: Action, r: seq<Action>, budget: real)
    ensures Opt([x] + r, budget)
      == if x.cost <= budget then Max(Opt(r, budget), x.Profit() + Opt(r, budget - x.cost))
         else Opt(r, budget)
  {
    assert ([x] + r)[1..] == r;
  }

  /** The empty selection is always available, so the optimum is never negative. */
  lemma {:induction false} OptNonNeg(s: seq<Action>, budget: real)
    ensures Opt(s, budget) >= 0.0
    decreases |s|
  {
    if s != [] {
      OptNonNeg(s[1..], budget);
    }
  }

  /** More budget never lowers the optimum. */
  lemma {:induction false} OptMonotone(s: seq<Action>, b1: real, b2: real)
    requires b1 <= b2
    ensures Opt(s, b1) <= Opt(s, b2)
    decreases |s|
  {
    if s != [] {
      OptMonotone(s[1..], b1, b2);
      OptMonotone(s[1..], b1 - s[0].cost, b2 - s[0].cost);
    }
  }

  /** A selection reaching the optimum of items[lo..]: increasing positions, within budget
      unless empty. */
  function OptPick(items: seq<Action>, lo: nat, budget: real): (p: seq<nat>)
    requires lo <= |items|
    ensures Increasing(p) && ValidPicks(items, p)
    ensures forall k :: 0 <= k < |p| ==> lo <= p[k]
    ensures PickProfit(items, p) == Opt(items[lo..], budget)
    ensures p != [] ==> PickCost(items, p) <= budget
    decreases |items| - lo
  {
    assert lo < |items| ==> items[lo..][0] == items[lo] && items[lo..][1..] == items[lo+1..];
    if lo == |items| then []
    else if items[lo].cost <= budget
      && items[lo].Profit() + Opt(items[lo+1..], budget - items[lo].cost) >= Opt(items[lo+1..], budget)
    then
      var q := OptPick(items, lo + 1, budget - items[lo].cost);
      PickTotalsCons(items, lo, q);
      [lo] + q
    else
      OptPick(items, lo + 1, budget)
  }

  /** No selection of distinct positions from items[lo..] within the budget beats the
      optimum (costs must not be negative). */
  lemma {:induction false} OptUpper(items: seq<Action>, lo: nat, p: seq<nat>, budget: real)
    requires lo <= |items| && NonNegCosts(items)
    requires Distinct(p) && forall k :: 0 <= k < |p| ==> lo <= p[k] < |items|
    requires PickCost(items, p) <= budget
    ensures PickProfit(items, p) <= Opt(items[lo..], budget)
    decreases |items| - lo
  {
    if lo == |items| {
      assert p == [];
    } else {
      assert items[lo..][0] == items[lo] && items[lo..][1..] == items[lo+1..];
      if k :| 0 <= k < |p| && p[k] == lo {
        var q := p[..k] + p[k+1..];
        PickTotalsRemove(items, p, k);
        forall i | 0 <= i < |q| ensures lo + 1 <= q[i] < |items| {
          if i < k { assert q[i] == p[i]; } else { assert q[i] == p[i+1]; }
        }
        forall i, j | 0 <= i < j < |q| ensures q[i] != q[j] {
          var i' := if i < k then i else i + 1;
          var j' := if j < k then j else j + 1;
          assert q[i] == p[i'] && q[j] == p[j'];
        }
        assert forall a :: a in Actions(items, q) ==> a in items;
        TotalCostNonNeg(Actions(items, q));
        OptUpper(items, lo + 1, q, budget - items[lo].cost);
      } else {
        OptUpper(items, lo + 1, p, budget);
      }
    }
  }

  /** Deciding two non-negative-cost items in either order reaches the same optimum. */
  lemma OptSwap(x: Action, y: Action, r: seq<Action>, budget: real)
    requires x.cost >= 0.0 && y.cost >= 0.0
    ensures Opt([x, y] + r, budget) == Opt([y, x] + r, budget)
  {
    var xy := [x, y] + r;
    var yx := [y, x] + r;
    assert xy[1..] == [y] + r && ([y] + r)[1..] == r;
    assert yx[1..] == [x] + r && ([x] + r)[1..] == r;
    assert budget - x.cost - y.cost == budget - y.cost - x.cost;
  }

  /** Moving one item to the front does not change the optimum. */
  lemma {:induction false} OptMoveToFront(a: seq<Action>, x: Action, c: seq<Action>, budget: real)
    requires NonNegCosts(a) && x.cost >= 0.0
    ensures Opt(a + [x] + c, budget) == Opt([x] + a + c, budget)
    decreases |a|
  {
    if a == [] {
      assert a + [x] + c == [x] + a + c;
    } else {
      var y := a[0];
      var t := a[1..];
      NonNegSplit(a);
      OptMoveToFront(t, x, c, budget);
      OptMoveToFront(t, x, c, budget - y.cost);
      MoveStep(y, t, x, c, budget);
    }
  }

  lemma NonNegSplit(a: seq<Action>)
    requires a != [] && NonNegCosts(a)
    ensures a[0].cost >= 0.0 && NonNegCosts(a[1..])
    ensures a == [a[0]] + a[1..]
  {
    assert a[0] in a;
    assert forall z :: z in a[1..] ==> z in a;
  }

  /** One step of OptMoveToFront: x passes y. */
  lemma MoveStep(y: Action, t: seq<Action>, x: Action, c: seq<Action>, budget: real)
    requires y.cost >= 0.0 && x.cost >= 0.0
    requires Opt(t + [x] + c, budget) == Opt([x] + t + c, budget)
    requires Opt(t + [x] + c, budget - y.cost) == Opt([x] + t + c, budget - y.cost)
    ensures Opt([y] + t + [x] + c, budget) == Opt([x] + ([y] + t) + c, budget)
  {
    MoveShapes(y, t, x, c);
    OptConsCongruence(y, t + [x] + c, [x] + t + c, budget);
    OptSwap(y, x, t + c, budget);
  }

  /** The regroupings MoveStep needs. */
  lemma MoveShapes(y: Action, t: seq<Action>, x: Action, c: seq<Action>)
    ensures [y] + t + [x] + c == [y] + (t + [x] + c)
    ensures [y] + ([x] + t + c) == [y, x] + (t + c)
    ensures [x, y] + (t + c) == [x] + ([y] + t) + c
  {
  }

  /** Locates one occurrence of x in t: t is the part before it, x, and the part after it. */
  lemma Locate(x: Action, t: seq<Action>) returns (k: nat)
    requires x in multiset(t)
    ensures k < |t| && t[k] == x
    ensures t == t[..k] + [x] + t[k+1..]
    ensures multiset(t[..k] + t[k+1..]) == multiset(t) - multiset{x}
    ensures forall z :: z in t[..k] + t[k+1..] ==> z in t
    ensures forall z :: z in t[..k] ==> z in t
  {
    k :| 0 <= k < |t| && t[k] == x;
    assert t == t[..k] + [x] + t[k+1..];
    assert multiset(t) == multiset(t[..k]) + multiset{x} + multiset(t[k+1..]);
    assert multiset(t[..k] + t[k+1..]) == multiset(t[..k]) + multiset(t[k+1..]);
  }

  /** The head of a non-empty sequence is one occurrence of its multiset. */
  lemma SplitHead(s: seq<Action>)
    requires s != []
    ensures s == [s[0]] + s[1..]
    ensures multiset(s[1..]) == multiset(s) - multiset{s[0]}
    ensures forall z :: z in s[1..] ==> z in s
  {
    assert s == [s[0]] + s[1..];
    assert multiset(s) == multiset{s[0]} + multiset(s[1..]);
  }

  /** Pulling one occurrence of x to the front of t keeps the optimum of t. */
  lemma PullToFront(x: Action, t: seq<Action>, budget: real) returns (rest: seq<Action>)
    requires x in multiset(t) && NonNegCosts(t)
    ensures multiset(rest) == multiset(t) - multiset{x}
    ensures NonNegCosts(rest)
    ensures Opt(t, budget) == Opt([x] + rest, budget)
  {
    var k := Locate(x, t);
    rest := t[..k] + t[k+1..];
    OptMoveToFront(t[..k], x, t[k+1..], budget);
    assert [x] + t[..k] + t[k+1..] == [x] + rest;
  }

  /** Two tails with the same optimum at both budgets the head can leave give the same
      optimum behind the same head. */
  lemma OptConsCongruence(x: Action, r1: seq<Action>, r2: seq<Action>, budget: real)
    requires Opt(r1, budget) == Opt(r2, budget)
    requires Opt(r1, budget - x.cost) == Opt(r2, budget - x.cost)
    ensures Opt([x] + r1, budget) == Opt([x] + r2, budget)
  {
    OptCons(x, r1, budget);
    OptCons(x, r2, budget);
  }

  /** The optimum depends only on which items are available, not on their order. */
  lemma {:induction false} OptPermutation(s: seq<Action>, t: seq<Action>, budget: real)
    requires multiset(s) == multiset(t) && NonNegCosts(s)
    ensures Opt(s, budget) == Opt(t, budget)
    decreases |s|
  {
    if s != [] {
      var x := s[0];
      SplitHead(s);
      assert x in multiset(t);
      assert NonNegCosts(t) by {
        forall z | z in t ensures z.cost >= 0.0 {
          assert z in multiset(s);
        }
      }
      var rest := PullToFront(x, t, budget);
      var rest' := PullToFront(x, t, budget - x.cost);
      OptPermutation(s[1..], rest, budget);
      OptPermutation(s[1..], rest', budget - x.cost);
      OptPermutation(rest, rest', budget - x.cost);
      OptConsCongruence(x, s[1..], rest, budget);
    }
  }

  /** Any selection drawn from the items without repeats (as a sub-multiset) that fits the
      budget earns at most the optimum. */
  lemma {:induction false} OptSubMultiset(sel: seq<Action>, items: seq<Action>, budget: real)
    requires multiset(sel) <= multiset(items) && NonNegCosts(items)
    requires TotalCost(sel) <= budget
    ensures TotalProfit(sel) <= Opt(items, budget)
    decreases |sel|
  {
    if sel == [] {
      OptNonNeg(items, budget);
    } else {
      var x := sel[0];
      var rest := PullHead(sel, items, budget);
      TotalCostNonNeg(sel[1..]);
      OptSubMultiset(sel[1..], rest, budget - x.cost);
      OptCons(x, rest, budget);
    }
  }

  /** Takes the head of a selection out of the items it is drawn from. */
  lemma PullHead(sel: seq<Action>, items: seq<Action>, budget: real) returns (rest: seq<Action>)
    requires sel != [] && multiset(sel) <= multiset(items) && NonNegCosts(items)
    ensures multiset(sel[1..]) <= multiset(rest)
    ensures NonNegCosts(rest) && NonNegCosts(sel[1..])
    ensures Opt(items, budget) == Opt([sel[0]] + rest, budget)
  {
    SplitHead(sel);
    assert sel[0] in multiset(items);
    rest := PullToFront(sel[0], items, budget);
    forall z | z in sel[1..] ensures z.cost >= 0.0 {
      assert z in multiset(items);
    }
  }
}
