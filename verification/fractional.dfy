/** The optimistic estimate the branch-and-bound search prunes with (`tree.py`,
    `estimate_max_potential_profit`): the fractional-knapsack (Dantzig) bound over the
    actions not yet decided. */
module Fractional {
  import opened Catalog
  import opened StableSort
  import opened Optimum

  /** The fractional fill with the last fraction written as the action's ratio times the
      budget left, the form the proofs work with. */
  function Fill(s: seq<Action>, budgetLeft: real): real
    decreases |s|
  {
    if s == [] then 0.0
    else if budgetLeft >= s[0].cost then s[0].Profit() + Fill(s[1..], budgetLeft - s[0].cost)
    else s[0].Ratio() * budgetLeft
  }

  /** The loop of `estimate_max_potential_profit` over the sorted actions, as written: takes
      each action whole while it fits in what is left of the budget; at the first one that does
      not fit, takes the fraction budget left / cost of its profit and stops. On every
      non-negative budget it equals the ratio form: an action that does not fit a non-negative
      budget has a positive cost, so the division is defined. */
  function FillAsWritten(s: seq<Action>, budgetLeft: real): (r: real)
    requires budgetLeft >= 0.0
    ensures r == Fill(s, budgetLeft)
    decreases |s|
  {
    if s == [] then 0.0
    else if budgetLeft >= s[0].cost then s[0].Profit() + FillAsWritten(s[1..], budgetLeft - s[0].cost)
    else
      FractionIsRatio(s[0], budgetLeft);
      s[0].Profit() * (budgetLeft / s[0].cost)
  }

  /** `estimate_max_potential_profit`: the loop over the undecided actions sorted by
      non-increasing rate. It is the ratio-form fill of that sorted copy. */
  function EstimateMaxPotentialProfit(remainingBudget: real, items: seq<Action>, startLevel: nat): (r: real)
    requires remainingBudget >= 0.0 && startLevel <= |items|
    ensures r == Fill(SortDesc(items[startLevel..]), remainingBudget)
  {
    FillAsWritten(SortDesc(items[startLevel..]), remainingBudget)
  }

  /** The fraction taken of an action is its ratio times the budget left. */
  lemma FractionIsRatio(a: Action, budgetLeft: real)
    requires a.cost > 0.0
    ensures a.Profit() * (budgetLeft / a.cost) == a.Ratio() * budgetLeft
  {
    ProfitIsRatioTimesCost(a);
    calc {
      a.Profit() * (budgetLeft / a.cost);
      (a.Ratio() * a.cost) * (budgetLeft / a.cost);
      a.Ratio() * (a.cost * (budgetLeft / a.cost));
      a.Ratio() * budgetLeft;
    }
  }

  /** The tail of a positive catalog is positive and its head has a positive cost. */
  lemma Tail(s: seq<Action>)
    requires s != [] && Positive(s)
    ensures s[0].cost > 0.0 && s[0].pct > 0.0 && Positive(s[1..])
    ensures forall a :: a in s[1..] ==> a in s
  {
    assert s[0] in s;
    assert forall a :: a in s[1..] ==> a in s;
  }

  lemma {:induction false} FillZero(s: seq<Action>)
    requires Positive(s)
    ensures Fill(s, 0.0) == 0.0
  {
    if s != [] {
      Tail(s);
    }
  }

  /** Non-linear arithmetic kept out of the larger proofs' contexts. */
  lemma MulNonNeg(x: real, y: real)
    requires x >= 0.0 && y >= 0.0
    ensures x * y >= 0.0
  {
  }

  /** Every extra unit of budget raises the estimate by at most the best ratio on offer. */
  lemma {:induction false} FillLipschitz(s: seq<Action>, b: real, d: real, r: real)
    requires Positive(s) && b >= 0.0 && d >= 0.0 && r >= 0.0
    requires forall a :: a in s ==> a.Ratio() <= r
    ensures Fill(s, b + d) <= Fill(s, b) + r * d
    decreases |s|
  {
    if s == [] {
      MulNonNeg(r, d);
    } else {
      Tail(s);
      var c := s[0].cost;
      if b >= c {
        FillLipschitz(s[1..], b - c, d, r);
        LipschitzWhole(s, b, d, r);
      } else if b + d < c {
        LipschitzFraction(s, b, d, r);
      } else {
        FillLipschitz(s[1..], 0.0, b + d - c, r);
        FillZero(s[1..]);
        LipschitzCrossing(s, b, d, r);
      }
    }
  }

  lemma LipschitzWhole(s: seq<Action>, b: real, d: real, r: real)
    requires s != [] && s[0].cost > 0.0 && b >= s[0].cost && d >= 0.0
    requires Fill(s[1..], b - s[0].cost + d) <= Fill(s[1..], b - s[0].cost) + r * d
    ensures Fill(s, b + d) <= Fill(s, b) + r * d
  {
    assert b - s[0].cost + d == b + d - s[0].cost;
  }

  lemma LipschitzFraction(s: seq<Action>, b: real, d: real, r: real)
    requires s != [] && s[0].cost > 0.0 && b >= 0.0 && d >= 0.0 && b + d < s[0].cost
    requires s[0].Ratio() <= r
    ensures Fill(s, b + d) <= Fill(s, b) + r * d
  {
    var q := s[0].Ratio();
    MulNonNeg(r - q, d);
    assert q * (b + d) - (q * b + r * d) == -((r - q) * d);
  }

  lemma LipschitzCrossing(s: seq<Action>, b: real, d: real, r: real)
    requires s != [] && s[0].cost > 0.0 && b >= 0.0 && d >= 0.0
    requires b < s[0].cost <= b + d && s[0].Ratio() <= r
    requires Fill(s[1..], 0.0 + (b + d - s[0].cost)) <= Fill(s[1..], 0.0) + r * (b + d - s[0].cost)
    requires Fill(s[1..], 0.0) == 0.0
    ensures Fill(s, b + d) <= Fill(s, b) + r * d
  {
    var x := s[0];
    var c := x.cost;
    var q := x.Ratio();
    ProfitIsRatioTimesCost(x);
    assert 0.0 + (b + d - c) == b + d - c;
    CrossingArith(q, r, b, c, d);
  }

  /** Arithmetic of the case where the extra budget first reaches an action's full cost. */
  lemma CrossingArith(q: real, r: real, b: real, c: real, d: real)
    requires q <= r && b < c
    ensures q * c + r * (b + d - c) <= q * b + r * d
  {
    MulNonNeg(r - q, c - b);
    assert q * c + r * (b + d - c) - (q * b + r * d) == -((r - q) * (c - b));
  }

  /** In non-increasing rate order, the head has the best ratio of all. */
  lemma HeadRatioIsMax(s: seq<Action>)
    requires s != [] && SortedDesc(s)
    ensures SortedDesc(s[1..])
    ensures forall a :: a in s[1..] ==> a.Ratio() <= s[0].Ratio()
  {
    forall a | a in s[1..] ensures a.Ratio() <= s[0].Ratio() {
      var j :| 0 <= j < |s[1..]| && s[1..][j] == a;
      assert s[j + 1] == a;
      assert Rate(s[0]) >= Rate(s[j + 1]);
    }
  }

  /** Dantzig's bound: on actions in non-increasing rate order the fractional fill is never
      below the best 0/1 selection within the same budget. */
  lemma {:induction false} FillDominatesOpt(s: seq<Action>, b: real)
    requires Positive(s) && b >= 0.0 && SortedDesc(s)
    ensures Opt(s, b) <= Fill(s, b)
    decreases |s|
  {
    if s != [] {
      Tail(s);
      HeadRatioIsMax(s);
      FillDominatesOpt(s[1..], b);
      if s[0].cost <= b {
        FillDominatesOpt(s[1..], b - s[0].cost);
      }
      DominatesStep(s, b);
    }
  }

  /** One step of FillDominatesOpt, given the bound for the tail at both budgets the head can
      leave. */
  lemma DominatesStep(s: seq<Action>, b: real)
    requires s != [] && Positive(s) && b >= 0.0 && SortedDesc(s)
    requires Opt(s[1..], b) <= Fill(s[1..], b)
    requires s[0].cost <= b ==> Opt(s[1..], b - s[0].cost) <= Fill(s[1..], b - s[0].cost)
    ensures Opt(s, b) <= Fill(s, b)
  {
    Tail(s);
    HeadRatioIsMax(s);
    if s[0].cost <= b {
      StepWhole(s, b);
    } else {
      StepFraction(s, b);
    }
  }

  /** The head fits: taken whole by the fill, and its ratio bounds what the tail gains from
      the budget it would otherwise use. */
  lemma StepWhole(s: seq<Action>, b: real)
    requires s != [] && s[0].cost > 0.0 && s[0].pct > 0.0 && s[0].cost <= b && Positive(s[1..])
    requires forall a :: a in s[1..] ==> a.Ratio() <= s[0].Ratio()
    requires Opt(s[1..], b) <= Fill(s[1..], b)
    requires Opt(s[1..], b - s[0].cost) <= Fill(s[1..], b - s[0].cost)
    ensures Opt(s, b) <= Fill(s, b)
  {
    FillLipschitz(s[1..], b - s[0].cost, s[0].cost, s[0].Ratio());
    DominatesWhole(s, b);
  }

  /** The head does not fit: the fill takes the fraction of it the budget allows. */
  lemma StepFraction(s: seq<Action>, b: real)
    requires s != [] && s[0].cost > b >= 0.0 && s[0].pct > 0.0 && Positive(s[1..])
    requires forall a :: a in s[1..] ==> a.Ratio() <= s[0].Ratio()
    requires Opt(s[1..], b) <= Fill(s[1..], b)
    ensures Opt(s, b) <= Fill(s, b)
  {
    FillLipschitz(s[1..], 0.0, b, s[0].Ratio());
    FillZero(s[1..]);
    DominatesFraction(s, b);
  }

  lemma DominatesWhole(s: seq<Action>, b: real)
    requires s != [] && s[0].cost > 0.0 && s[0].cost <= b
    requires Opt(s[1..], b - s[0].cost) <= Fill(s[1..], b - s[0].cost)
    requires Opt(s[1..], b) <= Fill(s[1..], b)
    requires Fill(s[1..], b - s[0].cost + s[0].cost)
      <= Fill(s[1..], b - s[0].cost) + s[0].Ratio() * s[0].cost
    ensures Opt(s, b) <= Fill(s, b)
  {
    var x := s[0];
    var c := x.cost;
    var t := s[1..];
    ProfitIsRatioTimesCost(x);
    assert b - c + c == b;
    OptUnfold(s, b);
    FillUnfold(s, b);
    WholeArith(Opt(s, b), Opt(t, b), Opt(t, b - c), Fill(s, b), Fill(t, b), Fill(t, b - c), x.Profit());
  }

  /** One step of Opt on a non-empty sequence. */
  lemma OptUnfold(s: seq<Action>, b: real)
    requires s != []
    ensures Opt(s, b) == if s[0].cost <= b then Max(Opt(s[1..], b), s[0].Profit() + Opt(s[1..], b - s[0].cost))
                         else Opt(s[1..], b)
  {
  }

  /** One step of Fill on a non-empty sequence. */
  lemma FillUnfold(s: seq<Action>, b: real)
    requires s != []
    ensures Fill(s, b) == if b >= s[0].cost then s[0].Profit() + Fill(s[1..], b - s[0].cost)
                          else s[0].Ratio() * b
  {
  }

  lemma WholeArith(o: real, oSkip: real, oTake: real, f: real, fAll: real, fRest: real, p: real)
    requires o == Max(oSkip, p + oTake) && f == p + fRest
    requires oTake <= fRest && oSkip <= fAll && fAll <= fRest + p
    ensures o <= f
  {
  }

  lemma DominatesFraction(s: seq<Action>, b: real)
    requires s != [] && s[0].cost > b >= 0.0
    requires Opt(s[1..], b) <= Fill(s[1..], b)
    requires Fill(s[1..], 0.0 + b) <= Fill(s[1..], 0.0) + s[0].Ratio() * b
    requires Fill(s[1..], 0.0) == 0.0
    ensures Opt(s, b) <= Fill(s, b)
  {
    assert 0.0 + b == b;
  }

  /** The estimate is never below the best 0/1 profit of actions[startLevel..] within the
      remaining budget. */
  lemma EstimateAboveOpt(remainingBudget: real, items: seq<Action>, startLevel: nat)
    requires Positive(items) && remainingBudget >= 0.0 && startLevel <= |items|
    ensures Opt(items[startLevel..], remainingBudget)
      <= EstimateMaxPotentialProfit(remainingBudget, items, startLevel)
  {
    var rest := items[startLevel..];
    var sorted := SortDesc(rest);
    SortDescPermutation(rest);
    SortDescSorted(rest);
    assert forall a :: a in rest ==> a in items;
    forall a | a in sorted ensures a.cost > 0.0 && a.pct > 0.0 {
      assert a in multiset(rest);
    }
    OptPermutation(rest, sorted, remainingBudget);
    FillDominatesOpt(sorted, remainingBudget);
  }

  /** Admissibility: every selection of distinct positions from actions[startLevel..] whose
      cost fits the remaining budget earns at most the estimate. */
  lemma EstimateAdmissible(remainingBudget: real, items: seq<Action>, startLevel: nat, p: seq<nat>)
    requires Positive(items) && remainingBudget >= 0.0 && startLevel <= |items|
    requires Distinct(p) && forall k :: 0 <= k < |p| ==> startLevel <= p[k] < |items|
    requires PickCost(items, p) <= remainingBudget
    ensures PickProfit(items, p) <= EstimateMaxPotentialProfit(remainingBudget, items, startLevel)
  {
    OptUpper(items, startLevel, p, remainingBudget);
    EstimateAboveOpt(remainingBudget, items, startLevel);
  }
}
