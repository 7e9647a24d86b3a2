/** Investment actions, selections of them, and the totals every solver reports. */
module Catalog {

  datatype Option<T> = None | Some(value: T)

  /** One investment: a display name, a cost and a profit rate in percent. */
  datatype Action = Action(name: string, cost: real, pct: real) {

    /** Money earned by buying the action. */
    function Profit(): real {
      cost * pct / 100.0
    }

    /** Profit per unit of cost, as a fraction (the rate divided by 100). */
    function Ratio(): real {
      pct / 100.0
    }
  }

  /** What every solver returns: the chosen actions, their total cost and total profit. */
  datatype Result = Result(combination: seq<Action>, totalCost: real, totalProfit: real)

  /** The filter the loaders apply: only strictly positive costs and rates survive. */
  predicate Positive(items: seq<Action>) {
    forall a :: a in items ==> a.cost > 0.0 && a.pct > 0.0
  }

  predicate NonNegCosts(items: seq<Action>) {
    forall a :: a in items ==> a.cost >= 0.0
  }

  function TotalCost(s: seq<Action>): real {
    if s == [] then 0.0 else s[0].cost + TotalCost(s[1..])
  }

  function TotalProfit(s: seq<Action>): real {
    if s == [] then 0.0 else s[0].Profit() + TotalProfit(s[1..])
  }

  /** The reported totals are the sums over the reported combination. */
  predicate Consistent(r: Result) {
    r.totalCost == TotalCost(r.combination) && r.totalProfit == TotalProfit(r.combination)
  }

  /** Selections by catalog position: the identity of an action is its position. */
  predicate ValidPicks(items: seq<Action>, p: seq<nat>) {
    forall k :: 0 <= k < |p| ==> p[k] < |items|
  }

  predicate Distinct(p: seq<nat>) {
    forall i, j :: 0 <= i < j < |p| ==> p[i] != p[j]
  }

  predicate Increasing(p: seq<nat>) {
    forall i, j :: 0 <= i < j < |p| ==> p[i] < p[j]
  }

  /** The actions at the given positions, in the order of the positions. */
  function Actions(items: seq<Action>, p: seq<nat>): (r: seq<Action>)
    requires ValidPicks(items, p)
    ensures |r| == |p|
  {
    seq(|p|, k requires 0 <= k < |p| => items[p[k]])
  }

  function PickCost(items: seq<Action>, p: seq<nat>): real
    requires ValidPicks(items, p)
  {
    TotalCost(Actions(items, p))
  }

  function PickProfit(items: seq<Action>, p: seq<nat>): real
    requires ValidPicks(items, p)
  {
    TotalProfit(Actions(items, p))
  }

  /** The profit of an action is its ratio times its cost, so ordering by rate is ordering
      by profit per unit of cost. */
  lemma ProfitIsRatioTimesCost(a: Action)
    ensures a.Profit() == a.Ratio() * a.cost
    ensures a.cost > 0.0 && a.pct > 0.0 ==> a.Profit() > 0.0
  {
    assert a.cost * a.pct / 100.0 == (a.pct / 100.0) * a.cost;
    if a.cost > 0.0 && a.pct > 0.0 {
      assert a.cost * a.pct > 0.0;
    }
  }

  /** Totals split over a concatenation. */
  lemma {:induction false} TotalsConcat(a: seq<Action>, b: seq<Action>)
    ensures TotalCost(a + b) == TotalCost(a) + TotalCost(b)
    ensures TotalProfit(a + b) == TotalProfit(a) + TotalProfit(b)
    decreases |a|
  {
    if a == [] {
      assert a + b == b;
    } else {
      assert (a + b)[1..] == a[1..] + b;
      TotalsConcat(a[1..], b);
    }
  }

  lemma {:induction false} TotalCostNonNeg(s: seq<Action>)
    requires NonNegCosts(s)
    ensures TotalCost(s) >= 0.0
    decreases |s|
  {
    if s != [] {
      assert s[0] in s;
      assert forall a :: a in s[1..] ==> a in s;
      TotalCostNonNeg(s[1..]);
    }
  }

  /** Putting one position in front adds exactly that action's cost and profit. */
  lemma PickTotalsCons(items: seq<Action>, i: nat, p: seq<nat>)
    requires i < |items| && ValidPicks(items, p)
    ensures ValidPicks(items, [i] + p)
    ensures Actions(items, [i] + p) == [items[i]] + Actions(items, p)
    ensures PickCost(items, [i] + p) == items[i].cost + PickCost(items, p)
    ensures PickProfit(items, [i] + p) == items[i].Profit() + PickProfit(items, p)
  {
    var s := Actions(items, [i] + p);
    assert s == [items[i]] + Actions(items, p);
    assert s[1..] == Actions(items, p);
  }

  /** Taking one position out of a selection removes exactly that action's cost and profit. */
  lemma PickTotalsRemove(items: seq<Action>, p: seq<nat>, k: nat)
    requires ValidPicks(items, p) && k < |p|
    ensures ValidPicks(items, p[..k] + p[k+1..])
    ensures PickCost(items, p) == items[p[k]].cost + PickCost(items, p[..k] + p[k+1..])
    ensures PickProfit(items, p) == items[p[k]].Profit() + PickProfit(items, p[..k] + p[k+1..])
  {
    var q := p[..k] + p[k+1..];
    assert Actions(items, p) == Actions(items, p[..k]) + [items[p[k]]] + Actions(items, p[k+1..]);
    assert Actions(items, q) == Actions(items, p[..k]) + Actions(items, p[k+1..]);
    TotalsConcat(Actions(items, p[..k]) + [items[p[k]]], Actions(items, p[k+1..]));
    TotalsConcat(Actions(items, p[..k]), [items[p[k]]]);
    TotalsConcat(Actions(items, p[..k]), Actions(items, p[k+1..]));
    assert TotalCost([items[p[k]]]) == items[p[k]].cost;
    assert TotalProfit([items[p[k]]]) == items[p[k]].Profit();
  }
}
