/** `bruteforce.py`: tries every non-empty combination of the catalog, smallest first, and keeps
    the first one that fits the budget and earns strictly more than the incumbent. */
module Bruteforce {
  import opened Catalog
  import opened Optimum
  import opened Combinations

  /** The incumbent: the positions of the best combination so far, its cost and its profit. */
  datatype Best = Best(pick: seq<nat>, cost: real, profit: real)

  /** Before the first combination: nothing chosen, cost 0 and profit 0. */
  function Init(): Best {
    Best([], 0.0, 0.0)
  }

  predicate AllValid(items: seq<Action>, ps: seq<seq<nat>>) {
    forall j :: 0 <= j < |ps| ==> ValidPicks(items, ps[j])
  }

  /** The incumbent describes what it claims: increasing positions whose totals are the
      recorded cost and profit, within the budget unless nothing is chosen. */
  predicate Sound(items: seq<Action>, maxBudget: real, b: Best) {
    ValidPicks(items, b.pick) && Increasing(b.pick)
    && b.cost == PickCost(items, b.pick) && b.profit == PickProfit(items, b.pick)
    && (b.pick != [] ==> b.cost <= maxBudget)
  }

  /** One combination offered to the incumbent: it replaces the incumbent exactly when it fits
      the budget and its profit is strictly higher. */
  function Offer(items: seq<Action>, maxBudget: real, b: Best, p: seq<nat>): (r: Best)
    requires ValidPicks(items, p)
    ensures r.profit >= b.profit
    ensures r != b <==> PickCost(items, p) <= maxBudget && PickProfit(items, p) > b.profit
    ensures r != b ==> r.pick == p
  {
    var totalCost := PickCost(items, p);
    if totalCost <= maxBudget then
      var totalProfit := PickProfit(items, p);
      if totalProfit > b.profit then Best(p, totalCost, totalProfit) else b
    else b
  }

  /** The combinations ps offered one after the other, first to last. */
  function Scan(items: seq<Action>, maxBudget: real, b: Best, ps: seq<seq<nat>>): (r: Best)
    requires AllValid(items, ps) && ValidPicks(items, b.pick)
    ensures ValidPicks(items, r.pick)
    ensures r.profit >= b.profit
    ensures r.pick == b.pick || r.pick in ps
    decreases |ps|
  {
    if ps == [] then b
    else Offer(items, maxBudget, Scan(items, maxBudget, b, ps[..|ps| - 1]), ps[|ps| - 1])
  }

  /** The incumbent changes only when its profit strictly rises. */
  lemma {:induction false} ScanKeeps(items: seq<Action>, maxBudget: real, b: Best, ps: seq<seq<nat>>)
    requires AllValid(items, ps) && ValidPicks(items, b.pick)
    ensures Scan(items, maxBudget, b, ps).profit == b.profit ==> Scan(items, maxBudget, b, ps) == b
    decreases |ps|
  {
    if ps != [] {
      ScanKeeps(items, maxBudget, b, ps[..|ps| - 1]);
    }
  }

  /** Offering the combinations of xs and then those of ys is offering those of xs + ys. */
  lemma {:induction false} ScanConcat(items: seq<Action>, maxBudget: real, b: Best, xs: seq<seq<nat>>, ys: seq<seq<nat>>)
    requires AllValid(items, xs) && AllValid(items, ys) && ValidPicks(items, b.pick)
    ensures AllValid(items, xs + ys)
    ensures Scan(items, maxBudget, b, xs + ys) == Scan(items, maxBudget, Scan(items, maxBudget, b, xs), ys)
    decreases |ys|
  {
    assert AllValid(items, xs + ys) by {
      forall j | 0 <= j < |xs + ys| ensures ValidPicks(items, (xs + ys)[j]) {
        if j >= |xs| { assert (xs + ys)[j] == ys[j - |xs|]; }
      }
    }
    if ys == [] {
      assert xs + ys == xs;
    } else {
      var m := |ys| - 1;
      assert (xs + ys)[..|xs + ys| - 1] == xs + ys[..m];
      assert (xs + ys)[|xs + ys| - 1] == ys[m];
      ScanConcat(items, maxBudget, b, xs, ys[..m]);
    }
  }

  /** A sound incumbent stays sound when only increasing selections are offered. */
  lemma {:induction false} ScanSound(items: seq<Action>, maxBudget: real, b: Best, ps: seq<seq<nat>>)
    requires AllValid(items, ps) && Sound(items, maxBudget, b)
    requires forall j :: 0 <= j < |ps| ==> Increasing(ps[j])
    ensures Sound(items, maxBudget, Scan(items, maxBudget, b, ps))
    decreases |ps|
  {
    if ps != [] {
      ScanSound(items, maxBudget, b, ps[..|ps| - 1]);
    }
  }

  /** No combination offered that fits the budget earns more than the final incumbent. */
  lemma {:induction false} ScanBest(items: seq<Action>, maxBudget: real, b: Best, ps: seq<seq<nat>>, j: nat)
    requires AllValid(items, ps) && ValidPicks(items, b.pick)
    requires j < |ps| && PickCost(items, ps[j]) <= maxBudget
    ensures PickProfit(items, ps[j]) <= Scan(items, maxBudget, b, ps).profit
    decreases |ps|
  {
    var m := |ps| - 1;
    if j < m {
      ScanBest(items, maxBudget, b, ps[..m], j);
    }
  }

  /** The final incumbent is either the initial one or the FIRST offered combination reaching
      its profit: it fits the budget, beats the initial incumbent, and every earlier one that
      fits earns strictly less. */
  lemma {:induction false} ScanWitness(items: seq<Action>, maxBudget: real, b: Best, ps: seq<seq<nat>>)
    returns (i: int)
    requires AllValid(items, ps) && ValidPicks(items, b.pick)
    ensures var r := Scan(items, maxBudget, b, ps);
      -1 <= i < |ps|
      && (i == -1 ==> r == b)
      && (i >= 0 ==>
            r.pick == ps[i] && r.cost == PickCost(items, ps[i]) && r.cost <= maxBudget
            && r.profit == PickProfit(items, ps[i]) && r.profit > b.profit
            && forall j :: 0 <= j < i && PickCost(items, ps[j]) <= maxBudget ==> PickProfit(items, ps[j]) < r.profit)
    decreases |ps|
  {
    if ps == [] {
      i := -1;
    } else {
      var m := |ps| - 1;
      var front := ps[..m];
      var r0 := Scan(items, maxBudget, b, front);
      if PickCost(items, ps[m]) <= maxBudget && PickProfit(items, ps[m]) > r0.profit {
        i := m;
        forall j | 0 <= j < i && PickCost(items, ps[j]) <= maxBudget
          ensures PickProfit(items, ps[j]) < Scan(items, maxBudget, b, ps).profit
        {
          assert front[j] == ps[j];
          ScanBest(items, maxBudget, b, front, j);
        }
      } else {
        i := ScanWitness(items, maxBudget, b, front);
        if i >= 0 {
          assert forall j :: 0 <= j <= i ==> front[j] == ps[j];
        }
      }
    }
  }

  /** The combinations of positions `bruteforce.py` enumerates are valid positions of the
      catalog, increasing. */
  lemma EnumValid(items: seq<Action>, m: nat)
    ensures AllValid(items, SizesUpTo(|items|, m)) && AllValid(items, Combos(0, |items|, m))
    ensures forall j :: 0 <= j < |SizesUpTo(|items|, m)| ==> Increasing(SizesUpTo(|items|, m)[j])
  {
    SizesShape(|items|, m);
    CombosShape(0, |items|, m);
  }

  /** The triple returned for an incumbent. */
  function Report(items: seq<Action>, b: Best): Result
    requires ValidPicks(items, b.pick)
  {
    Result(Actions(items, b.pick), b.cost, b.profit)
  }

  /** The incumbent once every combination of sizes 1..m has been offered. */
  function Tried(items: seq<Action>, maxBudget: real, m: nat): (b: Best)
    ensures ValidPicks(items, b.pick)
  {
    EnumValid(items, m);
    Scan(items, maxBudget, Init(), SizesUpTo(|items|, m))
  }

  lemma TriedSound(items: seq<Action>, maxBudget: real, m: nat)
    ensures Sound(items, maxBudget, Tried(items, maxBudget, m))
  {
    EnumValid(items, m);
    assert PickCost(items, []) == 0.0 && PickProfit(items, []) == 0.0;
    ScanSound(items, maxBudget, Init(), SizesUpTo(|items|, m));
  }

  /** One more size: the combinations of size m offered to the incumbent after sizes 1..m-1. */
  lemma TriedStep(items: seq<Action>, maxBudget: real, m: nat)
    requires m >= 1
    ensures AllValid(items, Combos(0, |items|, m))
    ensures Tried(items, maxBudget, m) == Scan(items, maxBudget, Tried(items, maxBudget, m - 1), Combos(0, |items|, m))
  {
    EnumValid(items, m - 1);
    EnumValid(items, m);
    ScanConcat(items, maxBudget, Init(), SizesUpTo(|items|, m - 1), Combos(0, |items|, m));
  }

  /** What `bruteforce_best_investment` returns, as a fold over the enumeration. */
  function BruteforceResult(items: seq<Action>, maxBudget: real): (r: Result)
    ensures Consistent(r)
    ensures r.combination != [] ==> r.totalCost <= maxBudget
    ensures r.totalProfit >= 0.0
    ensures r.combination == [] <==> r.totalProfit == 0.0
    ensures multiset(r.combination) <= multiset(items)
  {
    var b := Tried(items, maxBudget, |items|);
    TriedSound(items, maxBudget, |items|);
    EnumValid(items, |items|);
    ScanKeeps(items, maxBudget, Init(), SizesUpTo(|items|, |items|));
    assert PickProfit(items, []) == 0.0;
    IncreasingSubMultiset(items, b.pick, 0);
    Report(items, b)
  }

  /** The actions at increasing positions from lo on are drawn from items[lo..], each at most
      once. */
  lemma {:induction false} IncreasingSubMultiset(items: seq<Action>, p: seq<nat>, lo: nat)
    requires Increasing(p) && ValidPicks(items, p) && lo <= |items|
    requires forall k :: 0 <= k < |p| ==> lo <= p[k]
    ensures multiset(Actions(items, p)) <= multiset(items[lo..])
    decreases |p|
  {
    if p != [] {
      var i := p[0];
      var q := p[1..];
      assert forall k :: 0 <= k < |q| ==> q[k] == p[k + 1] && p[0] < p[k + 1];
      IncreasingSubMultiset(items, q, i + 1);
      assert Actions(items, p) == [items[i]] + Actions(items, q);
      SliceFrom(items, lo, i);
      ConsSubMultiset(items[i], Actions(items, q), items[i + 1..], items[lo..]);
    }
  }

  lemma SliceFrom(items: seq<Action>, lo: nat, i: nat)
    requires lo <= i < |items|
    ensures multiset([items[i]] + items[i + 1..]) <= multiset(items[lo..])
  {
    assert items[lo..] == items[lo..i] + ([items[i]] + items[i + 1..]);
  }

  lemma ConsSubMultiset(x: Action, rest: seq<Action>, tail: seq<Action>, whole: seq<Action>)
    requires multiset(rest) <= multiset(tail) && multiset([x] + tail) <= multiset(whole)
    ensures multiset([x] + rest) <= multiset(whole)
  {
  }

  /** The inner loop over the combinations of one size: each is counted, its cost summed, and
      when it fits the budget its profit replaces the incumbent if strictly higher. */
  method TryCombos(items: seq<Action>, maxBudget: real, combos: seq<seq<nat>>, b: Best)
    returns (r: Best, tried: nat)
    requires AllValid(items, combos) && ValidPicks(items, b.pick)
    ensures r == Scan(items, maxBudget, b, combos)
    ensures tried == |combos|
  {
    var bestPick := b.pick;
    var bestCost := b.cost;
    var bestProfit := b.profit;
    tried := 0;
    while tried < |combos|
      invariant tried <= |combos|
      invariant AllValid(items, combos[..tried])
      invariant Best(bestPick, bestCost, bestProfit) == Scan(items, maxBudget, b, combos[..tried])
    {
      var combo := combos[tried];
      var totalCost := PickCost(items, combo);
      if totalCost <= maxBudget {
        var totalProfit := PickProfit(items, combo);
        if totalProfit > bestProfit {
          bestProfit := totalProfit;
          bestPick := combo;
          bestCost := totalCost;
        }
      }
      assert combos[..tried + 1][..tried] == combos[..tried];
      tried := tried + 1;
    }
    assert combos[..tried] == combos;
    r := Best(bestPick, bestCost, bestProfit);
  }

  /** One pass of the outer loop: the combinations of size m offered, in order, to the
      incumbent left by the sizes below m. */
  method TrySize(items: seq<Action>, maxBudget: real, m: nat, best: Best) returns (next: Best, tried: nat)
    requires m >= 1 && best == Tried(items, maxBudget, m - 1)
    ensures next == Tried(items, maxBudget, m)
    ensures tried == Binom(|items|, m)
  {
    TriedStep(items, maxBudget, m);
    next, tried := TryCombos(items, maxBudget, Combos(0, |items|, m), best);
    CombosCount(0, |items|, m);
  }

  /** The search loops over the sizes 1..n and, within a size, over the combinations in the
      order `combinations` yields them; it returns the triple and the count of combinations
      tried. */
  method BruteforceBestInvestment(items: seq<Action>, maxBudget: real) returns (r: Result, totalCombinations: nat)
    ensures r == BruteforceResult(items, maxBudget)
    ensures totalCombinations == Pow2(|items|) - 1
  {
    var n := |items|;
    var best := Init();
    totalCombinations := 0;
    var actionCount := 1;
    while actionCount <= n
      invariant 1 <= actionCount <= n + 1
      invariant best == Tried(items, maxBudget, actionCount - 1)
      invariant totalCombinations == SumBinom(n, actionCount - 1) - 1
    {
      var tried;
      best, tried := TrySize(items, maxBudget, actionCount, best);
      totalCombinations := totalCombinations + tried;
      actionCount := actionCount + 1;
    }
    r := Report(items, best);
    SumAll(n);
  }

  /** With no negative cost the result reaches the optimum: no selection of distinct catalog
      positions within the budget earns more, and the result earns what the best does. */
  lemma BruteforceOptimal(items: seq<Action>, maxBudget: real)
    requires NonNegCosts(items)
    ensures BruteforceResult(items, maxBudget).totalProfit == Opt(items, maxBudget)
  {
    var n := |items|;
    var ps := AllCombos(n);
    EnumValid(items, n);
    assert PickCost(items, []) == 0.0 && PickProfit(items, []) == 0.0;
    ScanSound(items, maxBudget, Init(), ps);
    var b := Scan(items, maxBudget, Init(), ps);
    assert items[0..] == items;
    // The result is reachable, hence at most the optimum.
    if b.pick == [] {
      OptNonNeg(items, maxBudget);
    } else {
      OptUpper(items, 0, b.pick, maxBudget);
    }
    // The optimum is reachable by an enumerated combination, hence at most the result.
    var p := OptPick(items, 0, maxBudget);
    if p != [] {
      AllCombosComplete(n, p);
      var j :| 0 <= j < |ps| && ps[j] == p;
      ScanBest(items, maxBudget, Init(), ps, j);
    }
  }

  /** The first strictly best combination wins: the result is either nothing (profit 0) or the
      combination enumerated at some position i; it fits the budget, and every combination
      enumerated before it that fits earns strictly less. */
  lemma BruteforceFirstBest(items: seq<Action>, maxBudget: real) returns (i: int)
    ensures var r := BruteforceResult(items, maxBudget);
      var ps := AllCombos(|items|);
      -1 <= i < |ps|
      && (i == -1 ==> r == Result([], 0.0, 0.0))
      && (i >= 0 ==> Within(ps[i], 0, |items|) && ValidPicks(items, ps[i])
                     && r.combination == Actions(items, ps[i]) && r.totalCost <= maxBudget
                     && forall j :: 0 <= j < i && ValidPicks(items, ps[j]) && PickCost(items, ps[j]) <= maxBudget
                          ==> PickProfit(items, ps[j]) < r.totalProfit)
  {
    var ps := AllCombos(|items|);
    EnumValid(items, |items|);
    SizesShape(|items|, |items|);
    i := ScanWitness(items, maxBudget, Init(), ps);
    if i == -1 {
      assert Actions(items, []) == [];
    }
  }

  /** Each non-empty combination of catalog positions is tried once: the enumeration contains
      every increasing selection, in ascending size and lexicographic order, without repeats,
      and has 2^n - 1 entries. */
  lemma EnumerationExhaustive(n: nat, c: seq<nat>)
    ensures c != [] && Within(c, 0, n) ==> c in AllCombos(n)
    ensures forall j :: 0 <= j < |AllCombos(n)| ==> AllCombos(n)[j] != [] && Within(AllCombos(n)[j], 0, n)
    ensures forall i, j :: 0 <= i < j < |AllCombos(n)| ==> EnumBefore(AllCombos(n)[i], AllCombos(n)[j])
    ensures forall i, j :: 0 <= i < j < |AllCombos(n)| ==> AllCombos(n)[i] != AllCombos(n)[j]
    ensures |AllCombos(n)| == Pow2(n) - 1
  {
    if c != [] && Within(c, 0, n) {
      AllCombosComplete(n, c);
    }
    SizesShape(n, n);
    SizesOrdered(n, n);
    NoRepeats(AllCombos(n));
    AllCombosCount(n);
  }
}
