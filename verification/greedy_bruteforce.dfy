/** `greedy_bruteforce.py`: sorts the actions by decreasing ratio with a hand-written quicksort
    (Lomuto partition, last element as pivot), then runs the greedy selection. Its loader keeps
    every row, so no sign condition is assumed here. The list the Python code sorts in place is
    passed in and returned as a value. */
module GreedyBruteforce {
  import opened Catalog
  import opened Optimum
  import opened StableSort
  import opened Greedy

  /** `calculate_ratio`: the profit rate as a fraction. */
  function CalculateRatio(a: Action): (r: real)
    ensures r * 100.0 == a.pct
  {
    a.pct / 100.0
  }

  /** Comparing ratios is comparing rates, so this order and the one `tree.py` and
      `optimized.py` sort by agree. */
  lemma RatioOrderIsRateOrder(a: Action, b: Action)
    ensures CalculateRatio(a) > CalculateRatio(b) <==> Rate(a) > Rate(b)
    ensures CalculateRatio(a) == a.Ratio()
  {
  }

  /** Positions lo..hi are in non-increasing ratio order. */
  predicate DescendingOn(s: seq<Action>, lo: int, hi: int) {
    forall i, j :: lo <= i < j <= hi && 0 <= i && j < |s| ==> CalculateRatio(s[i]) >= CalculateRatio(s[j])
  }

  /** s and t agree outside positions lo..hi. */
  predicate SameOutside(s: seq<Action>, t: seq<Action>, lo: int, hi: int) {
    |s| == |t| && forall k :: 0 <= k < |s| && !(lo <= k <= hi) ==> s[k] == t[k]
  }

  function Swap(s: seq<Action>, x: nat, y: nat): (t: seq<Action>)
    requires x < |s| && y < |s|
    ensures |t| == |s| && t[x] == s[y] && t[y] == s[x]
    ensures forall k :: 0 <= k < |s| && k != x && k != y ==> t[k] == s[k]
  {
    s[x := s[y]][y := s[x]]
  }

  /** Exchanging two positions inside lo..hi keeps the multiset of that range. */
  lemma SwapRange(s: seq<Action>, lo: nat, hi: nat, x: nat, y: nat)
    requires lo <= x <= hi && lo <= y <= hi && hi < |s|
    ensures multiset(Swap(s, x, y)[lo..hi + 1]) == multiset(s[lo..hi + 1])
  {
    var r := s[lo..hi + 1];
    assert Swap(s, x, y)[lo..hi + 1] == r[x - lo := s[y]][y - lo := s[x]];
  }

  /** What the partition loop keeps: positions low..i hold ratios above the pivot ratio pr,
      positions i+1..j-1 ratios not above it, the pivot stays last, the range keeps its
      multiset and nothing outside the range moves. */
  predicate PartitionInv(a: seq<Action>, arr: seq<Action>, low: nat, high: nat, i: int, j: nat, pr: real)
    requires low <= high < |arr|
  {
    low <= j <= high && low - 1 <= i < j
    && SameOutside(a, arr, low, high) && a[high] == arr[high]
    && multiset(a[low..high + 1]) == multiset(arr[low..high + 1])
    && (forall k :: low <= k <= i ==> CalculateRatio(a[k]) > pr)
    && (forall k :: i < k < j ==> CalculateRatio(a[k]) <= pr)
  }

  /** Exchanging two positions inside lo..hi moves nothing outside it. */
  lemma SwapOutside(a: seq<Action>, arr: seq<Action>, lo: nat, hi: nat, x: nat, y: nat)
    requires lo <= x <= hi && lo <= y <= hi && hi < |a| && SameOutside(a, arr, lo, hi)
    ensures SameOutside(Swap(a, x, y), arr, lo, hi)
  {
  }

  /** One step of the loop when a[j] goes to the front part. */
  lemma PartitionSwap(a: seq<Action>, arr: seq<Action>, low: nat, high: nat, i: int, j: nat, pr: real)
    requires low <= high < |arr| && j < high
    requires PartitionInv(a, arr, low, high, i, j, pr) && CalculateRatio(a[j]) > pr
    ensures PartitionInv(Swap(a, i + 1, j), arr, low, high, i + 1, j + 1, pr)
  {
    var b := Swap(a, i + 1, j);
    SwapRange(a, low, high, i + 1, j);
    forall k | low <= k <= i + 1 ensures CalculateRatio(b[k]) > pr {
      if k <= i { assert b[k] == a[k]; } else { assert b[k] == a[j]; }
    }
    forall k | i + 1 < k < j + 1 ensures CalculateRatio(b[k]) <= pr {
      if k < j { assert b[k] == a[k]; } else { assert b[k] == a[i + 1]; }
    }
    SwapOutside(a, arr, low, high, i + 1, j);
    assert b[high] == a[high];
  }

  /** One step of the loop when a[j] stays behind. */
  lemma PartitionKeep(a: seq<Action>, arr: seq<Action>, low: nat, high: nat, i: int, j: nat, pr: real)
    requires low <= high < |arr| && j < high
    requires PartitionInv(a, arr, low, high, i, j, pr) && CalculateRatio(a[j]) <= pr
    ensures PartitionInv(a, arr, low, high, i, j + 1, pr)
  {
  }

  /** The last exchange puts the pivot right after the front part. */
  lemma PartitionPlace(a: seq<Action>, arr: seq<Action>, low: nat, high: nat, i: int, pr: real)
    requires low <= high < |arr| && pr == CalculateRatio(arr[high])
    requires PartitionInv(a, arr, low, high, i, high, pr)
    ensures var res := Swap(a, i + 1, high);
      SameOutside(res, arr, low, high)
      && multiset(res[low..high + 1]) == multiset(arr[low..high + 1])
      && res[i + 1] == arr[high]
      && (forall k :: low <= k < i + 1 ==> CalculateRatio(res[k]) > CalculateRatio(arr[high]))
      && (forall k :: i + 1 < k <= high ==> CalculateRatio(res[k]) <= CalculateRatio(arr[high]))
  {
    var res := Swap(a, i + 1, high);
    SwapRange(a, low, high, i + 1, high);
    SwapOutside(a, arr, low, high, i + 1, high);
    forall k | low <= k < i + 1 ensures CalculateRatio(res[k]) > pr {
      assert res[k] == a[k];
    }
    forall k | i + 1 < k <= high ensures CalculateRatio(res[k]) <= pr {
      if k < high { assert res[k] == a[k]; } else { assert res[k] == a[i + 1]; }
    }
  }

  /** `partition`: moves every action whose ratio is strictly above the pivot's (the last
      action of the range) in front of it, puts the pivot right after them and returns its
      position; the rest of the range follows, none above the pivot. */
  method Partition(arr: seq<Action>, low: nat, high: nat) returns (res: seq<Action>, pivotIndex: nat)
    requires low <= high < |arr|
    ensures low <= pivotIndex <= high
    ensures SameOutside(res, arr, low, high)
    ensures multiset(res[low..high + 1]) == multiset(arr[low..high + 1])
    ensures res[pivotIndex] == arr[high]
    ensures forall k :: low <= k < pivotIndex ==> CalculateRatio(res[k]) > CalculateRatio(arr[high])
    ensures forall k :: pivotIndex < k <= high ==> CalculateRatio(res[k]) <= CalculateRatio(arr[high])
  {
    var a := arr;
    var pivotRatio := CalculateRatio(a[high]);
    var i: int := low - 1;
    var j := low;
    while j < high
      invariant PartitionInv(a, arr, low, high, i, j, pivotRatio)
      decreases high - j
    {
      if CalculateRatio(a[j]) > pivotRatio {
        PartitionSwap(a, arr, low, high, i, j, pivotRatio);
        i := i + 1;
        a := Swap(a, i, j);
      } else {
        PartitionKeep(a, arr, low, high, i, j, pivotRatio);
      }
      j := j + 1;
    }
    PartitionPlace(a, arr, low, high, i, pivotRatio);
    a := Swap(a, i + 1, high);
    res, pivotIndex := a, i + 1;
  }

  /** An action of a range whose multiset is unchanged was in that range before. */
  lemma FromRange(a: seq<Action>, b: seq<Action>, lo: nat, hi: int, k: nat) returns (m: nat)
    requires lo <= hi + 1 <= |a| && |a| == |b| && lo <= k <= hi
    requires multiset(b[lo..hi + 1]) == multiset(a[lo..hi + 1])
    ensures lo <= m <= hi && b[k] == a[m]
  {
    assert b[k] == b[lo..hi + 1][k - lo];
    assert b[k] in multiset(a[lo..hi + 1]);
    var m' :| 0 <= m' < |a[lo..hi + 1]| && a[lo..hi + 1][m'] == b[k];
    m := lo + m';
  }

  /** Growing a range whose multiset is kept: if lo..hi keeps its multiset and nothing outside
      it moves, then so does any enclosing range. */
  lemma Enclose(a: seq<Action>, b: seq<Action>, lo: nat, hi: int, lo': nat, hi': int)
    requires lo' <= lo <= hi + 1 <= hi' + 1 <= |a|
    requires SameOutside(b, a, lo, hi)
    requires multiset(b[lo..hi + 1]) == multiset(a[lo..hi + 1])
    ensures multiset(b[lo'..hi' + 1]) == multiset(a[lo'..hi' + 1])
  {
    assert a[lo'..hi' + 1] == a[lo'..lo] + a[lo..hi + 1] + a[hi + 1..hi' + 1];
    assert b[lo'..hi' + 1] == b[lo'..lo] + b[lo..hi + 1] + b[hi + 1..hi' + 1];
    assert a[lo'..lo] == b[lo'..lo] && a[hi + 1..hi' + 1] == b[hi + 1..hi' + 1];
  }

  /** After the partition and the two recursive sorts the whole range is sorted. */
  lemma SortedAroundPivot(a: seq<Action>, b: seq<Action>, c: seq<Action>, low: nat, high: nat, p: nat)
    requires low <= p <= high < |a|
    requires forall k :: low <= k < p ==> CalculateRatio(a[k]) > CalculateRatio(a[p])
    requires forall k :: p < k <= high ==> CalculateRatio(a[k]) <= CalculateRatio(a[p])
    requires SameOutside(b, a, low, p - 1) && multiset(b[low..p]) == multiset(a[low..p])
    requires DescendingOn(b, low, p - 1)
    requires SameOutside(c, b, p + 1, high) && multiset(c[p + 1..high + 1]) == multiset(b[p + 1..high + 1])
    requires DescendingOn(c, p + 1, high)
    ensures DescendingOn(c, low, high)
  {
    var pr := CalculateRatio(a[p]);
    assert c[p] == a[p];
    LeftStaysAbove(a, b, c, low, high, p);
    RightStaysBelow(a, b, c, low, high, p);
    assert DescendingOn(c, low, p - 1) by {
      forall i, j | low <= i < j <= p - 1 && 0 <= i && j < |c| ensures CalculateRatio(c[i]) >= CalculateRatio(c[j]) {
        assert c[i] == b[i] && c[j] == b[j];
      }
    }
    JoinSorted(c, low, high, p, pr);
  }

  /** After the partition and the two recursive sorts the range keeps its multiset and nothing
      outside it moved. */
  lemma KeptAroundPivot(arr: seq<Action>, a: seq<Action>, b: seq<Action>, c: seq<Action>,
                        low: nat, high: nat, p: nat)
    requires low <= p <= high < |arr|
    requires SameOutside(a, arr, low, high) && multiset(a[low..high + 1]) == multiset(arr[low..high + 1])
    requires SameOutside(b, a, low, p - 1) && multiset(b[low..p]) == multiset(a[low..p])
    requires SameOutside(c, b, p + 1, high) && multiset(c[p + 1..high + 1]) == multiset(b[p + 1..high + 1])
    ensures SameOutside(c, arr, low, high)
    ensures multiset(c[low..high + 1]) == multiset(arr[low..high + 1])
  {
    Enclose(a, b, low, p - 1, low, high);
    Enclose(b, c, p + 1, high, low, high);
  }

  /** A sorted left part above the pivot, the pivot, and a sorted right part not above it
      make a sorted range. */
  lemma JoinSorted(c: seq<Action>, low: nat, high: nat, p: nat, pr: real)
    requires low <= p <= high < |c| && CalculateRatio(c[p]) == pr
    requires forall k :: low <= k < p ==> CalculateRatio(c[k]) > pr
    requires forall k :: p < k <= high ==> CalculateRatio(c[k]) <= pr
    requires DescendingOn(c, low, p - 1) && DescendingOn(c, p + 1, high)
    ensures DescendingOn(c, low, high)
  {
  }

  /** The left part, sorted on its own, still holds only ratios above the pivot's. */
  lemma LeftStaysAbove(a: seq<Action>, b: seq<Action>, c: seq<Action>, low: nat, high: nat, p: nat)
    requires low <= p <= high < |a|
    requires forall k :: low <= k < p ==> CalculateRatio(a[k]) > CalculateRatio(a[p])
    requires SameOutside(b, a, low, p - 1) && multiset(b[low..p]) == multiset(a[low..p])
    requires SameOutside(c, b, p + 1, high)
    ensures forall k :: low <= k < p ==> CalculateRatio(c[k]) > CalculateRatio(a[p])
  {
    forall k | low <= k < p ensures CalculateRatio(c[k]) > CalculateRatio(a[p]) {
      var m := FromRange(a, b, low, p - 1, k);
      assert c[k] == b[k];
    }
  }

  /** The right part, sorted on its own, still holds no ratio above the pivot's. */
  lemma RightStaysBelow(a: seq<Action>, b: seq<Action>, c: seq<Action>, low: nat, high: nat, p: nat)
    requires low <= p <= high < |a|
    requires forall k :: p < k <= high ==> CalculateRatio(a[k]) <= CalculateRatio(a[p])
    requires SameOutside(b, a, low, p - 1)
    requires SameOutside(c, b, p + 1, high) && multiset(c[p + 1..high + 1]) == multiset(b[p + 1..high + 1])
    ensures forall k :: p < k <= high ==> CalculateRatio(c[k]) <= CalculateRatio(a[p])
  {
    forall k | p < k <= high ensures CalculateRatio(c[k]) <= CalculateRatio(a[p]) {
      var m := FromRange(b, c, p + 1, high, k);
      assert b[m] == a[m];
    }
  }

  /** `quicksort_actions` on positions low..high: sorts that range by non-increasing ratio
      without touching the rest of the list. The value it returns is that of the source:
      nothing (`None`) when the range has fewer than two actions, the list otherwise. */
  method QuicksortActions(arr: seq<Action>, low: nat, high: int) returns (sorted: seq<Action>, returned: Option<seq<Action>>)
    requires low <= high + 1 <= |arr|
    ensures SameOutside(sorted, arr, low, high)
    ensures multiset(sorted[low..high + 1]) == multiset(arr[low..high + 1])
    ensures DescendingOn(sorted, low, high)
    ensures returned == if low >= high then None else Some(sorted)
    decreases high - low
  {
    if low >= high {
      return arr, None;
    }
    var a, pivotIndex := Partition(arr, low, high);
    var b, _ := QuicksortActions(a, low, pivotIndex as int - 1);
    var c, _ := QuicksortActions(b, pivotIndex + 1, high);
    SortedAroundPivot(a, b, c, low, high, pivotIndex);
    KeptAroundPivot(arr, a, b, c, low, high, pivotIndex);
    return c, Some(c);
  }

  /** `sort_actions_by_ratio` as written: quicksort over a copy of the whole list, returning
      what `quicksort_actions` returns, which is nothing for fewer than two actions. */
  method SortActionsByRatio(actions: seq<Action>) returns (r: Option<seq<Action>>)
    ensures r.None? <==> |actions| <= 1
    ensures r.Some? ==> multiset(r.value) == multiset(actions) && |r.value| == |actions|
    ensures r.Some? ==> DescendingOn(r.value, 0, |r.value| - 1)
  {
    var copy := actions;
    var sorted;
    sorted, r := QuicksortActions(copy, 0, |copy| - 1);
    assert sorted[0..|copy|] == sorted && copy[0..|copy|] == copy;
  }

  /** `greedy_investment` as written: iterating over the value of `sort_actions_by_ratio` fails
      with a TypeError (`None` here) when there are fewer than two actions. Otherwise the
      selection is the greedy pass over the ratio-sorted copy, also returned; it fits the
      budget, and with no negative cost it earns at most the optimum. */
  method GreedyInvestmentAsWritten(actions: seq<Action>, maxBudget: real)
    returns (r: Option<Result>, sortedActions: Option<seq<Action>>)
    ensures r.None? <==> |actions| <= 1
    ensures sortedActions.None? <==> r.None?
    ensures sortedActions.Some? ==> multiset(sortedActions.value) == multiset(actions)
    ensures sortedActions.Some? ==> DescendingOn(sortedActions.value, 0, |sortedActions.value| - 1)
    ensures r.Some? && sortedActions.Some? ==> r.value.combination == Take(sortedActions.value, maxBudget)
    ensures r.Some? ==> Consistent(r.value) && multiset(r.value.combination) <= multiset(actions)
    ensures r.Some? ==> (r.value.combination != [] ==> r.value.totalCost <= maxBudget)
    ensures r.Some? && NonNegCosts(actions) ==> r.value.totalProfit <= Opt(actions, maxBudget)
  {
    sortedActions := SortActionsByRatio(actions);
    if sortedActions.None? {
      return None, None;
    }
    var sorted := sortedActions.value;
    var res := GreedyScan(sorted, maxBudget);
    TakeSubMultiset(sorted, maxBudget);
    TakeFits(sorted, maxBudget);
    if NonNegCosts(actions) {
      TakeWithinOpt(sorted, maxBudget);
      OptPermutation(actions, sorted, maxBudget);
    }
    r := Some(res);
  }

  /** `sort_actions_by_ratio` with the evident intent: the sorted copy for every list, the
      empty and one-action lists included. */
  method SortActionsByRatioFixed(actions: seq<Action>) returns (sorted: seq<Action>)
    ensures multiset(sorted) == multiset(actions) && |sorted| == |actions|
    ensures DescendingOn(sorted, 0, |sorted| - 1)
  {
    var copy := actions;
    var returned;
    sorted, returned := QuicksortActions(copy, 0, |copy| - 1);
    assert sorted[0..|copy|] == sorted && copy[0..|copy|] == copy;
  }

  /** `greedy_investment` on the corrected sort: a triple for every list. The selection is the
      greedy pass over a ratio-sorted permutation of the actions; it fits the budget, and with no
      negative cost it earns at most the optimum. */
  method GreedyInvestment(actions: seq<Action>, maxBudget: real) returns (r: Result, sortedActions: seq<Action>)
    ensures multiset(sortedActions) == multiset(actions)
    ensures DescendingOn(sortedActions, 0, |sortedActions| - 1)
    ensures r.combination == Take(sortedActions, maxBudget)
    ensures Consistent(r)
    ensures r.combination != [] ==> r.totalCost <= maxBudget
    ensures multiset(r.combination) <= multiset(actions)
    ensures NonNegCosts(actions) ==> r.totalProfit <= Opt(actions, maxBudget)
  {
    sortedActions := SortActionsByRatioFixed(actions);
    r := GreedyScan(sortedActions, maxBudget);
    TakeSubMultiset(sortedActions, maxBudget);
    TakeFits(sortedActions, maxBudget);
    if NonNegCosts(actions) {
      TakeWithinOpt(sortedActions, maxBudget);
      OptPermutation(actions, sortedActions, maxBudget);
    }
  }
}
