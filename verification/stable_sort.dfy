/** Python's stable `sorted(..., reverse=True)` as both sorting call sites use it: into
    non-increasing profit rate (`key=lambda a: a.profit_percentage` in `tree.py`; the ratio
    compared by `__lt__` in `optimized.py` is the rate divided by 100, so it orders the same).
    Written as an insertion sort. */
module StableSort {
  import opened Catalog

  function Rate(a: Action): real {
    a.pct
  }

  predicate SortedDesc(s: seq<Action>) {
    forall i, j :: 0 <= i < j < |s| ==> Rate(s[i]) >= Rate(s[j])
  }

  /** The elements of s whose rate is k, in the order they appear in s. */
  function WithRate(s: seq<Action>, k: real): seq<Action>
    decreases |s|
  {
    if s == [] then [] else Own(s[0], k) + WithRate(s[1..], k)
  }

  function Own(a: Action, k: real): seq<Action> {
    if Rate(a) == k then [a] else []
  }

  /** Places x in front of the first element whose rate is not above x's, so x follows every
      element with a larger rate and precedes every element with an equal one. */
  function Insert(x: Action, t: seq<Action>): seq<Action>
    decreases |t|
  {
    if t == [] || Rate(x) >= Rate(t[0]) then [x] + t
    else [t[0]] + Insert(x, t[1..])
  }

  function SortDesc(s: seq<Action>): seq<Action>
    decreases |s|
  {
    if s == [] then [] else Insert(s[0], SortDesc(s[1..]))
  }

  lemma {:induction false} InsertPermutation(x: Action, t: seq<Action>)
    ensures multiset(Insert(x, t)) == multiset(t) + multiset{x}
    decreases |t|
  {
    if t != [] && Rate(x) < Rate(t[0]) {
      InsertPermutation(x, t[1..]);
      assert t == [t[0]] + t[1..];
    }
  }

  lemma {:induction false} InsertSorted(x: Action, t: seq<Action>)
    requires SortedDesc(t)
    ensures SortedDesc(Insert(x, t))
    decreases |t|
  {
    if t != [] && Rate(x) < Rate(t[0]) {
      assert SortedDesc(t[1..]);
      InsertSorted(x, t[1..]);
      InsertPermutation(x, t[1..]);
      HeadAboveTail(x, t, Insert(x, t[1..]));
    }
  }

  /** When x goes behind the head of a sorted t, the head stays above everything after it. */
  lemma HeadAboveTail(x: Action, t: seq<Action>, tail: seq<Action>)
    requires t != [] && Rate(x) < Rate(t[0]) && SortedDesc(t)
    requires multiset(tail) == multiset(t[1..]) + multiset{x}
    requires SortedDesc(tail)
    ensures SortedDesc([t[0]] + tail)
  {
    forall i | 0 <= i < |tail| ensures Rate(t[0]) >= Rate(tail[i]) {
      assert tail[i] in multiset(tail);
      if tail[i] != x {
        assert tail[i] in multiset(t[1..]);
        var m :| 0 <= m < |t[1..]| && t[1..][m] == tail[i];
        assert t[m + 1] == tail[i];
      }
    }
  }

  /** The sorted sequence is a permutation of the input. */
  lemma {:induction false} SortDescPermutation(s: seq<Action>)
    ensures multiset(SortDesc(s)) == multiset(s)
    decreases |s|
  {
    if s != [] {
      SortDescPermutation(s[1..]);
      InsertPermutation(s[0], SortDesc(s[1..]));
      assert s == [s[0]] + s[1..];
    }
  }

  /** The sorted sequence is in non-increasing rate order. */
  lemma {:induction false} SortDescSorted(s: seq<Action>)
    ensures SortedDesc(SortDesc(s))
    decreases |s|
  {
    if s != [] {
      SortDescSorted(s[1..]);
      InsertSorted(s[0], SortDesc(s[1..]));
    }
  }

  lemma WithRateCons(x: Action, t: seq<Action>, k: real)
    ensures WithRate([x] + t, k) == Own(x, k) + WithRate(t, k)
  {
    assert ([x] + t)[1..] == t;
  }

  /** Inserting x adds x at the head of its own rate class and nowhere else. */
  lemma {:induction false} InsertStable(x: Action, t: seq<Action>, k: real)
    requires SortedDesc(t)
    ensures WithRate(Insert(x, t), k) == Own(x, k) + WithRate(t, k)
    decreases |t|
  {
    if t == [] || Rate(x) >= Rate(t[0]) {
      WithRateCons(x, t, k);
    } else {
      var tail := Insert(x, t[1..]);
      assert SortedDesc(t[1..]);
      InsertStable(x, t[1..], k);
      assert Insert(x, t) == [t[0]] + tail;
      InsertStableStep(x, t, tail, k);
    }
  }

  /** x passing the head of t: the head and x never share a rate class. */
  lemma InsertStableStep(x: Action, t: seq<Action>, tail: seq<Action>, k: real)
    requires t != [] && Rate(x) < Rate(t[0])
    requires WithRate(tail, k) == Own(x, k) + WithRate(t[1..], k)
    ensures WithRate([t[0]] + tail, k) == Own(x, k) + WithRate(t, k)
  {
    WithRateCons(t[0], tail, k);
    WithRateCons(t[0], t[1..], k);
    assert t == [t[0]] + t[1..];
    if Rate(t[0]) == k {
      assert Own(x, k) == [];
    } else {
      assert Own(t[0], k) == [];
    }
  }

  /** Stability: within each rate class the sorted sequence keeps the input order. */
  lemma {:induction false} SortDescStable(s: seq<Action>, k: real)
    ensures WithRate(SortDesc(s), k) == WithRate(s, k)
    decreases |s|
  {
    if s != [] {
      SortDescStable(s[1..], k);
      SortDescSorted(s[1..]);
      InsertStable(s[0], SortDesc(s[1..]), k);
      WithRateCons(s[0], s[1..], k);
      assert s == [s[0]] + s[1..];
    }
  }
}
