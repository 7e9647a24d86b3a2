/** The enumeration `bruteforce.py` drives: `itertools.combinations` over the catalog for each
    size from 1 to n, on catalog positions. Within one size the combinations come in
    lexicographic order of positions; the sizes come in ascending order. */
module Combinations {
  import opened Catalog

  /** Positions strictly increasing and all in lo..n-1. */
  predicate Within(c: seq<nat>, lo: nat, n: nat) {
    Increasing(c) && forall i :: 0 <= i < |c| ==> lo <= c[i] < n
  }

  function Prepend(i: nat, cs: seq<seq<nat>>): seq<seq<nat>> {
    seq(|cs|, j requires 0 <= j < |cs| => [i] + cs[j])
  }

  /** The k-element combinations of the positions lo..n-1, in the order `combinations`
      yields them: those starting with lo first, then those without lo. */
  function Combos(lo: nat, n: nat, k: nat): seq<seq<nat>>
    decreases n - lo, k
  {
    if k == 0 then [[]]
    else if lo >= n then []
    else Prepend(lo, Combos(lo + 1, n, k - 1)) + Combos(lo + 1, n, k)
  }

  /** Strict lexicographic order on position sequences. */
  predicate LexLess(a: seq<nat>, b: seq<nat>)
    decreases |a|
  {
    a != [] && b != [] && (a[0] < b[0] || (a[0] == b[0] && LexLess(a[1..], b[1..])))
  }

  lemma {:induction false} LexIrreflexive(a: seq<nat>)
    ensures !LexLess(a, a)
    decreases |a|
  {
    if a != [] {
      LexIrreflexive(a[1..]);
    }
  }

  /** Every combination produced has k increasing positions in lo..n-1. */
  lemma {:induction false} CombosShape(lo: nat, n: nat, k: nat)
    ensures forall j :: 0 <= j < |Combos(lo, n, k)| ==>
      |Combos(lo, n, k)[j]| == k && Within(Combos(lo, n, k)[j], lo, n)
    decreases n - lo, k
  {
    if k > 0 && lo < n {
      var d := Combos(lo + 1, n, k - 1);
      var e := Combos(lo + 1, n, k);
      CombosShape(lo + 1, n, k - 1);
      CombosShape(lo + 1, n, k);
      var p := Prepend(lo, d);
      var all: seq<seq<nat>> := p + e;
      assert Combos(lo, n, k) == all;
      forall j: int | 0 <= j < |all| ensures |all[j]| == k && Within(all[j], lo, n) {
        if j < |p| {
          var c: seq<nat> := [lo] + d[j];
          assert all[j] == c;
          assert forall i :: 1 <= i < |c| ==> c[i] == d[j][i - 1];
        } else {
          assert all[j] == e[j - |p|];
        }
      }
    }
  }

  /** Every k increasing positions in lo..n-1 are produced. */
  lemma {:induction false} CombosComplete(lo: nat, n: nat, k: nat, c: seq<nat>)
    requires |c| == k && Within(c, lo, n)
    ensures c in Combos(lo, n, k)
    decreases n - lo, k
  {
    if k > 0 {
      assert lo <= c[0] < n;
      var d := Combos(lo + 1, n, k - 1);
      var e := Combos(lo + 1, n, k);
      if c[0] == lo {
        assert Within(c[1..], lo + 1, n) by {
          forall i | 0 <= i < |c[1..]| ensures lo + 1 <= c[1..][i] {
            assert c[0] < c[i + 1];
          }
        }
        CombosComplete(lo + 1, n, k - 1, c[1..]);
        var j :| 0 <= j < |d| && d[j] == c[1..];
        assert Prepend(lo, d)[j] == c;
      } else {
        assert Within(c, lo + 1, n) by {
          forall i | 0 <= i < |c| ensures lo + 1 <= c[i] {
            if i > 0 { assert c[0] < c[i]; }
          }
        }
        CombosComplete(lo + 1, n, k, c);
      }
    }
  }

  /** Within one size, each combination comes strictly before the next in lexicographic
      order, so none is produced twice. */
  lemma {:induction false} CombosLex(lo: nat, n: nat, k: nat)
    ensures forall i, j :: 0 <= i < j < |Combos(lo, n, k)| ==> LexLess(Combos(lo, n, k)[i], Combos(lo, n, k)[j])
    decreases n - lo, k
  {
    if k > 0 && lo < n {
      var d := Combos(lo + 1, n, k - 1);
      var e := Combos(lo + 1, n, k);
      var p := Prepend(lo, d);
      CombosLex(lo + 1, n, k - 1);
      CombosLex(lo + 1, n, k);
      CombosShape(lo + 1, n, k);
      var all: seq<seq<nat>> := p + e;
      assert Combos(lo, n, k) == all;
      forall i: int, j: int | 0 <= i < j < |all| ensures LexLess(all[i], all[j]) {
        if j < |p| {
          assert all[i] == [lo] + d[i] && all[j] == [lo] + d[j];
          assert ([lo] + d[i])[1..] == d[i] && ([lo] + d[j])[1..] == d[j];
        } else if i < |p| {
          assert all[i] == [lo] + d[i] && all[j] == e[j - |p|];
          assert e[j - |p|][0] >= lo + 1;
        } else {
          assert all[i] == e[i - |p|] && all[j] == e[j - |p|];
        }
      }
    }
  }

  /** The number of k-element subsets of an m-element set. */
  function Binom(m: nat, k: nat): nat {
    if k == 0 then 1
    else if m == 0 then 0
    else Binom(m - 1, k - 1) + Binom(m - 1, k)
  }

  lemma {:induction false} CombosCount(lo: nat, n: nat, k: nat)
    requires lo <= n
    ensures |Combos(lo, n, k)| == Binom(n - lo, k)
    decreases n - lo, k
  {
    if k > 0 && lo < n {
      CombosCount(lo + 1, n, k - 1);
      CombosCount(lo + 1, n, k);
    }
  }

  /** All combinations of sizes 1..m, size by size. */
  function SizesUpTo(n: nat, m: nat): seq<seq<nat>> {
    if m == 0 then [] else SizesUpTo(n, m - 1) + Combos(0, n, m)
  }

  /** Everything `bruteforce.py` enumerates: sizes 1..n. */
  function AllCombos(n: nat): seq<seq<nat>> {
    SizesUpTo(n, n)
  }

  /** The enumeration order: a smaller size first; equal sizes lexicographically. */
  predicate EnumBefore(a: seq<nat>, b: seq<nat>) {
    |a| < |b| || (|a| == |b| && LexLess(a, b))
  }

  /** Every enumerated combination is a non-empty increasing selection of positions of size at
      most m. */
  lemma {:induction false} SizesShape(n: nat, m: nat)
    ensures forall j :: 0 <= j < |SizesUpTo(n, m)| ==>
      1 <= |SizesUpTo(n, m)[j]| <= m && Within(SizesUpTo(n, m)[j], 0, n)
  {
    if m > 0 {
      var a := SizesUpTo(n, m - 1);
      var b := Combos(0, n, m);
      SizesShape(n, m - 1);
      CombosShape(0, n, m);
      var all: seq<seq<nat>> := a + b;
      forall j: int | 0 <= j < |all| ensures 1 <= |all[j]| <= m && Within(all[j], 0, n) {
        if j >= |a| { assert all[j] == b[j - |a|]; } else { assert all[j] == a[j]; }
      }
    }
  }

  /** Sizes ascend and within a size the order is lexicographic; no combination comes twice. */
  lemma {:induction false} SizesOrdered(n: nat, m: nat)
    ensures forall i, j :: 0 <= i < j < |SizesUpTo(n, m)| ==> EnumBefore(SizesUpTo(n, m)[i], SizesUpTo(n, m)[j])
  {
    if m > 0 {
      var a := SizesUpTo(n, m - 1);
      var b := Combos(0, n, m);
      SizesOrdered(n, m - 1);
      SizesShape(n, m - 1);
      CombosShape(0, n, m);
      CombosLex(0, n, m);
      var all: seq<seq<nat>> := a + b;
      forall i: int, j: int | 0 <= i < j < |all| ensures EnumBefore(all[i], all[j]) {
        if j < |a| {
          assert all[i] == a[i] && all[j] == a[j];
        } else if i < |a| {
          assert all[i] == a[i] && all[j] == b[j - |a|];
        } else {
          assert all[i] == b[i - |a|] && all[j] == b[j - |a|];
        }
      }
    }
  }

  /** An ordered enumeration never repeats a combination. */
  lemma NoRepeats(ps: seq<seq<nat>>)
    requires forall i, j :: 0 <= i < j < |ps| ==> EnumBefore(ps[i], ps[j])
    ensures forall i, j :: 0 <= i < j < |ps| ==> ps[i] != ps[j]
  {
    forall i, j | 0 <= i < j < |ps| ensures ps[i] != ps[j] {
      LexIrreflexive(ps[i]);
    }
  }

  /** An increasing selection inside 0..n-1 has at most n - lo positions. */
  lemma {:induction false} WithinLength(c: seq<nat>, lo: nat, n: nat)
    requires Within(c, lo, n) && c != []
    ensures lo + |c| <= n
    decreases |c|
  {
    if |c| > 1 {
      assert Within(c[1..], c[0] + 1, n) by {
        forall i | 0 <= i < |c[1..]| ensures c[0] + 1 <= c[1..][i] {
          assert c[0] < c[i + 1];
        }
      }
      WithinLength(c[1..], c[0] + 1, n);
    }
  }

  /** Every non-empty increasing selection of positions is enumerated. */
  lemma {:induction false} SizesComplete(n: nat, m: nat, c: seq<nat>)
    requires c != [] && |c| <= m && Within(c, 0, n)
    ensures c in SizesUpTo(n, m)
  {
    if |c| == m {
      CombosComplete(0, n, m, c);
    } else {
      SizesComplete(n, m - 1, c);
    }
  }

  lemma AllCombosComplete(n: nat, c: seq<nat>)
    requires c != [] && Within(c, 0, n)
    ensures c in AllCombos(n)
  {
    WithinLength(c, 0, n);
    SizesComplete(n, n, c);
  }

  function Pow2(n: nat): nat {
    if n == 0 then 1 else 2 * Pow2(n - 1)
  }

  /** The number of subsets of an m-element set with at most j elements. */
  function SumBinom(m: nat, j: nat): nat {
    if j == 0 then 1 else SumBinom(m, j - 1) + Binom(m, j)
  }

  lemma {:induction false} BinomAbove(m: nat, k: nat)
    requires k > m
    ensures Binom(m, k) == 0
  {
    if m > 0 {
      BinomAbove(m - 1, k - 1);
      BinomAbove(m - 1, k);
    }
  }

  /** Pascal's rule summed over the sizes 0..j+1. */
  lemma {:induction false} SumPascal(m: nat, j: nat)
    ensures SumBinom(m + 1, j + 1) == SumBinom(m, j + 1) + SumBinom(m, j)
  {
    assert Binom(m + 1, j + 1) == Binom(m, j) + Binom(m, j + 1);
    if j > 0 {
      SumPascal(m, j - 1);
      assert SumBinom(m + 1, j) == SumBinom(m, j) + SumBinom(m, j - 1);
    }
  }

  lemma {:induction false} SumAll(m: nat)
    ensures SumBinom(m, m) == Pow2(m)
  {
    if m > 0 {
      SumAll(m - 1);
      SumPascal(m - 1, m - 1);
      BinomAbove(m - 1, m);
    }
  }

  lemma {:induction false} SizesCount(n: nat, m: nat)
    ensures |SizesUpTo(n, m)| == SumBinom(n, m) - 1
  {
    if m > 0 {
      SizesCount(n, m - 1);
      CombosCount(0, n, m);
    }
  }

  /** `bruteforce.py` tries 2^n - 1 combinations: every non-empty subset once. */
  lemma AllCombosCount(n: nat)
    ensures |AllCombos(n)| == Pow2(n) - 1
  {
    SizesCount(n, n);
    SumAll(n);
  }
}
