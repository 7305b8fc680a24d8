/** Sums over sequences of numbers, and permutations of sequences. */
module Sums {

  function Sum(s: seq<int>): int
  {
    if s == [] then 0 else Sum(s[..|s| - 1]) + s[|s| - 1]
  }

  lemma {:induction false} SumNext(s: seq<int>, i: nat)
    requires i < |s|
    ensures Sum(s[..i + 1]) == Sum(s[..i]) + s[i]
  {
    assert s[..i + 1][..i] == s[..i];
  }

  lemma {:induction false} SumConcat(a: seq<int>, b: seq<int>)
    ensures Sum(a + b) == Sum(a) + Sum(b)
    decreases |b|
  {
    if b == [] {
      assert a + b == a;
    } else {
      var k := |b| - 1;
      SumConcat(a, b[..k]);
      assert (a + b)[..|a + b| - 1] == a + b[..k];
    }
  }

  lemma {:induction false} SumUpdate(s: seq<int>, i: nat, x: int)
    requires i < |s|
    ensures Sum(s[i := x]) == Sum(s) - s[i] + x
  {
    assert s == s[..i] + [s[i]] + s[i + 1..];
    assert s[i := x] == s[..i] + [x] + s[i + 1..];
    SumConcat(s[..i], [s[i]]);
    SumConcat(s[..i], [x]);
    SumConcat(s[..i] + [s[i]], s[i + 1..]);
    SumConcat(s[..i] + [x], s[i + 1..]);
  }

  function Swapped<X>(s: seq<X>, i: nat, k: nat): seq<X>
    requires i < |s| && k < |s|
  {
    s[i := s[k]][k := s[i]]
  }

  lemma {:induction false} SumSwapped(s: seq<int>, i: nat, k: nat)
    requires i < |s| && k < |s|
    ensures Sum(Swapped(s, i, k)) == Sum(s)
  {
    SumUpdate(s, i, s[k]);
    SumUpdate(s[i := s[k]], k, s[i]);
  }

  /** Permutations can be followed element by element: the position of a's last element in b, and b without it. */
  lemma {:induction false} RemoveLast<X>(a: seq<X>, b: seq<X>) returns (k: nat, b': seq<X>)
    requires multiset(a) == multiset(b) && a != []
    ensures k < |b| && b[k] == a[|a| - 1] && b == b[..k] + [b[k]] + b[k + 1..]
    ensures b' == b[..k] + b[k + 1..] && multiset(a[..|a| - 1]) == multiset(b')
  {
    var n := |a| - 1;
    var x := a[n];
    assert x in multiset(a);
    k :| 0 <= k < |b| && b[k] == x;
    b' := b[..k] + b[k + 1..];
    assert a == a[..n] + [x];
    assert b == b[..k] + [x] + b[k + 1..];
    assert multiset(a) == multiset(a[..n]) + multiset{x};
    assert multiset(b) == multiset(b') + multiset{x};
    assert multiset(a[..n]) == multiset(a) - multiset{x};
    assert multiset(b') == multiset(b) - multiset{x};
  }

  lemma {:induction false} PermutationOfEmpty<X>(a: seq<X>, b: seq<X>)
    requires multiset(a) == multiset(b) && a == []
    ensures b == []
  {
    assert |multiset(b)| == |multiset(a)| == 0;
  }

  lemma {:induction false} SumPermutation(a: seq<int>, b: seq<int>)
    requires multiset(a) == multiset(b)
    ensures Sum(a) == Sum(b)
    decreases |a|
  {
    if a == [] {
      PermutationOfEmpty(a, b);
    } else {
      var k, b' := RemoveLast(a, b);
      SumPermutation(a[..|a| - 1], b');
      SumConcat(b[..k], [b[k]]);
      SumConcat(b[..k] + [b[k]], b[k + 1..]);
      SumConcat(b[..k], b[k + 1..]);
    }
  }

  lemma {:induction false} SumBelow(s: seq<int>, t: seq<int>)
    requires |s| == |t| && forall k :: 0 <= k < |s| ==> s[k] <= t[k]
    ensures Sum(s) <= Sum(t)
  {
    if s != [] { SumBelow(s[..|s| - 1], t[..|t| - 1]); }
  }

  lemma {:induction false} SumOfOnes(s: seq<int>)
    requires forall k :: 0 <= k < |s| ==> s[k] == 1
    ensures Sum(s) == |s|
  {
    if s != [] { SumOfOnes(s[..|s| - 1]); }
  }

  /** A sum of positive numbers, one of which is known. */
  lemma {:induction false} SumAtLeast(s: seq<int>, k: nat)
    requires k < |s| && forall i :: 0 <= i < |s| ==> s[i] >= 1
    ensures Sum(s) >= |s| - 1 + s[k]
  {
    var n := |s| - 1;
    if n > 0 { SumAtLeast(s[..n], if k < n then k else 0); }
    assert s[..0] == [];
  }

  // ---------------------------------------------------------------------
  // Sums of real numbers
  // ---------------------------------------------------------------------

  function RealSum(s: seq<real>): real
  {
    if s == [] then 0.0 else RealSum(s[..|s| - 1]) + s[|s| - 1]
  }

  lemma {:induction false} RealSumNext(s: seq<real>, i: nat)
    requires i < |s|
    ensures RealSum(s[..i + 1]) == RealSum(s[..i]) + s[i]
  {
    assert s[..i + 1][..i] == s[..i];
  }

  lemma {:induction false} RealSumConcat(a: seq<real>, b: seq<real>)
    ensures RealSum(a + b) == RealSum(a) + RealSum(b)
    decreases |b|
  {
    if b == [] {
      assert a + b == a;
    } else {
      var k := |b| - 1;
      RealSumConcat(a, b[..k]);
      assert (a + b)[..|a + b| - 1] == a + b[..k];
    }
  }

  lemma {:induction false} RealSumPermutation(a: seq<real>, b: seq<real>)
    requires multiset(a) == multiset(b)
    ensures RealSum(a) == RealSum(b)
    decreases |a|
  {
    if a == [] {
      PermutationOfEmpty(a, b);
    } else {
      var k, b' := RemoveLast(a, b);
      RealSumPermutation(a[..|a| - 1], b');
      RealSumConcat(b[..k], [b[k]]);
      RealSumConcat(b[..k] + [b[k]], b[k + 1..]);
      RealSumConcat(b[..k], b[k + 1..]);
    }
  }

  function Times(n: nat, x: real): real
  {
    if n == 0 then 0.0 else Times(n - 1, x) + x
  }

  lemma {:induction false} TimesIsProduct(n: nat, x: real)
    ensures Times(n, x) == n as real * x
  {
    if n > 0 {
      TimesIsProduct(n - 1, x);
    }
  }

  /** The sum of n numbers between lo and hi; one of them may be known to be above lo. */
  lemma {:induction false} RealSumRange(s: seq<real>, lo: real, hi: real, above: nat)
    requires forall k :: 0 <= k < |s| ==> lo <= s[k] <= hi
    ensures Times(|s|, lo) <= RealSum(s) <= Times(|s|, hi)
    ensures above < |s| && s[above] > lo ==> Times(|s|, lo) < RealSum(s)
  {
    if s != [] {
      RealSumRange(s[..|s| - 1], lo, hi, above);
    }
  }

  lemma {:induction false} RealSumBelow(s: seq<int>, t: seq<real>)
    requires |s| == |t| && forall k :: 0 <= k < |s| ==> s[k] as real <= t[k]
    ensures Sum(s) as real <= RealSum(t)
  {
    if s != [] { RealSumBelow(s[..|s| - 1], t[..|t| - 1]); }
  }

  lemma {:induction false} RealSumUpTo(s: seq<real>, hi: real)
    requires forall k :: 0 <= k < |s| ==> s[k] <= hi
    ensures RealSum(s) <= Times(|s|, hi)
  {
    if s != [] { RealSumUpTo(s[..|s| - 1], hi); }
  }

  /** A positive summand is at most the sum. */
  lemma {:induction false} RealSummand(s: seq<real>, k: nat)
    requires k < |s| && forall i :: 0 <= i < |s| ==> s[i] > 0.0
    ensures 0.0 < s[k] <= RealSum(s)
  {
    var n := |s| - 1;
    if n > 0 { RealSummand(s[..n], if k < n then k else 0); }
    assert s[..0] == [];
  }
}
