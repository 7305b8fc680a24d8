/** An aggregation operation with a neutral element (src/data/reduceable.hpp), not necessarily commutative. */
module Monoids {

  datatype Monoid<!T> = Monoid(unit: T, op: (T, T) -> T)

  ghost predicate Lawful<T(!new)>(M: Monoid<T>)
  {
    && (forall x :: M.op(M.unit, x) == x)
    && (forall x :: M.op(x, M.unit) == x)
    && (forall x, y, z {:trigger M.op(M.op(x, y), z)} :: M.op(M.op(x, y), z) == M.op(x, M.op(y, z)))
  }

  /** The aggregate of all elements, in order. */
  function Fold<T>(M: Monoid<T>, s: seq<T>): T
  {
    if s == [] then M.unit else M.op(Fold(M, s[..|s| - 1]), s[|s| - 1])
  }

  lemma {:induction false} FoldConcat<T(!new)>(M: Monoid<T>, a: seq<T>, b: seq<T>)
    requires Lawful(M)
    ensures Fold(M, a + b) == M.op(Fold(M, a), Fold(M, b))
    decreases |b|
  {
    if b == [] {
      assert a + b == a;
    } else {
      var k := |b| - 1;
      FoldConcat(M, a, b[..k]);
      assert (a + b)[..|a + b| - 1] == a + b[..k];
      assert (a + b)[|a + b| - 1] == b[k];
    }
  }

  /** A slice of s, cut at two inner positions. */
  lemma {:induction false} FoldSlices<T(!new)>(M: Monoid<T>, s: seq<T>, i: nat, j: nat, k: nat)
    requires Lawful(M) && i <= j <= k <= |s|
    ensures Fold(M, s[i..k]) == M.op(Fold(M, s[i..j]), Fold(M, s[j..k]))
  {
    assert s[i..k] == s[i..j] + s[j..k];
    FoldConcat(M, s[i..j], s[j..k]);
  }

  /** A slice of s around position j. */
  lemma {:induction false} FoldAround<T(!new)>(M: Monoid<T>, s: seq<T>, i: nat, j: nat, k: nat)
    requires Lawful(M) && i <= j < k <= |s|
    ensures Fold(M, s[i..k]) == M.op(M.op(Fold(M, s[i..j]), s[j]), Fold(M, s[j + 1..k]))
  {
    FoldSlices(M, s, i, j + 1, k);
    FoldLast(M, s, i, j);
  }

  lemma {:induction false} FoldLast<T>(M: Monoid<T>, s: seq<T>, i: nat, j: nat)
    requires i <= j < |s|
    ensures Fold(M, s[i..j + 1]) == M.op(Fold(M, s[i..j]), s[j])
  {
    var t := s[i..j + 1];
    assert t[..|t| - 1] == s[i..j];
  }
}
