/**
 Pseudo-random permutations by Feistel rounds and cycle walking (AdjustablePermutation in
 src/util/permutation.cpp).
 */
module Feistel {
  import opened Pigeonhole

  /** A permutation of [0,n): m with m * m >= n, and one table of size m per round. */
  datatype Tables = Tables(n: int, m: int, rounds: seq<seq<int>>)

  ghost predicate ValidTables(t: Tables)
  {
    && 1 <= t.n <= t.m * t.m && t.m >= 1
    && forall i {:trigger t.rounds[i]} :: 0 <= i < |t.rounds| ==> |t.rounds[i]| == t.m
  }

  /** The first r rounds on the two halves of a number. */
  function Rounds(t: Tables, r: nat, a: int, b: int): (h: (int, int))
    requires t.m >= 1 && r <= |t.rounds| && forall i :: 0 <= i < |t.rounds| ==> |t.rounds[i]| == t.m
    requires 0 <= a < t.m && 0 <= b < t.m
    ensures 0 <= h.0 < t.m && 0 <= h.1 < t.m
  {
    if r == 0 then (a, b)
    else
      var h := Rounds(t, r - 1, a, b);
      (h.1, (h.0 + t.rounds[r - 1][h.1]) % t.m)
  }

  lemma {:induction false} RoundsAreInjective(t: Tables, r: nat, a: int, b: int, a': int, b': int)
    requires ValidTables(t) && r <= |t.rounds|
    requires 0 <= a < t.m && 0 <= b < t.m && 0 <= a' < t.m && 0 <= b' < t.m
    requires Rounds(t, r, a, b) == Rounds(t, r, a', b')
    ensures a == a' && b == b'
  {
    if r > 0 {
      var h, h' := Rounds(t, r - 1, a, b), Rounds(t, r - 1, a', b');
      SameShift(t.m, h.0, h'.0, t.rounds[r - 1][h.1]);
      RoundsAreInjective(t, r - 1, a, b, a', b');
    }
  }

  /** Adding the same number modulo m is injective. */
  lemma {:induction false} SameShift(m: int, x: int, y: int, c: int)
    requires m >= 1 && 0 <= x < m && 0 <= y < m && (x + c) % m == (y + c) % m
    ensures x == y
  {
    var q, q' := (x + c) / m, (y + c) / m;
    assert (q - q') * m == x - y;
    SmallMultiple(q - q', m, x - y);
  }

  /** The only multiple of m which is smaller than m in magnitude is zero. */
  lemma {:induction false} SmallMultiple(d: int, m: int, e: int)
    requires m >= 1 && d * m == e && -m < e < m
    ensures d == 0 && e == 0
  {
    assert d >= 1 ==> d * m >= m;
    assert d <= -1 ==> d * m <= -m;
  }

  lemma {:induction false} Halves(m: int, x: int)
    requires m >= 1 && 0 <= x < m * m
    ensures 0 <= x % m < m && 0 <= x / m < m && x == x % m + m * (x / m)
  {
    var q := x / m;
    assert q >= m ==> m * q >= m * m;
  }

  lemma {:induction false} Composed(m: int, a: int, b: int)
    requires m >= 1 && 0 <= a < m && 0 <= b < m
    ensures 0 <= a + m * b < m * m
    ensures (a + m * b) % m == a && (a + m * b) / m == b
  {
    MultipleBelow(m, b);
    Parts(m, a + m * b);
    UniqueParts(m, a, b, (a + m * b) % m, (a + m * b) / m);
  }

  lemma {:induction false} MultipleBelow(m: int, b: int)
    requires 0 <= b < m
    ensures 0 <= m * b <= m * m - m
  {
    assert m * b <= m * (m - 1);
  }

  lemma {:induction false} Parts(m: int, x: int)
    requires m >= 1
    ensures 0 <= x % m < m && x == x % m + m * (x / m)
  {
  }

  lemma {:induction false} UniqueParts(m: int, a: int, b: int, r: int, q: int)
    requires m >= 1 && 0 <= a < m && 0 <= r < m && a + m * b == r + m * q
    ensures a == r && b == q
  {
    assert (q - b) * m == m * q - m * b;
    SmallMultiple(q - b, m, a - r);
  }

  /** One pass through all rounds. */
  function Pass(t: Tables, x: int): int
    requires ValidTables(t) && 0 <= x < t.m * t.m
  {
    Halves(t.m, x);
    var h := Rounds(t, |t.rounds|, x % t.m, x / t.m);
    h.0 + t.m * h.1
  }

  lemma {:induction false} PassRange(t: Tables, x: int)
    requires ValidTables(t) && 0 <= x < t.m * t.m
    ensures 0 <= Pass(t, x) < t.m * t.m
  {
    Halves(t.m, x);
    var h := Rounds(t, |t.rounds|, x % t.m, x / t.m);
    Composed(t.m, h.0, h.1);
  }

  /** The rounds permute [0, m * m), whatever the tables are. */
  lemma {:induction false} PassIsInjective(t: Tables, x: int, y: int)
    requires ValidTables(t) && 0 <= x < t.m * t.m && 0 <= y < t.m * t.m && Pass(t, x) == Pass(t, y)
    ensures x == y
  {
    Halves(t.m, x);
    Halves(t.m, y);
    var h, h' := Rounds(t, |t.rounds|, x % t.m, x / t.m), Rounds(t, |t.rounds|, y % t.m, y / t.m);
    Composed(t.m, h.0, h.1);
    Composed(t.m, h'.0, h'.1);
    RoundsAreInjective(t, |t.rounds|, x % t.m, x / t.m, y % t.m, y / t.m);
  }

  // ---------------------------------------------------------------------
  // What the tables do
  // ---------------------------------------------------------------------

  /** The rounds undone, from the last one to the first one. */
  function Undone(t: Tables, r: nat, a: int, b: int): (h: (int, int))
    requires t.m >= 1 && r <= |t.rounds| && forall i :: 0 <= i < |t.rounds| ==> |t.rounds[i]| == t.m
    requires 0 <= a < t.m && 0 <= b < t.m
    ensures 0 <= h.0 < t.m && 0 <= h.1 < t.m
  {
    if r == 0 then (a, b) else Undone(t, r - 1, (b - t.rounds[r - 1][a]) % t.m, a)
  }

  /** The rounds can be undone with the same tables. */
  lemma {:induction false} RoundTrip(t: Tables, r: nat, a: int, b: int)
    requires ValidTables(t) && r <= |t.rounds| && 0 <= a < t.m && 0 <= b < t.m
    ensures var h := Rounds(t, r, a, b); Undone(t, r, h.0, h.1) == (a, b)
  {
    if r > 0 {
      var h, g := Rounds(t, r - 1, a, b), Rounds(t, r, a, b);
      var c := t.rounds[r - 1][h.1];
      assert g.0 == h.1 && g.1 == (h.0 + c) % t.m;
      ShiftBack(t.m, h.0, c);
      UndoneNext(t, r, g.0, g.1, c, h.0);
      RoundTrip(t, r - 1, a, b);
    }
  }

  lemma {:induction false} UndoneNext(t: Tables, r: nat, a: int, b: int, c: int, x: int)
    requires ValidTables(t) && 0 < r <= |t.rounds| && 0 <= a < t.m && 0 <= b < t.m
    requires c == t.rounds[r - 1][a] && x == (b - c) % t.m && 0 <= x < t.m
    ensures Undone(t, r, a, b) == Undone(t, r - 1, x, a)
  {
  }

  lemma {:induction false} ShiftBack(m: int, x: int, c: int)
    requires m >= 1 && 0 <= x < m
    ensures ((x + c) % m - c) % m == x
  {
    var y := (x + c) % m;
    Parts(m, x + c);
    Parts(m, y - c);
    var q, p := (x + c) / m, (y - c) / m;
    assert y - c == x + m * -q == (y - c) % m + m * p;
    UniqueParts(m, x, -q, (y - c) % m, p);
  }

  lemma {:induction false} ShiftTo(m: int, x: int, z: int)
    requires m >= 1 && 0 <= z < m
    ensures (x + (z - x) % m) % m == z
  {
    var c := (z - x) % m;
    Parts(m, z - x);
    Parts(m, x + c);
    var q, p := (z - x) / m, (x + c) / m;
    assert x + c == z + m * -q == (x + c) % m + m * p;
    UniqueParts(m, z, -q, (x + c) % m, p);
  }

  lemma {:induction false} ShiftTwice(m: int, x: int, c: int)
    requires m >= 1
    ensures (x + c) % m == (x % m + c) % m
  {
    Parts(m, x);
    Parts(m, x + c);
    Parts(m, x % m + c);
    var q, p, k := x / m, (x + c) / m, (x % m + c) / m;
    assert m * (k + q) == m * k + m * q;
    UniqueParts(m, (x + c) % m, p, (x % m + c) % m, k + q);
  }

  /** The tables with c added to every entry of the last one. */
  function LastRaised(t: Tables, c: int): (t': Tables)
    requires ValidTables(t) && t.rounds != []
    ensures ValidTables(t') && |t'.rounds| == |t.rounds|
  {
    var k := |t.rounds| - 1;
    t.(rounds := t.rounds[k := seq(t.m, i requires 0 <= i < t.m => t.rounds[k][i] + c)])
  }

  lemma {:induction false} SameRounds(t: Tables, c: int, r: nat, a: int, b: int)
    requires ValidTables(t) && r < |t.rounds| && 0 <= a < t.m && 0 <= b < t.m
    ensures Rounds(LastRaised(t, c), r, a, b) == Rounds(t, r, a, b)
  {
    if r > 0 { SameRounds(t, c, r - 1, a, b); }
  }

  /** Adding a number to the last table adds it to the upper half of every result. */
  lemma {:induction false} LastTableShifts(t: Tables, c: int, x: int)
    requires ValidTables(t) && t.rounds != [] && 0 <= x < t.m * t.m
    ensures Pass(LastRaised(t, c), x) % t.m == Pass(t, x) % t.m
    ensures Pass(LastRaised(t, c), x) / t.m == (Pass(t, x) / t.m + c) % t.m
  {
    Halves(t.m, x);
    var a, b, k, t' := x % t.m, x / t.m, |t.rounds| - 1, LastRaised(t, c);
    SameRounds(t, c, k, a, b);
    var h, g, g' := Rounds(t, k, a, b), Rounds(t, k + 1, a, b), Rounds(t', k + 1, a, b);
    ShiftTwice(t.m, h.0 + t.rounds[k][h.1], c);
    Composed(t.m, g.0, g.1);
    Composed(t.m, g'.0, g'.1);
  }

  /** The table which moves every number s further, a permutation of [0, m). */
  function Turned(m: int, s: int): seq<int>
    requires m >= 1
  {
    seq(m, i requires 0 <= i < m => (i + s) % m)
  }

  lemma {:induction false} TurnedIsPermutation(m: int, s: int)
    requires m >= 1
    ensures Distinct(Turned(m, s)) && Within(Turned(m, s), m)
  {
    var v := Turned(m, s);
    forall i, k | 0 <= i < k < m ensures v[i] != v[k] {
      if v[i] == v[k] { SameShift(m, i, k, s); }
    }
  }

  ghost predicate TablesArePermutations(t: Tables)
  {
    forall i {:trigger t.rounds[i]} :: 0 <= i < |t.rounds| ==> Distinct(t.rounds[i]) && Within(t.rounds[i], t.m)
  }

  /** With two more rounds, any pair of halves can be reached. */
  lemma {:induction false} TwoMoreRounds(t: Tables, a: int, b: int, c: int, d: int) returns (t': Tables)
    requires ValidTables(t) && TablesArePermutations(t)
    requires 0 <= a < t.m && 0 <= b < t.m && 0 <= c < t.m && 0 <= d < t.m
    ensures ValidTables(t') && TablesArePermutations(t') && t'.n == t.n && t'.m == t.m
    ensures |t'.rounds| == |t.rounds| + 2 && Rounds(t', |t'.rounds|, a, b) == (c, d)
  {
    var m, k := t.m, |t.rounds|;
    var h := Rounds(t, k, a, b);
    var first, second := Turned(m, c - h.0 - h.1), Turned(m, d - h.1 - c);
    TurnedIsPermutation(m, c - h.0 - h.1);
    TurnedIsPermutation(m, d - h.1 - c);
    t' := t.(rounds := t.rounds + [first, second]);
    PrefixRounds(t, t', k, a, b);
    ShiftTo(m, h.0, c);
    ShiftTo(m, h.1, d);
    assert Rounds(t', k + 1, a, b) == (h.1, c);
  }

  lemma {:induction false} PrefixRounds(t: Tables, t': Tables, r: nat, a: int, b: int)
    requires ValidTables(t) && ValidTables(t') && t.m == t'.m && t.rounds <= t'.rounds && r <= |t.rounds|
    requires 0 <= a < t.m && 0 <= b < t.m
    ensures Rounds(t', r, a, b) == Rounds(t, r, a, b)
  {
    if r > 0 { PrefixRounds(t, t', r - 1, a, b); }
  }

  /** Every number can be sent to every other one: for any number of rounds from two on there are such permutations. */
  lemma {:induction false} EveryImageIsPossible(n: int, m: int, rounds: nat, x: int, y: int) returns (t: Tables)
    requires 1 <= n <= m * m && m >= 1 && rounds >= 2 && 0 <= x < m * m && 0 <= y < m * m
    ensures ValidTables(t) && TablesArePermutations(t) && t.n == n && t.m == m && |t.rounds| == rounds
    ensures Pass(t, x) == y
  {
    Halves(m, x);
    Halves(m, y);
    TurnedIsPermutation(m, 0);
    var t0 := Tables(n, m, seq(rounds - 2, i requires 0 <= i < rounds - 2 => Turned(m, 0)));
    t := TwoMoreRounds(t0, x % m, x / m, y % m, y / m);
  }

  // ---------------------------------------------------------------------
  // Cycle walking
  // ---------------------------------------------------------------------

  /** p[i] is the result of the pass before. */
  ghost predicate Follows(t: Tables, p: seq<int>, i: nat)
    requires ValidTables(t) && 0 < i < |p|
  {
    0 <= p[i - 1] < t.m * t.m && p[i] == Pass(t, p[i - 1])
  }

  /** Repeated passes from a number in [0,n), with no result in [0,n) so far. */
  ghost predicate Walked(t: Tables, p: seq<int>)
    requires ValidTables(t)
  {
    && p != [] && 0 <= p[0] < t.n && Within(p, t.m * t.m)
    && (forall i {:trigger Follows(t, p, i)} :: 0 < i < |p| ==> Follows(t, p, i) && p[i] >= t.n)
  }

  lemma {:induction false} WalkedDiffers(t: Tables, p: seq<int>, i: nat, k: nat)
    requires ValidTables(t) && Walked(t, p) && i < k < |p|
    ensures p[i] != p[k]
  {
    assert Follows(t, p, k);
    if i > 0 && p[i] == p[k] {
      assert Follows(t, p, i);
      PassIsInjective(t, p[i - 1], p[k - 1]);
      WalkedDiffers(t, p, i - 1, k - 1);
    }
  }

  /** A walk does not go on forever. */
  lemma {:induction false} WalkIsShort(t: Tables, p: seq<int>)
    requires ValidTables(t) && Walked(t, p)
    ensures |p| <= t.m * t.m
  {
    forall i, k | 0 <= i < k < |p| ensures p[i] != p[k] {
      WalkedDiffers(t, p, i, k);
    }
    AtMost(p, t.m * t.m);
  }

  lemma {:induction false} WalkOn(t: Tables, p: seq<int>)
    requires ValidTables(t) && Walked(t, p) && Pass(t, p[|p| - 1]) >= t.n
    ensures Walked(t, p + [Pass(t, p[|p| - 1])])
  {
    var x := p[|p| - 1];
    PassRange(t, x);
    var q := p + [Pass(t, x)];
    forall i | 0 < i < |q| ensures Follows(t, q, i) && q[i] >= t.n {
      assert i < |p| ==> Follows(t, p, i);
    }
  }

  /** y is the first result in [0,n) of repeated passes from x. */
  ghost predicate Reaches(t: Tables, p: seq<int>, x: int, y: int)
    requires ValidTables(t)
  {
    Walked(t, p) && p[0] == x && y == Pass(t, p[|p| - 1]) && 0 <= y < t.n
  }

  ghost predicate IsImage(t: Tables, x: int, y: int)
    requires ValidTables(t)
  {
    exists p :: Reaches(t, p, x, y)
  }

  lemma {:induction false} WalkEnds(t: Tables, p: seq<int>) returns (q: seq<int>, y: int)
    requires ValidTables(t) && Walked(t, p)
    ensures Reaches(t, q, p[0], y)
    decreases t.m * t.m - |p|
  {
    y := Pass(t, p[|p| - 1]);
    PassRange(t, p[|p| - 1]);
    if y < t.n {
      q := p;
    } else {
      WalkOn(t, p);
      WalkIsShort(t, p + [y]);
      q, y := WalkEnds(t, p + [y]);
    }
  }

  /** The value of the permutation at x. */
  ghost function Image(t: Tables, x: int): (y: int)
    requires ValidTables(t) && 0 <= x < t.n
    ensures 0 <= y < t.n && IsImage(t, x, y)
  {
    HasImage(t, x);
    var y :| IsImage(t, x, y);
    y
  }

  lemma {:induction false} InRange(t: Tables, x: int)
    requires ValidTables(t) && 0 <= x < t.n
    ensures Walked(t, [x])
  {
  }

  lemma {:induction false} HasImage(t: Tables, x: int)
    requires ValidTables(t) && 0 <= x < t.n
    ensures exists y :: IsImage(t, x, y)
  {
    InRange(t, x);
    var q, y := WalkEnds(t, [x]);
    assert IsImage(t, x, y);
  }

  lemma {:induction false} LaterIsOutside(t: Tables, p: seq<int>, i: nat)
    requires ValidTables(t) && Walked(t, p) && 0 < i < |p|
    ensures p[i] >= t.n && p[i] == Pass(t, p[i - 1])
  {
    assert Follows(t, p, i);
  }

  /** Walks from the same number agree. */
  lemma {:induction false} WalksAgree(t: Tables, p: seq<int>, q: seq<int>, i: nat)
    requires ValidTables(t) && Walked(t, p) && Walked(t, q) && p[0] == q[0] && i < |p| && i < |q|
    ensures p[i] == q[i]
  {
    if i > 0 {
      WalksAgree(t, p, q, i - 1);
      assert Follows(t, p, i) && Follows(t, q, i);
    }
  }

  lemma {:induction false} ImageIsUnique(t: Tables, p: seq<int>, q: seq<int>, x: int, y: int, z: int)
    requires ValidTables(t) && Reaches(t, p, x, y) && Reaches(t, q, x, z)
    ensures y == z
  {
    var k := if |p| < |q| then |p| - 1 else |q| - 1;
    WalksAgree(t, p, q, k);
    if |p| < |q| {
      LaterIsOutside(t, q, |p|);
    } else if |q| < |p| {
      LaterIsOutside(t, p, |q|);
    }
  }

  /** Walks to the same number agree, seen from the end. */
  lemma {:induction false} WalksMeet(t: Tables, p: seq<int>, q: seq<int>, i: nat)
    requires ValidTables(t) && Walked(t, p) && Walked(t, q) && Pass(t, p[|p| - 1]) == Pass(t, q[|q| - 1])
    requires i < |p| && i < |q|
    ensures p[|p| - 1 - i] == q[|q| - 1 - i]
  {
    if i == 0 {
      PassIsInjective(t, p[|p| - 1], q[|q| - 1]);
    } else {
      WalksMeet(t, p, q, i - 1);
      assert Follows(t, p, |p| - i) && Follows(t, q, |q| - i);
      PassIsInjective(t, p[|p| - 1 - i], q[|q| - 1 - i]);
    }
  }

  lemma {:induction false} ImageIsInjective(t: Tables, x: int, x': int)
    requires ValidTables(t) && 0 <= x < t.n && 0 <= x' < t.n && Image(t, x) == Image(t, x')
    ensures x == x'
  {
    var y := Image(t, x);
    var p :| Reaches(t, p, x, y);
    var q :| Reaches(t, q, x', y);
    var k := if |p| < |q| then |p| - 1 else |q| - 1;
    if |p| < |q| {
      LaterIsOutside(t, q, |q| - |p|);
    } else if |q| < |p| {
      LaterIsOutside(t, p, |p| - |q|);
    }
    WalksMeet(t, p, q, k);
  }

  ghost function Images(t: Tables): (s: seq<int>)
    requires ValidTables(t)
    ensures |s| == t.n && forall x {:trigger s[x]} :: 0 <= x < t.n ==> s[x] == Image(t, x)
  {
    seq(t.n, x requires 0 <= x < t.n => Image(t, x))
  }

  /** The values are a permutation of [0,n), for every n and every choice of tables. */
  lemma {:induction false} ImagesArePermutation(t: Tables)
    requires ValidTables(t)
    ensures Distinct(Images(t)) && Within(Images(t), t.n) && |Images(t)| == t.n
  {
    var s := Images(t);
    forall i, k | 0 <= i < k < |s| ensures s[i] != s[k] {
      if s[i] == s[k] { ImageIsInjective(t, i, k); }
    }
  }

  lemma {:induction false} ImageIsOnto(t: Tables, y: int) returns (x: int)
    requires ValidTables(t) && 0 <= y < t.n
    ensures 0 <= x < t.n && Image(t, x) == y
  {
    ImagesArePermutation(t);
    x := AllOccur(Images(t), t.n, y);
  }

  // ---------------------------------------------------------------------
  // The object
  // ---------------------------------------------------------------------

  /** Numbers outside of [0,n) are taken modulo n. */
  function Normal(n: int, y: int): (x: int)
    requires n >= 1
    ensures 0 <= x < n
  {
    if 0 <= y < n then y else y % n
  }

  class AdjustablePermutation {
    const t: Tables
    var adjusted: map<int, int>

    constructor (t: Tables)
      ensures this.t == t && adjusted == map[]
    {
      this.t := t;
      adjusted := map[];
    }

    /** The value at x. */
    ghost function Value(x: int): int
      requires ValidTables(t) && 0 <= x < t.n
      reads this
    {
      if x in adjusted then adjusted[x] else Image(t, x)
    }

    ghost function Values(): (s: seq<int>)
      requires ValidTables(t)
      reads this
      ensures |s| == t.n && forall x {:trigger s[x]} :: 0 <= x < t.n ==> s[x] == Value(x)
    {
      seq(t.n, x requires 0 <= x < t.n reads this => Value(x))
    }

    static method Normalize(n: int, y: int) returns (x: int)
      requires n >= 1
      ensures x == Normal(n, y)
    {
      x := y;
      if x < 0 || x >= n {
        while x < 0
          invariant x % n == y % n
          decreases -x
        {
          ShiftModulo(n, x);
          x := x + 100 * n;
        }
        x := x % n;
      }
    }

    static method RunRounds(t: Tables, x: int) returns (y: int)
      requires ValidTables(t) && 0 <= x < t.m * t.m
      ensures y == Pass(t, x)
    {
      Halves(t.m, x);
      var b, a := x / t.m, x % t.m;
      var i := 0;
      while i < |t.rounds|
        invariant 0 <= i <= |t.rounds| && (a, b) == Rounds(t, i, x % t.m, x / t.m)
      {
        var outA, outB := b, (a + t.rounds[i][b]) % t.m;
        a, b := outA, outB;
        i := i + 1;
      }
      y := a + t.m * b;
    }

    method Get(y: int) returns (v: int)
      requires ValidTables(t)
      ensures v == Value(Normal(t.n, y))
    {
      var x := Normalize(t.n, y);
      if x in adjusted {
        return adjusted[x];
      }
      var input := x;
      ghost var p := [x];
      InRange(t, x);
      while true
        invariant Walked(t, p) && p[0] == input && x == p[|p| - 1]
        decreases t.m * t.m - |p|
      {
        WalkIsShort(t, p);
        x := RunRounds(t, x);
        PassRange(t, p[|p| - 1]);
        if x < t.n {
          break;
        }
        WalkOn(t, p);
        p := p + [x];
        WalkIsShort(t, p);
      }
      v := x;
      ghost var q :| Reaches(t, q, input, Image(t, input));
      ImageIsUnique(t, p, q, input, x, Image(t, input));
    }

    method Adjust(y: int, v: int)
      requires ValidTables(t)
      modifies this`adjusted
      ensures forall z {:trigger Value(z)} :: 0 <= z < t.n ==>
        Value(z) == if z == Normal(t.n, y) then v else old(Value(z))
    {
      var x := Normalize(t.n, y);
      var old_v := Get(x);
      if old_v != v {
        adjusted := adjusted[x := v];
      }
    }
  }

  lemma {:induction false} ShiftModulo(n: int, x: int)
    requires n >= 1
    ensures (x + 100 * n) % n == x % n
  {
    Parts(n, x);
    Parts(n, x + 100 * n);
    assert n * (x / n + 100) == n * (x / n) + 100 * n;
    UniqueParts(n, x % n, x / n + 100, (x + 100 * n) % n, (x + 100 * n) / n);
  }
}
