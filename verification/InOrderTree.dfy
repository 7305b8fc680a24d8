/**
 The communication tree of asynchronous collectives (setUpCommunicationTree in
 src/comm/async_collective.hpp): an in-order binary tree over the ranks 0..size-1.
 */
module InOrderTree {

  /** The largest power of two which divides r + 1: the offset between r and its parent. */
  function Power(r: nat): (p: nat)
    ensures 1 <= p <= r + 1
  {
    if r % 2 == 0 then 1 else 2 * Power(r / 2)
  }

  predicate IsPowerOfTwo(p: nat)
  {
    p == 1 || (p > 1 && p % 2 == 0 && IsPowerOfTwo(p / 2))
  }

  /** Whether r is a right child in the infinite tree, i.e. (r + 1) / Power(r) is 3 modulo 4. */
  predicate IsRight(r: nat)
  {
    if r % 2 == 0 then r % 4 == 2 else IsRight(r / 2)
  }

  function Parent(size: nat, r: nat): (q: int)
    ensures -1 <= q
  {
    if IsRight(r) || r + Power(r) >= size then r - Power(r) else r + Power(r)
  }

  function LeftChild(r: nat): int
  {
    if Power(r) > 1 then r - Power(r) / 2 else -1
  }

  /** The first of the offsets d, d/2, d/4, ... which leads to a valid rank. */
  function FirstValid(size: nat, r: nat, d: nat): int
    requires d >= 1 && r + 1 < size
    decreases d
  {
    if r + d < size then r + d else FirstValid(size, r, d / 2)
  }

  function RightChild(size: nat, r: nat): int
  {
    if Power(r) > 1 && r + 1 < size then FirstValid(size, r, Power(r) / 2) else -1
  }

  /** The first and the last rank of r's subtree. */
  function Lo(r: nat): nat
  {
    r + 1 - Power(r)
  }

  function Hi(size: nat, r: nat): int
  {
    if r + Power(r) - 1 < size then r + Power(r) - 1 else size - 1
  }

  // ---------------------------------------------------------------------
  // Powers
  // ---------------------------------------------------------------------

  lemma {:induction false} PowerIsPower(r: nat)
    ensures IsPowerOfTwo(Power(r))
  {
    if r % 2 == 1 {
      PowerIsPower(r / 2);
      assert 2 * Power(r / 2) / 2 == Power(r / 2);
    }
  }

  /** Below r, the node at distance d < Power(r) has exactly the power d. */
  lemma {:induction false} PowerBelow(r: nat, d: nat)
    requires IsPowerOfTwo(d) && d < Power(r)
    ensures Power(r + d) == d && Power(r - d) == d
    ensures IsRight(r + d) <==> 2 * d == Power(r)
    ensures IsRight(r - d) <==> 2 * d != Power(r)
    decreases d
  {
    assert r % 2 == 1;
    if d == 1 {
      assert Power(r) == 2 * Power(r / 2);
      assert r / 2 % 2 == 1 ==> Power(r / 2) == 2 * Power(r / 2 / 2);
      assert (r + 1) % 4 == 2 <==> r / 2 % 2 == 0;
    } else {
      PowerBelow(r / 2, d / 2);
      assert (r + d) / 2 == r / 2 + d / 2 && (r - d) / 2 == r / 2 - d / 2;
      assert (r + d) % 2 == 1 && (r - d) % 2 == 1;
    }
  }

  /** The power of the node at distance Power(r) above r. */
  lemma {:induction false} PowerAbove(r: nat)
    ensures IsRight(r) ==> r >= Power(r) && Power(r - Power(r)) == 2 * Power(r)
    ensures !IsRight(r) ==> Power(r + Power(r)) == 2 * Power(r)
    ensures !IsRight(r) && r >= Power(r) ==> Power(r - Power(r)) >= 4 * Power(r)
  {
    if r % 2 == 0 {
      EvenPowerAbove(r);
    } else {
      PowerAbove(r / 2);
      var p := Power(r / 2);
      assert Power(r) == 2 * p;
      if r >= 2 * p {
        assert (r - 2 * p) / 2 == r / 2 - p && (r - 2 * p) % 2 == 1;
      }
      assert (r + 2 * p) / 2 == r / 2 + p && (r + 2 * p) % 2 == 1;
    }
  }

  lemma {:induction false} EvenPowerAbove(r: nat)
    requires r % 2 == 0
    ensures r % 4 == 2 ==> Power(r - 1) == 2
    ensures r % 4 == 0 ==> Power(r + 1) == 2
    ensures r % 4 == 0 && r > 0 ==> Power(r - 1) >= 4
  {
    var k := r / 4;
    if r % 4 == 2 {
      assert r - 1 == 4 * k + 1 && (r - 1) / 2 == 2 * k;
      assert Power(2 * k) == 1;
    } else {
      assert r + 1 == 4 * k + 1 && (r + 1) / 2 == 2 * k;
      assert Power(2 * k) == 1;
      if r > 0 {
        assert r - 1 == 2 * (2 * k - 1) + 1 && (r - 1) / 2 == 2 * k - 1;
        assert 2 * k - 1 == 2 * (k - 1) + 1 && (2 * k - 1) / 2 == k - 1;
        assert Power(2 * k - 1) == 2 * Power(k - 1);
      }
    }
  }

  lemma {:induction false} FirstValidFacts(size: nat, r: nat, d: nat)
    requires IsPowerOfTwo(d) && r + 1 < size
    ensures var c := FirstValid(size, r, d);
            r < c < size && c - r <= d && IsPowerOfTwo(c - r) && (c - r < d ==> r + 2 * (c - r) >= size)
    decreases d
  {
    if r + d >= size {
      FirstValidFacts(size, r, d / 2);
    }
  }

  /** FirstValid finds p if p is valid and its double is not. */
  lemma {:induction false} FirstValidFinds(size: nat, r: nat, d: nat, p: nat)
    requires IsPowerOfTwo(d) && IsPowerOfTwo(p) && p <= d && r + p < size && (p < d ==> r + 2 * p >= size)
    ensures FirstValid(size, r, d) == r + p
    decreases d
  {
    if p < d {
      PowersDoubling(p, d);
      FirstValidFinds(size, r, d / 2, p);
    }
  }

  lemma {:induction false} PowersDoubling(p: nat, d: nat)
    requires IsPowerOfTwo(p) && IsPowerOfTwo(d) && p < d
    ensures p <= d / 2 && 2 * p <= d
  {
    if p > 1 {
      PowersDoubling(p / 2, d / 2);
    }
  }

  // ---------------------------------------------------------------------
  // The tree
  // ---------------------------------------------------------------------

  /**
   The left child's subtree is exactly the block of ranks in r's subtree which ends at r - 1; there
   is a left child exactly if this block is not empty.
   */
  lemma {:induction false} LeftSubtree(size: nat, r: nat)
    requires r < size
    ensures LeftChild(r) >= 0 <==> Lo(r) < r
    ensures LeftChild(r) >= 0 ==>
      var c := LeftChild(r); c < r && Parent(size, c) == r && Lo(c) == Lo(r) && Hi(size, c) == r - 1
  {
    if Power(r) > 1 {
      PowerIsPower(r);
      PowerBelow(r, Power(r) / 2);
    }
  }

  /**
   The right child's subtree is exactly the block of ranks in r's subtree which starts at r + 1; there
   is a right child exactly if this block is not empty.
   */
  lemma {:induction false} RightSubtree(size: nat, r: nat)
    requires r < size
    ensures RightChild(size, r) >= 0 <==> r < Hi(size, r)
    ensures RightChild(size, r) >= 0 ==>
      var c := RightChild(size, r);
      r < c < size && Parent(size, c) == r && Lo(c) == r + 1 && Hi(size, c) == Hi(size, r)
  {
    if Power(r) > 1 && r + 1 < size {
      PowerIsPower(r);
      var d := Power(r) / 2;
      FirstValidFacts(size, r, d);
      PowerBelow(r, FirstValid(size, r, d) - r);
    }
  }

  /** Every rank is the left or right child of its parent. */
  lemma {:induction false} ParentHasChild(size: nat, r: nat)
    requires r < size && Parent(size, r) >= 0
    ensures var q := Parent(size, r);
      q < size && (if r < q then LeftChild(q) == r else RightChild(size, q) == r)
      && Power(q) > Power(r)
  {
    var p := Power(r);
    var q := Parent(size, r);
    PowerAbove(r);
    if q < r {
      PowerIsPower(r);
      PowerIsPower(q);
      assert IsPowerOfTwo(Power(q) / 2);
      FirstValidFinds(size, q, Power(q) / 2, p);
    }
  }

  /** A rank without a parent has all ranks in its subtree, and there is only one. */
  lemma {:induction false} RootSpansAll(size: nat, r: nat)
    requires r < size && Parent(size, r) < 0
    ensures Lo(r) == 0 && Hi(size, r) == size - 1
    ensures forall s :: 0 <= s < size && Parent(size, s) < 0 ==> s == r
  {
    PowerAbove(r);
    forall s | 0 <= s < size && Parent(size, s) < 0 ensures s == r {
      PowerAbove(s);
      PowerIsPower(r);
      PowerIsPower(s);
      if s < r { PowersDoubling(Power(s), Power(r)); }
      if r < s { PowersDoubling(Power(r), Power(s)); }
    }
  }

  /** x lies in the subtree of r: r is reached from x by following parents. */
  predicate Below(size: nat, r: nat, x: nat)
    requires r < size && x < size
    decreases size - Power(x)
  {
    x == r || (Parent(size, x) >= 0
               && (ParentHasChild(size, x); Below(size, r, Parent(size, x))))
  }

  lemma {:induction false} BelowTransitive(size: nat, r: nat, c: nat, x: nat)
    requires r < size && c < size && x < size && Below(size, c, x) && Parent(size, c) == r
    ensures Below(size, r, x)
    decreases size - Power(x)
  {
    ParentHasChild(size, c);
    if x == c {
      assert Below(size, r, r);
    } else {
      ParentHasChild(size, x);
      BelowTransitive(size, r, c, Parent(size, x));
    }
  }

  lemma {:induction false} BlockIsBelow(size: nat, r: nat, x: nat)
    requires r < size && Lo(r) <= x <= Hi(size, r)
    ensures Below(size, r, x)
    decreases Power(r)
  {
    LeftSubtree(size, r);
    RightSubtree(size, r);
    if x < r {
      ParentHasChild(size, LeftChild(r));
      BlockIsBelow(size, LeftChild(r), x);
      BelowTransitive(size, r, LeftChild(r), x);
    } else if x > r {
      ParentHasChild(size, RightChild(size, r));
      BlockIsBelow(size, RightChild(size, r), x);
      BelowTransitive(size, r, RightChild(size, r), x);
    }
  }

  /** The block of a node in r's block is part of it. */
  lemma {:induction false} BlocksNest(size: nat, r: nat, x: nat)
    requires r < size && Lo(r) <= x <= Hi(size, r)
    ensures Lo(r) <= Lo(x) && Hi(size, x) <= Hi(size, r)
    decreases Power(r)
  {
    LeftSubtree(size, r);
    RightSubtree(size, r);
    if x < r {
      ParentHasChild(size, LeftChild(r));
      BlocksNest(size, LeftChild(r), x);
    } else if x > r {
      ParentHasChild(size, RightChild(size, r));
      BlocksNest(size, RightChild(size, r), x);
    }
  }

  lemma {:induction false} BelowIsInBlock(size: nat, r: nat, x: nat)
    requires r < size && x < size && Below(size, r, x)
    ensures Lo(r) <= x <= Hi(size, r)
    decreases size - Power(x)
  {
    if x != r {
      ParentHasChild(size, x);
      var q := Parent(size, x);
      BelowIsInBlock(size, r, q);
      BlocksNest(size, r, q);
    }
  }

  /** The subtree of r, defined by following parents, is exactly the block [Lo(r)..Hi(r)]. */
  lemma {:induction false} SubtreeIsBlock(size: nat, r: nat, x: nat)
    requires r < size && x < size
    ensures Below(size, r, x) <==> Lo(r) <= x <= Hi(size, r)
  {
    if Lo(r) <= x <= Hi(size, r) {
      BlockIsBelow(size, r, x);
    }
    if Below(size, r, x) {
      BelowIsInBlock(size, r, x);
    }
  }

  /** There is a root for every size. */
  lemma {:induction false} RootExists(size: nat, r: nat) returns (root: nat)
    requires r < size
    ensures root < size && Parent(size, root) < 0
    decreases size - Power(r)
  {
    if Parent(size, r) < 0 {
      root := r;
    } else {
      ParentHasChild(size, r);
      root := RootExists(size, Parent(size, r));
    }
  }

  /** One tree: a unique root, from which every rank is reached. */
  lemma {:induction false} OneTree(size: nat) returns (root: nat)
    requires size > 0
    ensures root < size && Parent(size, root) < 0
    ensures forall r :: 0 <= r < size ==> Below(size, root, r)
    ensures forall r :: 0 <= r < size && Parent(size, r) < 0 ==> r == root
  {
    root := RootExists(size, 0);
    RootSpansAll(size, root);
    forall r | 0 <= r < size ensures Below(size, root, r) {
      BlockIsBelow(size, root, r);
    }
  }

  // ---------------------------------------------------------------------
  // The computation
  // ---------------------------------------------------------------------

  lemma {:induction false} ScaledModulo(p: nat, x: nat, m: nat)
    requires p > 0 && m > 0
    ensures (p * x) % (p * m) == p * (x % m)
  {
    var k := x / m;
    var t := x % m;
    assert x == m * k + t;
    calc {
      p * x;
      p * (m * k + t);
      (p * m) * k + p * t;
    }
    assert 0 <= p * t < p * m;
    ModuloUnique(p * x, p * m, k, p * t);
  }

  lemma {:induction false} ModuloUnique(x: nat, m: nat, k: nat, t: nat)
    requires m > 0 && t < m && x == m * k + t
    ensures x % m == t
  {
    var q, u := x / m, x % m;
    assert x == m * q + u;
    Stretch(m, q, k);
    Stretch(m, k, q);
  }

  lemma {:induction false} Stretch(m: nat, a: nat, b: nat)
    ensures a < b ==> m * a + m <= m * b
  {
    if a < b {
      var d := b - a - 1;
      assert m * (a + 1 + d) == m * a + m + m * d;
    }
  }

  /** The offset doubles with each level above the leaves. */
  method ComputePower(rank: nat) returns (power: nat, ghost h: nat)
    ensures power == Power(rank) >= 1
    ensures rank + 1 == power * (h + 1) && h % 2 == 0 && IsRight(rank) == IsRight(h)
  {
    power := 1;
    h := rank;
    while (rank + 1) % (2 * power) == 0
      invariant power >= 1 && rank + 1 == power * (h + 1)
      invariant Power(rank) == power * Power(h)
      invariant IsRight(rank) == IsRight(h)
      decreases h
    {
      ParityTest(rank, power, h);
      Doubling(power, h);
      power := power * 2;
      h := h / 2;
    }
    ParityTest(rank, power, h);
  }

  lemma {:induction false} ParityTest(rank: nat, power: nat, h: nat)
    requires power >= 1 && rank + 1 == power * (h + 1)
    ensures (rank + 1) % (2 * power) == 0 <==> h % 2 == 1
  {
    ScaledModulo(power, h + 1, 2);
    assert power * 2 == 2 * power;
    assert power * ((h + 1) % 2) == if h % 2 == 1 then 0 else power;
  }

  lemma {:induction false} Doubling(power: nat, h: nat)
    requires h % 2 == 1
    ensures power * (h + 1) == (power * 2) * (h / 2 + 1)
    ensures power * Power(h) == (power * 2) * Power(h / 2)
  {
    assert h + 1 == 2 * (h / 2 + 1);
    MoveFactor(power, h / 2 + 1);
    MoveFactor(power, Power(h / 2));
  }

  lemma {:induction false} MoveFactor(p: nat, a: nat)
    ensures p * (2 * a) == (p * 2) * a
  {
  }

  /** setUpCommunicationTree for a process of the communicator */
  method SetUpCommunicationTree(rank: nat, size: nat) returns (parent: int, left: int, right: int)
    requires rank < size
    ensures parent == Parent(size, rank)
    ensures left == LeftChild(rank)
    ensures right == RightChild(size, rank)
  {
    parent, left, right := -1, -1, -1;
    var power, h := ComputePower(rank);
    RightTest(rank, power, h);
    if rank % (4 * power) >= 2 * power || rank + power >= size {
      parent := rank - power;
    } else {
      parent := rank + power;
    }
    if power > 1 {
      PowerIsPower(rank);
      power := power / 2;
      left := rank - power;
      if rank + 1 < size {
        right := FindRightChild(rank, size, power);
      }
    }
  }

  method FindRightChild(rank: nat, size: nat, offset: nat) returns (right: int)
    requires IsPowerOfTwo(offset) && rank + 1 < size
    ensures right == FirstValid(size, rank, offset)
  {
    var power := offset;
    right := rank + power;
    while right >= size
      invariant IsPowerOfTwo(power) && right == rank + power
      invariant FirstValid(size, rank, power) == FirstValid(size, rank, offset)
      decreases power
    {
      power := power / 2;
      right := right - power;
    }
  }

  /** An even number and the one after it, modulo four. */
  lemma {:induction false} EvenParts(h: nat, p: nat, q: nat, s: nat)
    requires h == 2 * p && h == 4 * q + s && s < 4
    ensures s == 0 || s == 2
  {
    var d := p - 2 * q;
    assert 2 * d == s;
    assert 0 <= d < 2;
  }

  lemma {:induction false} NextModuloFour(h: nat)
    requires h % 2 == 0
    ensures (h + 1) % 4 == if IsRight(h) then 3 else 1
  {
    EvenParts(h, h / 2, h / 4, h % 4);
    ModuloUnique(h + 1, 4, h / 4, h % 4 + 1);
  }

  lemma {:induction false} RightTest(rank: nat, power: nat, h: nat)
    requires power >= 1 && rank + 1 == power * (h + 1) && h % 2 == 0
    ensures rank % (4 * power) >= 2 * power <==> IsRight(h)
  {
    NextModuloFour(h);
    var t, m := (h + 1) % 4, 4 * power;
    ScaledModulo(power, h + 1, 4);
    QuarterTest(rank, m, power, (rank + 1) / m, t);
  }

  lemma {:induction false} QuarterTest(rank: nat, m: nat, power: nat, k: nat, t: nat)
    requires m == 4 * power > 0 && (t == 1 || t == 3) && rank + 1 == m * k + power * t
    ensures rank % m >= 2 * power <==> t == 3
  {
    assert power * t == if t == 1 then power else 3 * power;
    ModuloUnique(rank, m, k, power * t - 1);
  }
}
