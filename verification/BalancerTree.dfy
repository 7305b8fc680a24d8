/** The tree of the balancer (constructor of EventDrivenBalancer in src/balancing/event_driven_balancer.cpp). */
module BalancerTree {
  import opened InOrderTree

  /** The lowest set bit of a positive number. */
  function LowBit(r: nat): (p: nat)
    requires r > 0
    ensures 1 <= p <= r
  {
    if r % 2 == 1 then 1 else 2 * LowBit(r / 2)
  }

  /** The parent is the number without its lowest set bit. */
  function ParentOf(r: nat): (q: nat)
    requires r > 0
    ensures q < r
  {
    r - LowBit(r)
  }

  lemma {:induction false} LowBitIsPower(r: nat)
    requires r > 0
    ensures IsPowerOfTwo(LowBit(r))
  {
    if r % 2 == 0 {
      LowBitIsPower(r / 2);
      assert 2 * LowBit(r / 2) / 2 == LowBit(r / 2);
    }
  }

  /** Remainders modulo an even number, in terms of the halves. */
  lemma {:induction false} ModuloHalves(r: nat, p: nat)
    requires p >= 1
    ensures r % (2 * p) == 2 * (r / 2 % p) + r % 2
  {
    var q, s := r / 2 / p, r / 2 % p;
    assert r / 2 == q * p + s;
    assert r == q * (2 * p) + (2 * s + r % 2);
    Remainder(r, 2 * p, q, 2 * s + r % 2);
  }

  lemma {:induction false} Remainder(x: int, m: nat, q: int, r: int)
    requires 0 <= r < m && x == q * m + r
    ensures x % m == r
  {
    var d := x / m - q;
    assert d * m == r - x % m;
    assert d >= 1 ==> d * m >= m;
    assert d <= -1 ==> d * m + m <= 0;
  }

  /** A power of two leaves itself as remainder modulo its double exactly for its own numbers. */
  lemma {:induction false} LowBitByModulo(r: nat, p: nat)
    requires IsPowerOfTwo(p)
    ensures r % (2 * p) == p <==> r > 0 && LowBit(r) == p
    decreases p
  {
    if p == 1 {
    } else {
      ModuloHalves(r, p);
      LowBitByModulo(r / 2, p / 2);
      assert 2 * (p / 2) == p;
    }
  }

  /** Adding half of the modulus. */
  lemma {:induction false} HalfModulusMore(r: nat, p: nat, q: int, s: int)
    requires p >= 1 && 0 <= s < 2 * p && r == q * (2 * p) + s
    ensures (r + p) % (2 * p) == if s < p then s + p else s - p
  {
    if s < p {
      Remainder(r + p, 2 * p, q, s + p);
    } else {
      assert (q + 1) * (2 * p) == q * (2 * p) + 2 * p;
      Remainder(r + p, 2 * p, q + 1, s - p);
    }
  }

  /** Numbers which are divisible by 2p have a child at distance p. */
  lemma {:induction false} ChildAtDistance(r: nat, p: nat)
    requires IsPowerOfTwo(p)
    ensures r % (2 * p) == 0 <==> LowBit(r + p) == p
  {
    LowBitByModulo(r + p, p);
    HalfModulusMore(r, p, r / (2 * p), r % (2 * p));
  }

  method FindParent(rank: nat) returns (parent: nat)
    ensures parent == if rank == 0 then 0 else ParentOf(rank)
  {
    if rank == 0 {
      return 0;
    }
    var exp := 2;
    ghost var p := 1;
    while !(rank % exp == exp / 2 && rank - exp / 2 >= 0)
      invariant exp == 2 * p && IsPowerOfTwo(p) && p <= LowBit(rank)
      decreases rank - p
    {
      LowBitByModulo(rank, p);
      LowBitIsPower(rank);
      PowersDoubling(p, LowBit(rank));
      assert 2 * p / 2 == p;
      exp, p := exp * 2, 2 * p;
    }
    LowBitByModulo(rank, p);
    parent := rank - exp / 2;
  }

  method FindChildren(size: nat, rank: nat) returns (children: seq<nat>)
    requires rank < size
    ensures forall c :: c in children <==> 0 < c < size && ParentOf(c) == rank
    ensures forall i, k :: 0 <= i < k < |children| ==> children[i] > children[k]
  {
    children := [];
    if size == 1 {
      return;
    }
    var exp := 1;
    while exp < size
      invariant exp >= 1 && IsPowerOfTwo(exp)
    {
      assert 2 * exp / 2 == exp;
      exp := exp * 2;
    }
    while true
      invariant exp >= 2 && IsPowerOfTwo(exp)
      invariant forall c {:trigger c in children} :: c in children <==> IsChild(size, rank, c) && LowBit(c) >= exp
      invariant forall i :: 0 <= i < |children| ==> children[i] >= rank + exp
      invariant forall i, k :: 0 <= i < k < |children| ==> children[i] > children[k]
      decreases exp
    {
      var p := exp / 2;
      ChildAtDistance(rank, p);
      if rank % exp == 0 {
        var child := rank + p;
        if child < size {
          children := children + [child];
        }
      }
      NextChild(size, rank, exp);
      exp := p;
      if exp == 1 {
        break;
      }
    }
  }

  predicate IsChild(size: nat, rank: nat, c: nat)
  {
    0 < c < size && ParentOf(c) == rank
  }

  /** Between two powers of two, only the child at the smaller distance comes in. */
  lemma {:induction false} NextChild(size: nat, rank: nat, exp: nat)
    requires IsPowerOfTwo(exp) && exp >= 2
    ensures forall c {:trigger IsChild(size, rank, c)} :: IsChild(size, rank, c) && LowBit(c) >= exp / 2 ==>
      LowBit(c) >= exp || c == rank + exp / 2
  {
    forall c: nat | IsChild(size, rank, c) && LowBit(c) >= exp / 2 ensures LowBit(c) >= exp || c == rank + exp / 2 {
      LowBitIsPower(c);
      if exp / 2 < LowBit(c) { PowersDoubling(exp / 2, LowBit(c)); }
    }
  }

  /** All ranks are connected to the root 0. */
  lemma {:induction false} ReachesRoot(r: nat) returns (path: seq<nat>)
    ensures path != [] && path[0] == r && path[|path| - 1] == 0
    ensures forall i {:trigger path[i]} :: 0 <= i < |path| - 1 ==> path[i] > 0 && path[i + 1] == ParentOf(path[i])
  {
    if r == 0 {
      path := [0];
    } else {
      var rest := ReachesRoot(ParentOf(r));
      path := [r] + rest;
    }
  }
}
