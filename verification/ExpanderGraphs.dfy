/**
 The communication graph: disjoint permutations without fixed points, the first of which is a single cycle
 (getPermutations in src/util/permutation.cpp).
 */
module ExpanderGraphs {
  import opened Options
  import opened Pigeonhole
  import opened Feistel

  ghost predicate IsPermutation(s: seq<int>, n: int)
  {
    n >= 0 && |s| == n && Distinct(s) && Within(s, n)
  }

  /** The value at a position is neither the position itself nor the value of an earlier permutation. */
  ghost predicate ValidAt(rows: seq<seq<int>>, n: int, pos: int, val: int)
    requires forall r {:trigger rows[r]} :: 0 <= r < |rows| ==> |rows[r]| == n
    requires 0 <= pos < n
  {
    pos != val && forall r {:trigger rows[r]} :: 0 <= r < |rows| ==> rows[r][pos] != val
  }

  /** All rows are permutations without fixed points, and any two of them differ at every position. */
  ghost predicate DisjointRows(rows: seq<seq<int>>, n: int)
  {
    && (forall r {:trigger rows[r]} :: 0 <= r < |rows| ==> IsPermutation(rows[r], n))
    && (forall r {:trigger rows[r]} :: 0 <= r < |rows| ==>
          forall pos :: 0 <= pos < n ==> ValidAt(rows[..r], n, pos, rows[r][pos]))
  }

  // ---------------------------------------------------------------------
  // The first row
  // ---------------------------------------------------------------------

  function Next(n: int, pos: int): int
    requires 0 <= pos < n
  {
    if pos + 1 == n then 0 else pos + 1
  }

  lemma {:induction false} NextIsModulo(n: int, pos: int)
    requires 0 <= pos < n
    ensures (pos + 1) % n == Next(n, pos)
  {
    if pos + 1 < n {
      UniqueParts(n, pos + 1, 0, (pos + 1) % n, (pos + 1) / n);
    }
  }

  /** row leads from every value of the permutation v to the one at the next position. */
  ghost predicate IsCycle(v: seq<int>, row: seq<int>)
  {
    |row| == |v| && Within(v, |v|) && forall pos {:trigger Leads(v, row, pos)} :: 0 <= pos < |v| ==> Leads(v, row, pos)
  }

  predicate Leads(v: seq<int>, row: seq<int>, pos: int)
    requires 0 <= pos < |v|
  {
    0 <= v[pos] < |row| && row[v[pos]] == v[Next(|v|, pos)]
  }

  lemma {:induction false} CycleIsPermutation(v: seq<int>, row: seq<int>)
    requires IsPermutation(v, |v|) && IsCycle(v, row) && |v| >= 2
    ensures IsPermutation(row, |v|)
    ensures forall x {:trigger row[x]} :: 0 <= x < |v| ==> row[x] != x
  {
    var n := |v|;
    forall x | 0 <= x < n ensures 0 <= row[x] < n && row[x] != x {
      var pos := AllOccur(v, n, x);
      assert Leads(v, row, pos) && v[Next(n, pos)] != v[pos];
    }
    forall x, y | 0 <= x < y < n ensures row[x] != row[y] {
      var i := AllOccur(v, n, x);
      var k := AllOccur(v, n, y);
      assert Leads(v, row, i) && Leads(v, row, k);
    }
  }

  /** The node reached from x after k hops along one row. */
  function Hops(row: seq<int>, x: int, k: nat): (y: int)
    requires Within(row, |row|) && 0 <= x < |row|
    ensures 0 <= y < |row|
  {
    if k == 0 then x else row[Hops(row, x, k - 1)]
  }

  /** Along the cycle, positions are passed one by one. */
  lemma {:induction false} HopsAlongCycle(v: seq<int>, row: seq<int>, pos: int, k: nat)
    requires IsPermutation(v, |v|) && IsCycle(v, row) && Within(row, |row|) && 0 <= pos < |v|
    ensures k < |v| - pos ==> Hops(row, v[pos], k) == v[pos + k]
    ensures |v| - pos <= k < |v| ==> Hops(row, v[pos], k) == v[pos + k - |v|]
  {
    if k > 0 {
      HopsAlongCycle(v, row, pos, k - 1);
      var q := if k - 1 < |v| - pos then pos + k - 1 else pos + k - 1 - |v|;
      if q < |v| { assert Leads(v, row, q); }
    }
  }

  /** The row is a single cycle: every node is reached from every other one in less than n hops. */
  ghost predicate SingleCycle(row: seq<int>)
  {
    Within(row, |row|) && forall x, y :: 0 <= x < |row| && 0 <= y < |row| ==> Reached(row, x, y)
  }

  ghost predicate Reached(row: seq<int>, x: int, y: int)
    requires Within(row, |row|) && 0 <= x < |row|
  {
    exists k: nat :: k < |row| && Hops(row, x, k) == y
  }

  lemma {:induction false} CycleIsSingle(v: seq<int>, row: seq<int>)
    requires IsPermutation(v, |v|) && IsCycle(v, row) && Within(row, |row|)
    ensures SingleCycle(row)
  {
    var n := |v|;
    forall x, y | 0 <= x < n && 0 <= y < n ensures Reached(row, x, y) {
      var i := AllOccur(v, n, x);
      var j := AllOccur(v, n, y);
      var k: nat := if j >= i then j - i else j - i + n;
      HopsAlongCycle(v, row, i, k);
      assert Hops(row, x, k) == y;
    }
  }

  method CreateCycle(p: AdjustablePermutation) returns (row: seq<int>)
    requires ValidTables(p.t) && p.t.n >= 2 && p.adjusted == map[]
    ensures IsCycle(Images(p.t), row) && IsPermutation(row, p.t.n) && SingleCycle(row)
    ensures forall x {:trigger row[x]} :: 0 <= x < p.t.n ==> row[x] != x
  {
    var n := p.t.n;
    ghost var v := Images(p.t);
    ImagesArePermutation(p.t);
    var partners := new int[n];
    var pos := 0;
    while pos < n
      invariant 0 <= pos <= n
      invariant forall q {:trigger Leads(v, partners[..], q)} :: 0 <= q < pos ==> Leads(v, partners[..], q)
    {
      var val := p.Get(pos);
      NextIsModulo(n, pos);
      var nextVal := p.Get((pos + 1) % n);
      assert val == v[pos] && nextVal == v[Next(n, pos)];
      ghost var before := partners[..];
      partners[val] := nextVal;
      assert partners[..] == before[val := nextVal];
      forall q | 0 <= q < pos ensures Leads(v, partners[..], q) {
        assert Leads(v, before, q);
      }
      pos := pos + 1;
    }
    row := partners[..];
    CycleIsPermutation(v, row);
    CycleIsSingle(v, row);
  }

  // ---------------------------------------------------------------------
  // Further rows
  // ---------------------------------------------------------------------

  lemma {:induction false} SwapKeepsPermutation(v: seq<int>, w: seq<int>, n: int, i: int, k: int)
    requires IsPermutation(v, n) && |w| == n && 0 <= i < n && 0 <= k < n && i != k
    requires forall z {:trigger w[z]} :: 0 <= z < n ==> w[z] == if z == i then v[k] else if z == k then v[i] else v[z]
    ensures IsPermutation(w, n)
  {
  }

  method IsValid(rows: seq<seq<int>>, n: int, pos: int, val: int) returns (valid: bool)
    requires forall r {:trigger rows[r]} :: 0 <= r < |rows| ==> |rows[r]| == n
    requires 0 <= pos < n
    ensures valid <==> ValidAt(rows, n, pos, val)
  {
    if pos == val {
      return false;
    }
    var r := 0;
    while r < |rows|
      invariant 0 <= r <= |rows| && forall q {:trigger rows[q]} :: 0 <= q < r ==> rows[q][pos] != val
    {
      if rows[r][pos] == val {
        return false;
      }
      r := r + 1;
    }
    valid := true;
  }

  ghost predicate Shaped(rows: seq<seq<int>>, n: int)
  {
    forall r {:trigger rows[r]} :: 0 <= r < |rows| ==> |rows[r]| == n
  }

  /** A draw stands for a position other than pos. */
  function SwapPos(pos: int, draw: int): int
  {
    if draw >= pos then draw + 1 else draw
  }

  /** The values at pos, which is val, and at the drawn position may be swapped. */
  ghost predicate CanSwap(rows: seq<seq<int>>, v: seq<int>, pos: int, val: int, draw: int)
    requires Shaped(rows, |v|) && 0 <= pos < |v| && 0 <= draw < |v| - 1
  {
    ValidAt(rows, |v|, pos, v[SwapPos(pos, draw)]) && ValidAt(rows, |v|, SwapPos(pos, draw), val)
  }

  /** The first suitable draw, or the end of the draws. */
  ghost function FirstSwap(rows: seq<seq<int>>, v: seq<int>, pos: int, val: int, draws: seq<int>, d: nat): (i: nat)
    requires Shaped(rows, |v|) && 0 <= pos < |v| && d <= |draws| && Within(draws, |v| - 1)
    ensures d <= i <= |draws|
    ensures forall k {:trigger draws[k]} :: d <= k < i ==> !CanSwap(rows, v, pos, val, draws[k])
    ensures i < |draws| ==> CanSwap(rows, v, pos, val, draws[i])
    decreases |draws| - d
  {
    if d == |draws| || CanSwap(rows, v, pos, val, draws[d]) then d else FirstSwap(rows, v, pos, val, draws, d + 1)
  }

  /** The first suitable draw from d on, or none, in which case all draws are used up and none was suitable. */
  method FindSwap(p: AdjustablePermutation, rows: seq<seq<int>>, pos: int, val: int, draws: seq<int>, d: nat)
    returns (swapPos: Option<int>, swapVal: int, d': nat)
    requires ValidTables(p.t) && 0 <= pos < p.t.n && d <= |draws| && Within(draws, p.t.n - 1) && Shaped(rows, p.t.n)
    ensures var i := FirstSwap(rows, p.Values(), pos, val, draws, d);
      if i == |draws| then swapPos.None? && d' == |draws|
      else swapPos == Some(SwapPos(pos, draws[i])) && d' == i + 1
    ensures swapPos.Some? ==> 0 <= swapPos.value < p.t.n && swapPos.value != pos && swapVal == p.Value(swapPos.value)
    ensures swapPos.Some? ==> ValidAt(rows, p.t.n, pos, swapVal) && ValidAt(rows, p.t.n, swapPos.value, val)
  {
    d', swapPos, swapVal := d, None, 0;
    ghost var v := p.Values();
    while d' < |draws|
      invariant d <= d' <= |draws| && swapPos.None?
      invariant FirstSwap(rows, v, pos, val, draws, d) == FirstSwap(rows, v, pos, val, draws, d')
    {
      var q := draws[d'];
      if q >= pos {
        q := q + 1;
      }
      swapVal := p.Get(q);
      var here := IsValid(rows, p.t.n, pos, swapVal);
      var there := IsValid(rows, p.t.n, q, val);
      assert here && there <==> CanSwap(rows, v, pos, val, draws[d']);
      d' := d' + 1;
      if here && there {
        return Some(q), swapVal, d';
      }
    }
  }

  /** The values from pos on are repaired, with the draws from d on: the result and the next draw. */
  ghost function Repaired(rows: seq<seq<int>>, v: seq<int>, pos: nat, draws: seq<int>,
      d: nat): (r: Option<(seq<int>, nat)>)
    requires Shaped(rows, |v|) && pos <= |v| && d <= |draws| && Within(draws, |v| - 1)
    ensures r.Some? ==> |r.value.0| == |v| && d <= r.value.1 <= |draws|
    decreases |v| - pos
  {
    if pos == |v| then Some((v, d))
    else if ValidAt(rows, |v|, pos, v[pos]) then Repaired(rows, v, pos + 1, draws, d)
    else
      var i := FirstSwap(rows, v, pos, v[pos], draws, d);
      if i == |draws| then None
      else
        var q := SwapPos(pos, draws[i]);
        Repaired(rows, v[pos := v[q]][q := v[pos]], pos + 1, draws, i + 1)
  }

  ghost predicate AllValid(rows: seq<seq<int>>, v: seq<int>)
    requires Shaped(rows, |v|)
  {
    forall pos :: 0 <= pos < |v| ==> ValidAt(rows, |v|, pos, v[pos])
  }

  /** What a repair ends in is a permutation which is valid everywhere. */
  lemma {:induction false} RepairedIsValid(rows: seq<seq<int>>, v: seq<int>, pos: nat, draws: seq<int>, d: nat)
    requires IsPermutation(v, |v|) && Shaped(rows, |v|) && pos <= |v| && d <= |draws| && Within(draws, |v| - 1)
    requires forall q :: 0 <= q < pos ==> ValidAt(rows, |v|, q, v[q])
    ensures var r := Repaired(rows, v, pos, draws, d);
      r.Some? ==> IsPermutation(r.value.0, |v|) && AllValid(rows, r.value.0)
    decreases |v| - pos
  {
    if pos < |v| {
      if ValidAt(rows, |v|, pos, v[pos]) {
        RepairedIsValid(rows, v, pos + 1, draws, d);
      } else {
        var i := FirstSwap(rows, v, pos, v[pos], draws, d);
        if i < |draws| {
          var q := SwapPos(pos, draws[i]);
          var w := v[pos := v[q]][q := v[pos]];
          SwapKeepsPermutation(v, w, |v|, pos, q);
          RepairedIsValid(rows, w, pos + 1, draws, i + 1);
        }
      }
    }
  }

  method SwapValues(p: AdjustablePermutation, pos: int, swapVal: int, swapPos: int, val: int)
    requires ValidTables(p.t) && 0 <= pos < p.t.n && 0 <= swapPos < p.t.n && pos != swapPos
    modifies p
    ensures p.Values() == old(p.Values())[pos := swapVal][swapPos := val]
  {
    p.Adjust(pos, swapVal);
    p.Adjust(swapPos, val);
  }

  /** Swap the value at one position if it is not valid. */
  method RepairAt(p: AdjustablePermutation, rows: seq<seq<int>>, pos: nat, draws: seq<int>, d: nat)
    returns (ok: bool, d': nat)
    requires ValidTables(p.t) && pos < p.t.n && d <= |draws| && Within(draws, p.t.n - 1) && Shaped(rows, p.t.n)
    modifies p
    ensures d <= d' <= |draws|
    ensures ok ==> Repaired(rows, old(p.Values()), pos, draws, d) == Repaired(rows, p.Values(), pos + 1, draws, d')
    ensures !ok ==> Repaired(rows, old(p.Values()), pos, draws, d).None? && d' == |draws|
  {
    var n := p.t.n;
    ok, d' := true, d;
    var val := p.Get(pos);
    var valid := IsValid(rows, n, pos, val);
    if !valid {
      var swapPos, swapVal;
      swapPos, swapVal, d' := FindSwap(p, rows, pos, val, draws, d);
      if swapPos.None? {
        return false, d';
      }
      SwapValues(p, pos, swapVal, swapPos.value, val);
    }
  }

  /** Swap values until the permutation is valid at every position. */
  method RepairRow(p: AdjustablePermutation, rows: seq<seq<int>>, draws: seq<int>, d: nat) returns (ok: bool, d': nat)
    requires ValidTables(p.t) && IsPermutation(p.Values(), p.t.n) && d <= |draws| && Within(draws, p.t.n - 1)
    requires Shaped(rows, p.t.n)
    modifies p
    ensures d <= d' <= |draws|
    ensures match Repaired(rows, old(p.Values()), 0, draws, d)
      case Some((v, e)) => ok && p.Values() == v && d' == e
      case None => !ok && d' == |draws|
    ensures ok ==> IsPermutation(p.Values(), p.t.n) && AllValid(rows, p.Values())
  {
    RepairedIsValid(rows, p.Values(), 0, draws, d);
    var n := p.t.n;
    d' := d;
    var pos := 0;
    while pos < n
      invariant 0 <= pos <= n && d <= d' <= |draws|
      invariant Repaired(rows, old(p.Values()), 0, draws, d) == Repaired(rows, p.Values(), pos, draws, d')
    {
      ok, d' := RepairAt(p, rows, pos, draws, d');
      if !ok {
        return;
      }
      pos := pos + 1;
    }
    ok := true;
    assert Repaired(rows, p.Values(), n, draws, d') == Some((p.Values(), d'));
  }

  /** The values of a permutation, as they are written to the output. */
  method ReadValues(p: AdjustablePermutation) returns (row: seq<int>)
    requires ValidTables(p.t)
    ensures row == p.Values()
  {
    row := [];
    while |row| < p.t.n
      invariant |row| <= p.t.n && forall x {:trigger row[x]} :: 0 <= x < |row| ==> row[x] == p.Value(x)
    {
      var v := p.Get(|row|);
      row := row + [v];
    }
  }

  lemma {:induction false} RowsExtend(rows: seq<seq<int>>, row: seq<int>, n: int)
    requires DisjointRows(rows, n) && IsPermutation(row, n)
    requires forall pos :: 0 <= pos < n ==> ValidAt(rows, n, pos, row[pos])
    ensures DisjointRows(rows + [row], n)
  {
    var all := rows + [row];
    forall r | 0 <= r < |all| ensures forall pos :: 0 <= pos < n ==> ValidAt(all[..r], n, pos, all[r][pos]) {
      if r < |rows| {
        assert all[..r] == rows[..r];
      } else {
        assert all[..r] == rows;
      }
    }
  }

  ghost predicate SameSize(tables: seq<Tables>, n: int)
  {
    forall r {:trigger tables[r]} :: 0 <= r < |tables| ==> ValidTables(tables[r]) && tables[r].n == n
  }

  /** All further rows, each repaired with the draws which the earlier ones have left. */
  ghost function Completed(tables: seq<Tables>, rows: seq<seq<int>>, n: int, draws: seq<int>,
      d: nat): Option<seq<seq<int>>>
    requires SameSize(tables, n) && Shaped(rows, n) && |rows| <= |tables| && Within(draws, n - 1) && d <= |draws|
    decreases |tables| - |rows|
  {
    if |rows| == |tables| then Some(rows)
    else
      match Repaired(rows, Images(tables[|rows|]), 0, draws, d)
      case None => None
      case Some((row, e)) => Completed(tables, rows + [row], n, draws, e)
  }

  lemma {:induction false} CompletedIsDisjoint(tables: seq<Tables>, rows: seq<seq<int>>, n: int, draws: seq<int>,
      d: nat)
    requires n >= 1 && SameSize(tables, n) && DisjointRows(rows, n) && |rows| <= |tables|
    requires Within(draws, n - 1) && d <= |draws|
    ensures var c := Completed(tables, rows, n, draws, d);
      c.Some? ==> |c.value| == |tables| && DisjointRows(c.value, n) && rows <= c.value
    decreases |tables| - |rows|
  {
    if |rows| < |tables| {
      var v := Images(tables[|rows|]);
      ImagesArePermutation(tables[|rows|]);
      RepairedIsValid(rows, v, 0, draws, d);
      var r := Repaired(rows, v, 0, draws, d);
      if r.Some? {
        RowsExtend(rows, r.value.0, n);
        CompletedIsDisjoint(tables, rows + [r.value.0], n, draws, r.value.1);
      }
    }
  }

  // ---------------------------------------------------------------------
  // Enough draws
  // ---------------------------------------------------------------------

  /**
   The positions which cannot be swapped with pos: those in a have the value of some row at pos, or pos itself;
   at those in b some row has the value of pos, or they are this value themselves.
   */
  ghost predicate Blocked(rows: seq<seq<int>>, v: seq<int>, n: nat, pos: nat, a: seq<int>, b: seq<int>)
    requires DisjointRows(rows, n) && IsPermutation(v, n) && pos < n
  {
    && |a| == |b| == |rows| + 1 && Within(a, n) && Within(b, n)
    && (forall r {:trigger rows[r]} :: 0 <= r < |rows| ==> v[a[r]] == rows[r][pos] && rows[r][b[r]] == v[pos])
    && v[a[|rows|]] == pos && b[|rows|] == v[pos]
  }

  lemma {:induction false} Blockers(rows: seq<seq<int>>, v: seq<int>, n: nat, pos: nat)
    returns (a: seq<int>, b: seq<int>)
    requires DisjointRows(rows, n) && IsPermutation(v, n) && pos < n
    ensures Blocked(rows, v, n, pos, a, b)
  {
    a, b := [], [];
    while |a| < |rows|
      invariant |a| == |b| <= |rows| && Within(a, n) && Within(b, n)
      invariant forall r {:trigger rows[r]} :: 0 <= r < |a| ==> v[a[r]] == rows[r][pos] && rows[r][b[r]] == v[pos]
    {
      var row := rows[|a|];
      var x := AllOccur(v, n, row[pos]);
      var y := AllOccur(row, n, v[pos]);
      a, b := a + [x], b + [y];
    }
    var x := AllOccur(v, n, pos);
    a, b := a + [x], b + [v[pos]];
  }

  lemma {:induction false} NotBlocked(rows: seq<seq<int>>, v: seq<int>, n: nat, pos: nat, a: seq<int>, b: seq<int>,
      q: nat)
    requires DisjointRows(rows, n) && IsPermutation(v, n) && pos < n && Blocked(rows, v, n, pos, a, b)
    requires q < n && q !in a && q !in b
    ensures ValidAt(rows, n, pos, v[q]) && ValidAt(rows, n, q, v[pos])
  {
    forall r | 0 <= r < |rows| ensures rows[r][pos] != v[q] && rows[r][q] != v[pos] {
      assert a[r] in a && b[r] in b;
    }
    assert a[|rows|] in a && b[|rows|] in b;
  }

  /** What makes the value at pos invalid is counted twice. */
  lemma {:induction false} BlockedTwice(rows: seq<seq<int>>, v: seq<int>, n: nat, pos: nat, a: seq<int>, b: seq<int>)
    returns (k: nat)
    requires DisjointRows(rows, n) && IsPermutation(v, n) && pos < n && Blocked(rows, v, n, pos, a, b)
    requires !ValidAt(rows, n, pos, v[pos])
    ensures k < |a| && a[k] == b[k] == pos
  {
    if v[pos] == pos {
      k := |rows|;
    } else {
      k :| 0 <= k < |rows| && rows[k][pos] == v[pos];
    }
  }

  /**
   As long as there are at most half as many rows as nodes, every invalid value can be swapped with some other
   one.
   */
  lemma {:induction false} SwapExists(rows: seq<seq<int>>, v: seq<int>, n: nat, pos: nat) returns (draw: nat)
    requires DisjointRows(rows, n) && IsPermutation(v, n) && pos < n && !ValidAt(rows, n, pos, v[pos])
    requires 2 * (|rows| + 1) <= n
    ensures draw < n - 1 && CanSwap(rows, v, pos, v[pos], draw)
  {
    var a, b := Blockers(rows, v, n, pos);
    var k := BlockedTwice(rows, v, n, pos, a, b);
    var all := a + b;
    assert all[k] == a[k] && all[|a| + k] == b[k];
    var q := MissedTwice(all, n, k, |a| + k);
    assert a[k] in all && q !in a && q !in b;
    NotBlocked(rows, v, n, pos, a, b, q);
    draw := if q > pos then q - 1 else q;
  }

  ghost predicate Occurs(draws: seq<int>, d: nat, e: nat, x: int)
    requires d <= e <= |draws|
  {
    exists k {:trigger draws[k]} :: d <= k < e && draws[k] == x
  }

  ghost predicate Covers(draws: seq<int>, d: nat, e: nat, n: int)
  {
    d <= e <= |draws| && forall x :: 0 <= x < n - 1 ==> Occurs(draws, d, e, x)
  }

  /** From d on, the draws consist of at least m blocks in each of which every possible draw occurs. */
  ghost predicate Rounds(draws: seq<int>, d: nat, m: nat, n: int)
    decreases m
  {
    d <= |draws| && (m > 0 ==> exists e: nat :: Covers(draws, d, e, n) && Rounds(draws, e, m - 1, n))
  }

  /** One block for each position of so many rows. */
  ghost predicate RoundsFor(draws: seq<int>, d: nat, rows: nat, n: nat)
  {
    Rounds(draws, d, n * rows, n)
  }

  lemma {:induction false} RoundsEarlier(draws: seq<int>, d: nat, d': nat, m: nat, n: int)
    requires Rounds(draws, d, m, n) && d' <= d
    ensures Rounds(draws, d', m, n)
  {
    if m > 0 {
      var e: nat :| Covers(draws, d, e, n) && Rounds(draws, e, m - 1, n);
      forall x | 0 <= x < n - 1 ensures Occurs(draws, d', e, x) {
        assert Occurs(draws, d, e, x);
      }
      assert Covers(draws, d', e, n);
    }
  }

  /** A block which has every possible draw has a suitable one. */
  lemma {:induction false} SwapWithin(rows: seq<seq<int>>, v: seq<int>, n: nat, pos: nat, draws: seq<int>, d: nat,
      m: nat)
    requires DisjointRows(rows, n) && IsPermutation(v, n) && pos < n && !ValidAt(rows, n, pos, v[pos])
    requires 2 * (|rows| + 1) <= n && Within(draws, n - 1) && m > 0 && Rounds(draws, d, m, n)
    ensures var i := FirstSwap(rows, v, pos, v[pos], draws, d); i < |draws| && Rounds(draws, i + 1, m - 1, n)
  {
    var draw := SwapExists(rows, v, n, pos);
    var e: nat :| Covers(draws, d, e, n) && Rounds(draws, e, m - 1, n);
    assert Occurs(draws, d, e, draw);
    var k :| d <= k < e && draws[k] == draw;
    var i := FirstSwap(rows, v, pos, v[pos], draws, d);
    assert i <= k;
    RoundsEarlier(draws, e, i + 1, m - 1, n);
  }

  /** Each position takes at most one block. */
  lemma {:induction false} RepairSucceeds(rows: seq<seq<int>>, v: seq<int>, n: nat, pos: nat, draws: seq<int>, d: nat,
      m: nat)
    requires DisjointRows(rows, n) && IsPermutation(v, n) && pos <= n
    requires 2 * (|rows| + 1) <= n && Within(draws, n - 1) && Rounds(draws, d, m + (n - pos), n)
    ensures var r := Repaired(rows, v, pos, draws, d); r.Some? && Rounds(draws, r.value.1, m, n)
    decreases n - pos
  {
    if pos < n {
      if ValidAt(rows, n, pos, v[pos]) {
        FewerRounds(draws, d, m + (n - pos), n);
        RepairSucceeds(rows, v, n, pos + 1, draws, d, m);
      } else {
        SwapWithin(rows, v, n, pos, draws, d, m + (n - pos));
        var i := FirstSwap(rows, v, pos, v[pos], draws, d);
        var q := SwapPos(pos, draws[i]);
        var w := v[pos := v[q]][q := v[pos]];
        SwapKeepsPermutation(v, w, n, pos, q);
        RepairSucceeds(rows, w, n, pos + 1, draws, i + 1, m);
      }
    }
  }

  lemma {:induction false} FewerRounds(draws: seq<int>, d: nat, m: nat, n: int)
    requires Rounds(draws, d, m, n) && m > 0
    ensures Rounds(draws, d, m - 1, n)
  {
    var e: nat :| Covers(draws, d, e, n) && Rounds(draws, e, m - 1, n);
    RoundsEarlier(draws, e, d, m - 1, n);
  }

  /**
   With at most half as many permutations as nodes, one block of draws for each position of each further row
   is enough.
   */
  lemma {:induction false} EnoughDraws(tables: seq<Tables>, rows: seq<seq<int>>, n: nat, draws: seq<int>, d: nat)
    requires SameSize(tables, n) && DisjointRows(rows, n) && |rows| <= |tables| && 2 * |tables| <= n
    requires Within(draws, n - 1) && RoundsFor(draws, d, |tables| - |rows|, n)
    ensures Completed(tables, rows, n, draws, d).Some?
    decreases |tables| - |rows|
  {
    if |rows| < |tables| {
      var v, k := Images(tables[|rows|]), |tables| - |rows| - 1;
      ImagesArePermutation(tables[|rows|]);
      assert n * (k + 1) == n * k + n;
      RepairSucceeds(rows, v, n, 0, draws, d, n * k);
      RepairedIsValid(rows, v, 0, draws, d);
      var r := Repaired(rows, v, 0, draws, d);
      RowsExtend(rows, r.value.0, n);
      EnoughDraws(tables, rows + [r.value.0], n, draws, r.value.1);
    }
  }

  // ---------------------------------------------------------------------
  // More than half as many rows as nodes
  // ---------------------------------------------------------------------

  /** The permutation which moves every number s further. */
  function Shift(n: nat, s: nat): seq<int>
    requires 0 < s < n
  {
    seq(n, i requires 0 <= i < n => if i + s < n then i + s else i + s - n)
  }

  function Shifts(n: nat, m: nat): seq<seq<int>>
    requires m < n
  {
    seq(m, k requires 0 <= k < m => Shift(n, k + 1))
  }

  function Identity(n: nat): seq<int>
  {
    seq(n, i requires 0 <= i < n => i)
  }

  lemma {:induction false} ShiftsAreDisjoint(n: nat, m: nat)
    requires m < n
    ensures DisjointRows(Shifts(n, m), n) && IsPermutation(Identity(n), n)
  {
  }

  /** Each position shares its value with a shift, at this position or at the first one. */
  lemma {:induction false} NothingSwaps(n: nat, m: nat, draw: nat)
    requires 0 < m < n < 2 * (m + 1) && draw < n - 1
    ensures Shaped(Shifts(n, m), n) && !CanSwap(Shifts(n, m), Identity(n), 0, 0, draw)
  {
    var rows, q := Shifts(n, m), draw + 1;
    if q <= m {
      assert rows[q - 1][0] == q;
    } else {
      assert rows[n - q - 1][q] == 0;
    }
  }

  /** Beyond half as many rows as nodes, there are rows and a permutation which no draws can repair. */
  lemma {:induction false} NoDrawsSuffice(n: nat, m: nat, draws: seq<int>, d: nat)
    requires 0 < m < n < 2 * (m + 1) && Within(draws, n - 1) && d <= |draws|
    ensures DisjointRows(Shifts(n, m), n) && IsPermutation(Identity(n), n)
    ensures Repaired(Shifts(n, m), Identity(n), 0, draws, d).None?
  {
    ShiftsAreDisjoint(n, m);
    var rows, v := Shifts(n, m), Identity(n);
    var i := FirstSwap(rows, v, 0, 0, draws, d);
    if i < |draws| { NothingSwaps(n, m, draws[i]); }
  }

  /** Whatever the m rows and the permutation are, every invalid value can be swapped with some other one. */
  ghost predicate AlwaysRepairable(n: nat, m: nat)
  {
    forall rows, v, pos: nat :: Broken(rows, v, n, m, pos) ==> Repairable(rows, v, n, pos)
  }

  ghost predicate Broken(rows: seq<seq<int>>, v: seq<int>, n: nat, m: nat, pos: nat)
  {
    DisjointRows(rows, n) && |rows| == m && IsPermutation(v, n) && pos < n && !ValidAt(rows, n, pos, v[pos])
  }

  ghost predicate Repairable(rows: seq<seq<int>>, v: seq<int>, n: nat, pos: nat)
  {
    Shaped(rows, n) && |v| == n && pos < n && exists draw :: 0 <= draw < n - 1 && CanSwap(rows, v, pos, v[pos], draw)
  }

  /** The bound of half as many rows as nodes is exact, for all numbers of nodes and rows. */
  lemma {:induction false} HalfIsExact(n: nat, m: nat)
    requires m < n && n >= 2
    ensures AlwaysRepairable(n, m) <==> 2 * (m + 1) <= n
  {
    if 2 * (m + 1) <= n {
      forall rows, v, pos: nat | Broken(rows, v, n, m, pos) ensures Repairable(rows, v, n, pos) {
        var draw := SwapExists(rows, v, n, pos);
      }
    } else {
      var rows, v := Shifts(n, m), Identity(n);
      ShiftsAreDisjoint(n, m);
      assert Broken(rows, v, n, m, 0);
      forall draw: nat | draw < n - 1 ensures !CanSwap(rows, v, 0, 0, draw) { NothingSwaps(n, m, draw); }
      assert !Repairable(rows, v, n, 0);
    }
  }

  // ---------------------------------------------------------------------
  // All rows
  // ---------------------------------------------------------------------

  /**
   getPermutations: one choice of tables per permutation, and the random draws for swap positions. Nothing
   is returned if the draws do not suffice. With at most half as many permutations as nodes, all draws do suffice
   in which every possible draw comes up again and again.
   */
  method GetPermutations(n: int, tables: seq<Tables>, draws: seq<int>) returns (out: Option<seq<seq<int>>>)
    requires n >= 2 && tables != [] && Within(draws, n - 1) && SameSize(tables, n)
    ensures exists cycle ::
      IsCycle(Images(tables[0]), cycle) && DisjointRows([cycle], n) && out == Completed(tables, [cycle], n, draws, 0)
    ensures out.Some? ==> |out.value| == |tables| && DisjointRows(out.value, n) && SingleCycle(out.value[0])
    ensures 2 * |tables| <= n && RoundsFor(draws, 0, |tables| - 1, n) ==> out.Some?
  {
    var p := new AdjustablePermutation(tables[0]);
    var cycle := CreateCycle(p);
    var rows := [cycle];
    var d := 0;
    var r := 1;
    if 2 * |tables| <= n && RoundsFor(draws, 0, |tables| - 1, n) { EnoughDraws(tables, rows, n, draws, 0); }
    while r < |tables|
      invariant 1 <= r <= |tables| && d <= |draws|
      invariant |rows| == r && DisjointRows(rows, n) && rows[0] == cycle
      invariant Completed(tables, [cycle], n, draws, 0) == Completed(tables, rows, n, draws, d)
    {
      p := new AdjustablePermutation(tables[r]);
      ImagesArePermutation(p.t);
      assert p.Values() == Images(p.t);
      var ok;
      ok, d := RepairRow(p, rows, draws, d);
      if !ok {
        return None;
      }
      var row := ReadValues(p);
      RowsExtend(rows, row, n);
      rows := rows + [row];
      r := r + 1;
    }
    out := Some(rows);
  }

  /** Disjoint rows differ pairwise at every position. */
  lemma {:induction false} RowsDiffer(rows: seq<seq<int>>, n: int, r: nat, q: nat, pos: nat)
    requires DisjointRows(rows, n) && r < |rows| && q < |rows| && r != q && pos < n
    ensures |rows[r]| == n && |rows[q]| == n && rows[r][pos] != rows[q][pos] && rows[r][pos] != pos
  {
    var i, k := if r < q then r else q, if r < q then q else r;
    assert ValidAt(rows[..k], n, pos, rows[k][pos]);
    assert rows[..k][i] == rows[i];
    assert ValidAt(rows[..r], n, pos, rows[r][pos]);
  }

  /** The graph is regular: every node has one ingoing edge per row, from different nodes. */
  lemma {:induction false} IngoingEdges(rows: seq<seq<int>>, n: nat, y: int) returns (sources: seq<int>)
    requires DisjointRows(rows, n) && 0 <= y < n
    ensures |sources| == |rows| && Distinct(sources) && Within(sources, n)
    ensures forall r {:trigger rows[r]} :: 0 <= r < |rows| ==> |rows[r]| == n && rows[r][sources[r]] == y
  {
    sources := [];
    while |sources| < |rows|
      invariant |sources| <= |rows| && Within(sources, n)
      invariant forall r {:trigger rows[r]} :: 0 <= r < |sources| ==> |rows[r]| == n && rows[r][sources[r]] == y
    {
      var x := AllOccur(rows[|sources|], n, y);
      sources := sources + [x];
    }
    forall r, q | 0 <= r < q < |sources| ensures sources[r] != sources[q] {
      RowsDiffer(rows, n, r, q, sources[r]);
    }
  }
}
