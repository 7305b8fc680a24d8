/**
 The token structure of reactivation-based scheduling, with the contents of all packages left out.
 A scheduler which is not suspended is active; it knows its parent's rank and, for each of its two
 children, the rank which currently has the child's package (if any). Module Reactivation shows
 that every step of the schedulers is one of the steps below.
 */
module PackageTokens {
  import opened Options
  import opened JobTreeIndex

  type Key = (int, nat)

  datatype Role = Role(parentRank: int, left: Option<int>, right: Option<int>)

  datatype Flight = Flight(down: bool, src: int, dst: int, child: nat)

  datatype View = View(root: int, active: map<Key, Role>, flights: seq<Flight>)

  datatype Phase = Down | Held | Up

  /** The package outstanding for one child index: between which ranks, and where it is. */
  datatype Token = Token(parent: int, child: int, phase: Phase)

  function ParentOf(c: nat): nat
  {
    if c == 0 then 0 else Parent(c)
  }

  /** Who has the package of child index c, as its parent sees it. */
  function Slot(r: Role, c: nat): Option<int>
  {
    if c % 2 == 1 then r.left else r.right
  }

  function WithSlot(r: Role, c: nat, v: Option<int>): Role
  {
    if c % 2 == 1 then r.(left := v) else r.(right := v)
  }

  function RemoveAt<T>(s: seq<T>, k: nat): seq<T>
    requires k < |s|
  {
    s[..k] + s[k + 1..]
  }

  predicate DifferentRanks(r: Role)
  {
    r.left.Some? && r.right.Some? ==> r.left.value != r.right.value
  }

  // ---------------------------------------------------------------------
  // The invariant
  // ---------------------------------------------------------------------

  ghost predicate ActiveOk(v: View, tok: map<nat, Token>, k: Key)
    requires k in v.active
  {
    var r := v.active[k];
    && (k.1 == 0 ==> k.0 == v.root)
    && (k.1 > 0 ==> k.1 in tok && tok[k.1] == Token(r.parentRank, k.0, Held))
    && (r.left.Some? ==> 2 * k.1 + 1 in tok)
    && (r.right.Some? ==> 2 * k.1 + 2 in tok)
    && DifferentRanks(r)
  }

  predicate FlightOk(tok: map<nat, Token>, f: Flight)
  {
    && f.child > 0 && f.child in tok
    && tok[f.child] == if f.down then Token(f.src, f.dst, Down) else Token(f.dst, f.src, Up)
  }

  ghost predicate InFlight(v: View, c: nat)
  {
    exists j :: 0 <= j < |v.flights| && v.flights[j].child == c
  }

  ghost predicate TokenOk(v: View, tok: map<nat, Token>, c: nat)
    requires c in tok
  {
    && c > 0
    && var k := (tok[c].parent, ParentOf(c));
    && k in v.active && Slot(v.active[k], c) == Some(tok[c].child)
    && (tok[c].phase == Held ==> (tok[c].child, c) in v.active)
    && (tok[c].phase != Held ==> InFlight(v, c))
  }

  ghost predicate Inv(v: View, tok: map<nat, Token>)
  {
    && (forall k {:trigger ActiveOk(v, tok, k)} :: k in v.active ==> ActiveOk(v, tok, k))
    && (forall j {:trigger FlightOk(tok, v.flights[j])} :: 0 <= j < |v.flights| ==> FlightOk(tok, v.flights[j]))
    && (forall i, j :: 0 <= i < j < |v.flights| ==> v.flights[i].child != v.flights[j].child)
    && (forall c {:trigger TokenOk(v, tok, c)} :: c in tok ==> TokenOk(v, tok, c))
  }

  lemma {:induction false} UniqueActive(v: View, tok: map<nat, Token>, k: Key, l: Key)
    requires Inv(v, tok) && k in v.active && l in v.active && k.1 == l.1
    ensures k == l
  {
    assert ActiveOk(v, tok, k) && ActiveOk(v, tok, l);
  }

  lemma {:induction false} ChildIndex(c: nat)
    requires c > 0
    ensures c == if c % 2 == 1 then 2 * ParentOf(c) + 1 else 2 * ParentOf(c) + 2
  {
  }

  /** Between a parent's slot and the token of that child. */
  lemma {:induction false} SlotIsToken(v: View, tok: map<nat, Token>, k: Key, c: nat)
    requires Inv(v, tok) && k in v.active && c > 0 && ParentOf(c) == k.1
    ensures c in tok <==> Slot(v.active[k], c).Some?
    ensures c in tok ==> tok[c].parent == k.0 && Slot(v.active[k], c) == Some(tok[c].child)
  {
    assert ActiveOk(v, tok, k);
    ChildIndex(c);
    if c in tok {
      assert TokenOk(v, tok, c);
      UniqueActive(v, tok, k, (tok[c].parent, ParentOf(c)));
    }
  }

  lemma {:induction false} FlightsAppend(v: View, w: View, f: Flight, c: nat)
    requires w.flights == v.flights + [f]
    ensures InFlight(v, c) ==> InFlight(w, c)
    ensures InFlight(w, f.child)
  {
    if InFlight(v, c) {
      var j :| 0 <= j < |v.flights| && v.flights[j].child == c;
      assert w.flights[j].child == c;
    }
    assert w.flights[|v.flights|].child == f.child;
  }

  lemma {:induction false} FlightsRemove(v: View, w: View, pos: nat, c: nat)
    requires pos < |v.flights| && w.flights == RemoveAt(v.flights, pos)
    requires forall i, j :: 0 <= i < j < |v.flights| ==> v.flights[i].child != v.flights[j].child
    ensures InFlight(v, c) && c != v.flights[pos].child ==> InFlight(w, c)
    ensures forall j :: 0 <= j < |w.flights| ==> w.flights[j] in v.flights && w.flights[j].child != v.flights[pos].child
    ensures forall i, j :: 0 <= i < j < |w.flights| ==> w.flights[i].child != w.flights[j].child
  {
    if InFlight(v, c) && c != v.flights[pos].child {
      var j :| 0 <= j < |v.flights| && v.flights[j].child == c;
      assert w.flights[if j < pos then j else j - 1].child == c;
    }
    forall j | 0 <= j < |w.flights|
      ensures w.flights[j] in v.flights && w.flights[j].child != v.flights[pos].child
    {
      assert w.flights[j] == v.flights[if j < pos then j else j + 1];
    }
  }

  // ---------------------------------------------------------------------
  // The steps
  // ---------------------------------------------------------------------

  /** The root starts its scheduler. */
  lemma {:induction false} Start(v: View, tok: map<nat, Token>, client: int)
    requires Inv(v, tok) && (v.root, 0) !in v.active
    ensures Inv(v.(active := v.active[(v.root, 0) := Role(client, None, None)]), tok)
  {
    var w := v.(active := v.active[(v.root, 0) := Role(client, None, None)]);
    forall k | k in w.active ensures ActiveOk(w, tok, k) {
      assert k != (v.root, 0) ==> ActiveOk(v, tok, k);
    }
    forall c | c in tok ensures TokenOk(w, tok, c) {
      assert TokenOk(v, tok, c);
    }
  }

  /** A child joins: the session hands out its package. */
  lemma {:induction false} Join(v: View, tok: map<nat, Token>, k: Key, c: nat, source: int)
    requires Inv(v, tok) && k in v.active && c > 0 && ParentOf(c) == k.1 && Slot(v.active[k], c).None?
    requires DifferentRanks(WithSlot(v.active[k], c, Some(source)))
    ensures Inv(v.(active := v.active[k := WithSlot(v.active[k], c, Some(source))],
                   flights := v.flights + [Flight(true, k.0, source, c)]),
                tok[c := Token(k.0, source, Down)])
  {
    SlotIsToken(v, tok, k, c);
    var f := Flight(true, k.0, source, c);
    var w := v.(active := v.active[k := WithSlot(v.active[k], c, Some(source))], flights := v.flights + [f]);
    var tok' := tok[c := Token(k.0, source, Down)];
    ChildIndex(c);
    forall l | l in w.active ensures ActiveOk(w, tok', l) {
      assert ActiveOk(v, tok, l);
    }
    forall d | d in tok' ensures TokenOk(w, tok', d) {
      FlightsAppend(v, w, f, d);
      if d != c {
        assert TokenOk(v, tok, d);
        ChildIndex(d);
      }
    }
    assert forall j :: 0 <= j < |v.flights| ==> FlightOk(tok, v.flights[j]) && v.flights[j].child != c;
  }

  /** An active scheduler none of whose children has a package returns its own. */
  lemma {:induction false} SendReturn(v: View, tok: map<nat, Token>, k: Key)
    requires Inv(v, tok) && k in v.active && k.1 > 0 && v.active[k].left.None? && v.active[k].right.None?
    ensures k.1 in tok
    ensures Inv(v.(active := v.active - {k}, flights := v.flights + [Flight(false, k.0, v.active[k].parentRank, k.1)]),
                tok[k.1 := Token(v.active[k].parentRank, k.0, Up)])
  {
    assert ActiveOk(v, tok, k);
    var f := Flight(false, k.0, v.active[k].parentRank, k.1);
    var w := v.(active := v.active - {k}, flights := v.flights + [f]);
    var tok' := tok[k.1 := Token(v.active[k].parentRank, k.0, Up)];
    forall l | l in w.active ensures ActiveOk(w, tok', l) {
      assert ActiveOk(v, tok, l);
      if l.1 == k.1 { UniqueActive(v, tok, k, l); }
    }
    forall d | d in tok' ensures TokenOk(w, tok', d) {
      FlightsAppend(v, w, f, d);
      assert TokenOk(v, tok, d);
      if (tok[d].parent, ParentOf(d)) == k { SlotIsToken(v, tok, k, d); }
    }
    assert forall j :: 0 <= j < |v.flights| ==> FlightOk(tok, v.flights[j]) && v.flights[j].child != k.1;
  }

  /** A package arrives and opens a scheduler. */
  lemma {:induction false} ReceiveInit(v: View, tok: map<nat, Token>, pos: nat)
    requires Inv(v, tok) && pos < |v.flights| && v.flights[pos].down
    ensures v.flights[pos].child in tok
    ensures var f := v.flights[pos];
      Inv(v.(active := v.active[(f.dst, f.child) := Role(f.src, None, None)], flights := RemoveAt(v.flights, pos)),
          tok[f.child := Token(f.src, f.dst, Held)])
  {
    var f := v.flights[pos];
    assert FlightOk(tok, f);
    var k := (f.dst, f.child);
    var w := v.(active := v.active[k := Role(f.src, None, None)], flights := RemoveAt(v.flights, pos));
    var tok' := tok[f.child := Token(f.src, f.dst, Held)];
    forall l | l in w.active ensures ActiveOk(w, tok', l) {
      if l != k { assert ActiveOk(v, tok, l); }
    }
    assert k in v.active ==> ActiveOk(v, tok, k);
    forall d | d in tok' ensures TokenOk(w, tok', d) {
      FlightsRemove(v, w, pos, d);
      assert TokenOk(v, tok, d);
    }
    FlightsRemove(v, w, pos, 0);
    forall j | 0 <= j < |w.flights| ensures FlightOk(tok', w.flights[j]) {
      assert FlightOk(tok, w.flights[j]);
    }
  }

  /** A package which cannot be used at its destination is sent back. */
  lemma {:induction false} Bounce(v: View, tok: map<nat, Token>, pos: nat)
    requires Inv(v, tok) && pos < |v.flights| && v.flights[pos].down
    ensures v.flights[pos].child in tok
    ensures var f := v.flights[pos];
      Inv(v.(flights := RemoveAt(v.flights, pos) + [Flight(false, f.dst, f.src, f.child)]),
          tok[f.child := Token(f.src, f.dst, Up)])
  {
    var f := v.flights[pos];
    assert FlightOk(tok, f);
    var g := Flight(false, f.dst, f.src, f.child);
    var u := v.(flights := RemoveAt(v.flights, pos));
    var w := u.(flights := u.flights + [g]);
    var tok' := tok[f.child := Token(f.src, f.dst, Up)];
    forall l | l in w.active ensures ActiveOk(w, tok', l) {
      assert ActiveOk(v, tok, l);
    }
    forall d | d in tok' ensures TokenOk(w, tok', d) {
      BounceToken(v, tok, pos, u, w, d);
    }
    FlightsRemove(v, u, pos, 0);
    forall j | 0 <= j < |w.flights| ensures FlightOk(tok', w.flights[j]) {
      if j < |u.flights| { assert u.flights[j] in v.flights && FlightOk(tok, w.flights[j]); }
    }
  }

  lemma {:induction false} BounceToken(v: View, tok: map<nat, Token>, pos: nat, u: View, w: View, d: nat)
    requires Inv(v, tok) && pos < |v.flights| && v.flights[pos].down && d in tok
    requires var f := v.flights[pos];
      && u == v.(flights := RemoveAt(v.flights, pos))
      && w == u.(flights := u.flights + [Flight(false, f.dst, f.src, f.child)])
    ensures var f := v.flights[pos]; TokenOk(w, tok[f.child := Token(f.src, f.dst, Up)], d)
  {
    var f := v.flights[pos];
    assert FlightOk(tok, f);
    FlightsRemove(v, u, pos, d);
    FlightsAppend(u, w, Flight(false, f.dst, f.src, f.child), d);
    assert TokenOk(v, tok, d);
  }

  /** A returned package arrives at the parent. */
  lemma {:induction false} ReceiveReturn(v: View, tok: map<nat, Token>, pos: nat)
    requires Inv(v, tok) && pos < |v.flights| && !v.flights[pos].down
    ensures var f := v.flights[pos];
      && (f.dst, ParentOf(f.child)) in v.active
      && Slot(v.active[(f.dst, ParentOf(f.child))], f.child) == Some(f.src)
      && f.child > 0
      && f.child in tok
      && var k := (f.dst, ParentOf(f.child));
         Inv(v.(active := v.active[k := WithSlot(v.active[k], f.child, None)], flights := RemoveAt(v.flights, pos)),
             tok - {f.child})
  {
    var f := v.flights[pos];
    assert FlightOk(tok, f);
    assert TokenOk(v, tok, f.child);
    var k := (f.dst, ParentOf(f.child));
    var w := v.(active := v.active[k := WithSlot(v.active[k], f.child, None)], flights := RemoveAt(v.flights, pos));
    var tok' := tok - {f.child};
    ChildIndex(f.child);
    forall l | l in w.active ensures ActiveOk(w, tok', l) {
      assert ActiveOk(v, tok, l);
      if l.1 == k.1 { UniqueActive(v, tok, k, l); }
    }
    forall d | d in tok' ensures TokenOk(w, tok', d) {
      FlightsRemove(v, w, pos, d);
      assert TokenOk(v, tok, d);
      ChildIndex(d);
    }
    FlightsRemove(v, w, pos, 0);
    forall j | 0 <= j < |w.flights| ensures FlightOk(tok', w.flights[j]) {
      assert FlightOk(tok, w.flights[j]);
    }
  }
}
