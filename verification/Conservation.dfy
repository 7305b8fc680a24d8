/**
 Whole-run guarantees of reactivation-based scheduling: packages are unique, and no rank of an
 inactive job node is forgotten.
 */
module Conservation {
  import opened Options
  import opened JobNodes
  import opened ChildSessions
  import opened LocalScheduling
  import opened Reactivation
  import T = PackageTokens

  // ---------------------------------------------------------------------
  // Runs
  // ---------------------------------------------------------------------

  /** A step of the protocol. What follows a failed assertion is left open. */
  ghost predicate Next(s: State, ev: Event, s': State)
  {
    Enabled(s, ev) && (Safe(s) ==> s' == Step(s, ev))
  }

  ghost predicate IsRun(tr: seq<State>, evs: seq<Event>)
  {
    && |tr| == |evs| + 1
    && tr[0].scheds == map[] && tr[0].net == []
    && forall i {:trigger evs[i]} :: 0 <= i < |evs| ==> Next(tr[i], evs[i], tr[i + 1])
  }

  lemma {:induction false} RunInv(tr: seq<State>, evs: seq<Event>, i: nat) returns (tok: map<nat, T.Token>)
    requires IsRun(tr, evs) && i < |tr|
    ensures Inv(tr[i], tok)
  {
    if i == 0 {
      tok := map[];
    } else {
      var prev := RunInv(tr, evs, i - 1);
      InvIsSafe(tr[i - 1], prev);
      assert Next(tr[i - 1], evs[i - 1], tr[i]);
      tok := StepKeeps(tr[i - 1], prev, evs[i - 1]);
    }
  }

  // ---------------------------------------------------------------------
  // Exactly one package per child
  // ---------------------------------------------------------------------

  /** The packages in flight which belong to child index c. */
  ghost function Travelling(s: State, c: nat): set<nat>
  {
    set j: nat | j < |s.net| && s.net[j].child == c
  }

  /** The schedulers of child index c which hold a package. */
  ghost function Holding(s: State, c: nat): set<Key>
  {
    set k | k in s.scheds && k.1 == c && !s.scheds[k].suspended
  }

  ghost function Outstanding(s: State, c: nat): nat
  {
    |Travelling(s, c)| + |Holding(s, c)|
  }

  lemma {:induction false} OutstandingIsToken(s: State, tok: map<nat, T.Token>, c: nat)
    requires Inv(s, tok) && c > 0
    ensures c !in tok ==> Outstanding(s, c) == 0
    ensures c in tok ==> Outstanding(s, c) == 1
  {
    var v := ViewOf(s);
    forall j: nat | j in Travelling(s, c)
      ensures c in tok && tok[c].phase != T.Held
    {
      assert T.FlightOk(tok, v.flights[j]);
    }
    forall k | k in Holding(s, c)
      ensures c in tok && tok[c].phase == T.Held && k == (tok[c].child, c)
    {
      assert k in v.active && T.ActiveOk(v, tok, k);
    }
    if c in tok {
      assert T.TokenOk(v, tok, c);
      if tok[c].phase == T.Held {
        assert Holding(s, c) == {(tok[c].child, c)};
        assert Travelling(s, c) == {};
      } else {
        var j: nat :| j < |v.flights| && v.flights[j].child == c;
        forall i: nat | i in Travelling(s, c) ensures i == j {
          assert v.flights[i].child == v.flights[j].child;
        }
        assert Travelling(s, c) == {j};
        assert Holding(s, c) == {};
      }
    } else {
      assert Travelling(s, c) == {} && Holding(s, c) == {};
    }
  }

  /**
   In every reachable state: a session believes that its child has nodes exactly if one package
   is outstanding for that child (on its way down, held by a scheduler which is not suspended, or on
   its way back), and otherwise none is. Both sessions exist exactly if the scheduler is not
   suspended. An arriving package never finds existing sessions.
   */
  lemma {:induction false} ExactlyOnePackage(tr: seq<State>, evs: seq<Event>, i: nat)
    requires IsRun(tr, evs) && i < |tr|
    ensures Safe(tr[i])
    ensures forall k :: k in tr[i].scheds ==>
      var sc := tr[i].scheds[k];
      && (!sc.suspended <==> sc.left.Some?) && (!sc.suspended <==> sc.right.Some?)
      && (!sc.suspended ==>
            && Outstanding(tr[i], 2 * k.1 + 1) == (if sc.left.value.childHasNodes then 1 else 0)
            && Outstanding(tr[i], 2 * k.1 + 2) == (if sc.right.value.childHasNodes then 1 else 0))
  {
    var tok := RunInv(tr, evs, i);
    var s := tr[i];
    InvIsSafe(s, tok);
    forall k | k in s.scheds
      ensures WellFormed(s.scheds[k])
      ensures !s.scheds[k].suspended ==>
        && Outstanding(s, 2 * k.1 + 1) == (if s.scheds[k].left.value.childHasNodes then 1 else 0)
        && Outstanding(s, 2 * k.1 + 2) == (if s.scheds[k].right.value.childHasNodes then 1 else 0)
    {
      assert SchedSane(k, s.scheds[k]);
      if !s.scheds[k].suspended {
        forall c: nat | c == 2 * k.1 + 1 || c == 2 * k.1 + 2
          ensures Outstanding(s, c) == if T.Slot(RoleOf(s.scheds[k]), c).Some? then 1 else 0
        {
          T.SlotIsToken(ViewOf(s), tok, k, c);
          OutstandingIsToken(s, tok, c);
        }
      }
    }
  }

  /** In every reachable state at most one scheduler per job tree index is not suspended. */
  lemma {:induction false} OneActiveSchedulerPerIndex(tr: seq<State>, evs: seq<Event>, i: nat, k: Key, l: Key)
    requires IsRun(tr, evs) && i < |tr| && k in tr[i].scheds && l in tr[i].scheds && k.1 == l.1
    requires !tr[i].scheds[k].suspended && !tr[i].scheds[l].suspended
    ensures k == l
  {
    var tok := RunInv(tr, evs, i);
    assert k in ViewOf(tr[i]).active && l in ViewOf(tr[i]).active;
    T.UniqueActive(ViewOf(tr[i]), tok, k, l);
  }

  // ---------------------------------------------------------------------
  // No rank is forgotten
  // ---------------------------------------------------------------------

  function NodesOf(sc: Sched): seq<Node>
  {
    (if sc.left.Some? then sc.left.value.nodes else []) + (if sc.right.Some? then sc.right.value.nodes else [])
  }

  /** n is recorded in some session or in some package. */
  ghost predicate Recorded(s: State, n: Node)
  {
    || (exists k :: k in s.scheds && n in NodesOf(s.scheds[k]))
    || (exists j :: 0 <= j < |s.net| && n in s.net[j].nodes)
  }

  /** Some record of this rank is marked as lost. */
  ghost predicate MarkedLost(s: State, rank: int)
  {
    exists n :: Recorded(s, n) && n.rank == rank && n.status == Lost
  }

  /** An epoch which an operation writes into the record of a rank. */
  datatype Write = Write(rank: int, epoch: int)

  /** What findAndUpdateNode writes: something only if it finds a record of the rank. */
  function WrittenTo(nodes: seq<Node>, rank: int, index: nat, epoch: int): Option<Write>
  {
    if FindPos(nodes, rank, index) < |nodes| then Some(Write(rank, epoch)) else None
  }

  function JoinWrites(sc: Sched, source: int, epoch: int, child: nat): Option<Write>
  {
    var side := SideByIndex(sc, child);
    if side == Neither then None
    else
      var s := SessionAt(sc, side);
      WrittenTo(Select(s.nodes, s.childIndex, true, false), source, s.childIndex, epoch)
  }

  function RejectionWrites(sc: Sched, epoch: int, child: nat): Option<Write>
  {
    var side := SideByIndex(sc, child);
    if side == Neither then None
    else
      var s := SessionAt(sc, side);
      WrittenTo(s.nodes, s.childRank, s.childIndex, epoch)
  }

  /** The epoch an event writes into the record of a rank, if it finds one. */
  ghost function WrittenBy(s: State, ev: Event): Option<Write>
  {
    match ev
    case Join(rank, index, source, epoch, child) =>
      if (rank, index) in s.scheds then JoinWrites(s.scheds[(rank, index)], source, epoch, child) else None
    case Reject(rank, index, epoch, child, _, _) =>
      if (rank, index) in s.scheds then RejectionWrites(s.scheds[(rank, index)], epoch, child) else None
    case _ => None
  }

  /** The event finds a record of the rank and writes an epoch which is older than e. */
  ghost predicate WritesOlder(s: State, ev: Event, rank: int, e: int)
  {
    var w := WrittenBy(s, ev);
    w.Some? && w.value.rank == rank && w.value.epoch < e
  }

  predicate Frees(ev: Event, rank: int)
  {
    ev.Freed? && ev.freedRank == rank
  }

  /** m takes the place of n: same rank and no older epoch, unless an operation wrote its epoch. */
  predicate Succeeds(m: Node, n: Node, e: Option<Write>)
  {
    m.rank == n.rank && (m.epoch >= n.epoch || e == Some(Write(m.rank, m.epoch)))
  }

  ghost predicate Covered(n: Node, nodes: seq<Node>, e: Option<Write>)
  {
    exists m :: m in nodes && Succeeds(m, n, e)
  }

  ghost predicate LostAmong(nodes: seq<Node>, rank: int)
  {
    exists l :: l in nodes && l.rank == rank && l.status == Lost
  }

  lemma {:induction false} CoveredWithin(n: Node, s: seq<Node>, t: seq<Node>, e: Option<Write>)
    requires Covered(n, s, e) && forall m :: m in s ==> m in t
    ensures Covered(n, t, e)
  {
    var m :| m in s && Succeeds(m, n, e);
    assert m in t;
  }

  lemma {:induction false} CoveredSame(n: Node, s: seq<Node>, t: seq<Node>, e: Option<Write>)
    requires n in s && SameKeys(s, t)
    ensures Covered(n, t, e)
  {
    var j :| 0 <= j < |s| && s[j] == n;
    assert t[j] in t && Succeeds(t[j], n, e);
  }

  /** Between the nodes of a scheduler before an operation and everything it has or sends after it. */
  ghost predicate Conserves(before: seq<Node>, o: Outcome, e: Option<Write>)
  {
    forall n {:trigger n in before} :: n in before ==>
      Covered(n, Everything(o), e) || LostAmong(before, n.rank)
  }

  function PackageNodes(packages: seq<Package>): seq<Node>
  {
    if packages == [] then [] else packages[0].nodes + PackageNodes(packages[1..])
  }

  function Everything(o: Outcome): seq<Node>
  {
    NodesOf(o.sched) + PackageNodes(o.packages)
  }

  /** Merging two sessions and dropping lost nodes. */
  lemma {:induction false} CleanMergeCovers(l: seq<Node>, r: seq<Node>, n: Node)
    requires Ordered(l) && (n in l || n in r)
    ensures Covered(n, Cleaned(Merged(Merged([], l), r)), None) || LostAmong(l + r, n.rank)
  {
    MergeKeepsNewest([], l);
    var a := Merged([], l);
    MergeKeepsNewest(a, r);
    var all := Merged(a, r);
    var n' := n;
    if n !in r {
      n' :| n' in a && n'.rank == n.rank && n'.epoch >= n.epoch;
    }
    var m :| m in all && m.rank == n'.rank && m.epoch >= n'.epoch;
    assert m in l + r;
    if m.status != Lost {
      var c := m.(status := Available);
      assert c in Cleaned(all) && Succeeds(c, n, None);
    }
  }

  lemma {:induction false} OpenedConserves(sc: Sched, epoch: int, volume: int, nodes: seq<Node>, parentRank: int)
    requires Ordered(nodes)
    ensures forall n :: n in nodes ==> Covered(n, Everything(Opened(sc, epoch, volume, nodes, parentRank)), None)
  {
    OpenedForm(sc, epoch, volume, nodes, parentRank);
    var o := Opened(sc, epoch, volume, nodes, parentRank);
    var (l, r) := SplitParts(nodes, sc.index);
    forall n | n in nodes
      ensures Covered(n, Everything(o), None)
    {
      if n in l {
        CoveredSame(n, l, o.sched.left.value.nodes, None);
        CoveredWithin(n, o.sched.left.value.nodes, Everything(o), None);
      } else {
        CoveredSame(n, r, o.sched.right.value.nodes, None);
        CoveredWithin(n, o.sched.right.value.nodes, Everything(o), None);
      }
    }
  }

  lemma {:induction false} ReturnConserves(sc: Sched)
    requires WellFormed(sc) && !sc.suspended
    ensures Conserves(NodesOf(sc), ReturnedToParent(sc), None)
  {
    var o := ReturnedToParent(sc);
    var l, r := sc.left.value.nodes, sc.right.value.nodes;
    var all := AllNodes(sc);
    var own := Node(sc.rank, sc.index, sc.lastEpoch, Available);
    assert o.packages == [o.packages[0]] && PackageNodes(o.packages) == o.packages[0].nodes + PackageNodes([]);
    forall n | n in NodesOf(sc)
      ensures Covered(n, Everything(o), None) || LostAmong(NodesOf(sc), n.rank)
    {
      CleanMergeCovers(l, r, n);
      if Covered(n, Cleaned(all), None) {
        forall m | m in Cleaned(all) ensures m in ReturnedNodes(sc) {
          var m' :| m' in all && m'.status != Lost && m == m'.(status := Available);
          assert m' in Insert(all, own);
        }
        CoveredWithin(n, Cleaned(all), Everything(o), None);
      }
    }
  }

  lemma {:induction false} ReturnIfPossibleConserves(o: Outcome, before: seq<Node>)
    requires WellFormed(o.sched) && o.packages == []
    requires forall n :: n in before ==> Covered(n, NodesOf(o.sched), None)
    requires forall n :: n in NodesOf(o.sched) && n.status == Lost ==> LostAmong(before, n.rank)
    ensures Conserves(before, ReturnedIfPossible(o), None)
  {
    if CanReturn(o.sched) {
      ReturnConserves(o.sched);
      var r := ReturnedToParent(o.sched);
      var q := ReturnedIfPossible(o);
      assert o.packages + r.packages == r.packages;
      assert Everything(q) == Everything(r);
      forall n | n in before
        ensures Covered(n, Everything(q), None) || LostAmong(before, n.rank)
      {
        var m :| m in NodesOf(o.sched) && Succeeds(m, n, None);
        if Covered(m, Everything(r), None) {
          var m' :| m' in Everything(r) && Succeeds(m', m, None);
          assert Succeeds(m', n, None);
        }
      }
    } else {
      forall n | n in before ensures Covered(n, Everything(o), None) {
        CoveredWithin(n, NodesOf(o.sched), Everything(o), None);
      }
    }
  }

  /** The sessions of t are those of sc up to statuses, and the same nodes are lost. */
  ghost predicate OnlyStatuses(s: seq<Node>, t: seq<Node>)
  {
    SameKeys(s, t) && forall j :: 0 <= j < |s| ==> (s[j].status == Lost <==> t[j].status == Lost)
  }

  lemma {:induction false} StatusesConserve(before: seq<Node>, t: Sched)
    requires OnlyStatuses(before, NodesOf(t))
    ensures forall n :: n in before ==> Covered(n, NodesOf(t), None)
    ensures forall n :: n in NodesOf(t) && n.status == Lost ==> LostAmong(before, n.rank)
  {
    forall n | n in before ensures Covered(n, NodesOf(t), None) {
      CoveredSame(n, before, NodesOf(t), None);
    }
    forall n | n in NodesOf(t) && n.status == Lost ensures LostAmong(before, n.rank) {
      var j :| 0 <= j < |NodesOf(t)| && NodesOf(t)[j] == n;
      assert before[j] in before;
    }
  }

  lemma {:induction false} SuspensionConserves(sc: Sched, epoch: int)
    requires WellFormed(sc)
    ensures Conserves(NodesOf(sc), SuspensionBegun(sc, epoch), None)
  {
    var e := if epoch == -1 then Max(sc.lastEpoch, sc.lastSuspension) else epoch;
    var t := sc.(lastSuspension := e, suspending := !sc.suspended);
    assert NodesOf(t) == NodesOf(sc);
    StatusesConserve(NodesOf(sc), t);
    if !sc.suspended {
      ReturnIfPossibleConserves(Outcome(t, [], [], []), NodesOf(sc));
    }
  }

  lemma {:induction false} SameNodesConserve(sc: Sched, o: Outcome)
    requires NodesOf(o.sched) == NodesOf(sc)
    ensures Conserves(NodesOf(sc), o, None)
  {
    forall n | n in NodesOf(sc) ensures Covered(n, Everything(o), None) {
      assert n in Everything(o) && Succeeds(n, n, None);
    }
  }

  lemma {:induction false} UpdateConserves(sc: Sched, epoch: int, volume: int, hasLeft: bool, hasRight: bool)
    requires WellFormed(sc)
    ensures Conserves(NodesOf(sc), Updated(sc, epoch, volume, hasLeft, hasRight), None)
  {
    var o := Updated(sc, epoch, volume, hasLeft, hasRight);
    if sc.lastEpoch >= epoch || sc.suspending || sc.suspended {
      SameNodesConserve(sc, o);
    } else {
      BalancingUpdatedForm(sc.left.value, epoch, volume, hasLeft);
      BalancingUpdatedForm(sc.right.value, epoch, volume, hasRight);
      var l := BalancingUpdated(sc.left.value, epoch, volume, hasLeft).session;
      var r := BalancingUpdated(sc.right.value, epoch, volume, hasRight).session;
      UpdateWithConserves(sc, epoch, volume, l, r, o);
    }
  }

  lemma {:induction false} UpdateWithConserves(sc: Sched, epoch: int, volume: int, l: Session, r: Session, o: Outcome)
    requires WellFormed(sc) && !sc.suspended
    requires Ordered(l.nodes) && OnlyStatuses(sc.left.value.nodes, l.nodes) && l.childIndex == sc.left.value.childIndex
    requires Ordered(r.nodes) && OnlyStatuses(sc.right.value.nodes, r.nodes) &&
      r.childIndex == sc.right.value.childIndex
    requires var u := sc.(lastEpoch := epoch, lastVolume := volume, left := Some(l), right := Some(r));
      || (o.sched == u && o.packages == [])
      || (o.sched == SuspensionBegun(u, epoch).sched && o.packages == SuspensionBegun(u, epoch).packages)
    ensures Conserves(NodesOf(sc), o, None)
  {
    var u := sc.(lastEpoch := epoch, lastVolume := volume, left := Some(l), right := Some(r));
    StatusesConserve(NodesOf(sc), u);
    UpdateConservesFrom(sc, u, epoch, o);
  }

  lemma {:induction false} UpdateConservesFrom(sc: Sched, u: Sched, epoch: int, o: Outcome)
    requires WellFormed(u)
    requires (o.sched == u && o.packages == []) ||
      (o.sched == SuspensionBegun(u, epoch).sched && o.packages == SuspensionBegun(u, epoch).packages)
    requires forall n :: n in NodesOf(sc) ==> Covered(n, NodesOf(u), None)
    requires forall n :: n in NodesOf(u) && n.status == Lost ==> LostAmong(NodesOf(sc), n.rank)
    ensures Conserves(NodesOf(sc), o, None)
  {
    SuspensionConserves(u, epoch);
    var q := SuspensionBegun(u, epoch);
    forall n | n in NodesOf(sc)
      ensures Covered(n, Everything(o), None) || LostAmong(NodesOf(sc), n.rank)
    {
      var m :| m in NodesOf(u) && Succeeds(m, n, None);
      if o.sched == u && o.packages == [] {
        assert m in Everything(o);
      } else {
        assert Everything(o) == Everything(q);
        if Covered(m, Everything(q), None) {
          var m' :| m' in Everything(q) && Succeeds(m', m, None);
          assert Succeeds(m', n, None);
        }
      }
    }
  }

  /** What replaces one session of a scheduler leaves the other one alone. */
  lemma {:induction false} SideConserves(sc: Sched, side: Side, t: Session, packages: seq<Package>, o: Outcome,
      e: Option<Write>)
    requires WellFormed(sc) && !sc.suspended && side != Neither
    requires o.sched == WithSession(sc, side, t) && o.packages == packages
    requires forall n :: n in SessionAt(sc, side).nodes ==>
               Covered(n, t.nodes + PackageNodes(packages), e) || LostAmong(SessionAt(sc, side).nodes, n.rank)
    ensures Conserves(NodesOf(sc), o, e)
  {
    forall n | n in NodesOf(sc)
      ensures Covered(n, Everything(o), e) || LostAmong(NodesOf(sc), n.rank)
    {
      if n in SessionAt(sc, side).nodes {
        if Covered(n, t.nodes + PackageNodes(packages), e) {
          CoveredWithin(n, t.nodes + PackageNodes(packages), Everything(o), e);
        }
      } else {
        assert n in Everything(o) && Succeeds(n, n, e);
      }
    }
  }

  lemma {:induction false} HandedOverCovers(s: Session, e: Option<Write>, n: Node)
    requires n in s.nodes && InSubtree(s.childIndex, true, n.index)
    ensures Covered(n, NodesForChild(s), e) || LostAmong(s.nodes, n.rank)
  {
    if n.status != Lost {
      assert n in Select(s.nodes, s.childIndex, true, true);
      var m := n.(status := Available);
      assert m in NodesForChild(s) && Succeeds(m, n, e);
    }
  }

  lemma {:induction false} StayingCovers(s: Session, source: int, epoch: int, n: Node)
    requires Ordered(s.nodes) && n in Select(s.nodes, s.childIndex, true, false)
    ensures Covered(n, ChildJoined(s, source, epoch).session.nodes,
                    WrittenTo(Select(s.nodes, s.childIndex, true, false), source, s.childIndex, epoch))
  {
    var t := ChildJoined(s, source, epoch).session;
    var rest := Select(s.nodes, s.childIndex, true, false);
    var f := FoundAndUpdated(rest, source, s.childIndex, epoch, Busy);
    UpdateKeepsRanks(rest, source, s.childIndex, epoch, Busy);
    assert t.nodes == Notified(f, -1);
    CoveredByKeys(n, f, t.nodes, source, epoch, FindPos(rest, source, s.childIndex) < |rest|);
  }

  lemma {:induction false} ChildJoinedCovers(s: Session, source: int, epoch: int, n: Node)
    requires Ordered(s.nodes) && n in s.nodes
    ensures Covered(n, ChildJoined(s, source, epoch).session.nodes + NodesForChild(s),
                    WrittenTo(Select(s.nodes, s.childIndex, true, false), source, s.childIndex, epoch))
         || LostAmong(s.nodes, n.rank)
  {
    var t := ChildJoined(s, source, epoch).session.nodes;
    var e := WrittenTo(Select(s.nodes, s.childIndex, true, false), source, s.childIndex, epoch);
    if InSubtree(s.childIndex, true, n.index) {
      HandedOverCovers(s, e, n);
      if Covered(n, NodesForChild(s), e) {
        CoveredWithin(n, NodesForChild(s), t + NodesForChild(s), e);
      }
    } else {
      StayingCovers(s, source, epoch, n);
      CoveredWithin(n, t, t + NodesForChild(s), e);
    }
  }

  lemma {:induction false} JoinConserves(sc: Sched, source: int, epoch: int, child: nat)
    requires WellFormed(sc) && AcceptsChild(sc, child)
    ensures Conserves(NodesOf(sc), JoiningHandled(sc, source, epoch, child), JoinWrites(sc, source, epoch, child))
  {
    var e := JoinWrites(sc, source, epoch, child);
    var side := SideByIndex(sc, child);
    var s := SessionAt(sc, side);
    var t := ChildJoined(s, source, epoch).session;
    var o := JoiningHandled(sc, source, epoch, child);
    assert PackageNodes(o.packages) == NodesForChild(s) + PackageNodes([]);
    assert PackageNodes(o.packages) == NodesForChild(s);
    forall n | n in s.nodes
      ensures Covered(n, t.nodes + PackageNodes(o.packages), e) || LostAmong(s.nodes, n.rank)
    {
      ChildJoinedCovers(s, source, epoch, n);
    }
    SideConserves(sc, side, t, o.packages, o, e);
  }

  lemma {:induction false} RejectedCovers(s: Session, epoch: int, lost: bool, hasChild: bool, suspended: bool, n: Node)
    requires Ordered(s.nodes) && n in s.nodes
    ensures Covered(n, Rejected(s, epoch, lost, hasChild, suspended).session.nodes,
                    WrittenTo(s.nodes, s.childRank, s.childIndex, epoch))
  {
    var status := if lost then Lost else Busy;
    var f := FoundAndUpdated(s.nodes, s.childRank, s.childIndex, epoch, status);
    UpdateKeepsRanks(s.nodes, s.childRank, s.childIndex, epoch, status);
    RecruitedFacts(s.(nodes := f));
    CoveredByKeys(n, f, Rejected(s, epoch, lost, hasChild, suspended).session.nodes, s.childRank, epoch,
                  FindPos(s.nodes, s.childRank, s.childIndex) < |s.nodes|);
  }

  lemma {:induction false} CoveredByKeys(n: Node, f: seq<Node>, nodes: seq<Node>, rank: int, epoch: int, found: bool)
    requires SameKeys(f, nodes)
    requires exists m ::
      m in f && m.rank == n.rank && (m.epoch >= n.epoch || (m.epoch == epoch && n.rank == rank && found))
    ensures Covered(n, nodes, if found then Some(Write(rank, epoch)) else None)
  {
    var m :| m in f && m.rank == n.rank && (m.epoch >= n.epoch || (m.epoch == epoch && n.rank == rank && found));
    var j :| 0 <= j < |f| && f[j] == m;
    assert SameKey(nodes[j], m) && nodes[j] in nodes;
    assert Succeeds(nodes[j], n, if found then Some(Write(rank, epoch)) else None);
  }

  lemma {:induction false} RejectionConserves(sc: Sched, epoch: int, child: nat, lost: bool, hasChild: bool)
    requires WellFormed(sc)
    ensures Conserves(NodesOf(sc), RejectionHandled(sc, epoch, child, lost, hasChild),
      RejectionWrites(sc, epoch, child))
  {
    var side, e := SideByIndex(sc, child), RejectionWrites(sc, epoch, child);
    var o := RejectionHandled(sc, epoch, child, lost, hasChild);
    if side == Neither {
      forall n | n in NodesOf(sc) ensures Covered(n, Everything(o), e) {
        assert n in Everything(o) && Succeeds(n, n, e);
      }
    } else {
      var s := SessionAt(sc, side);
      var t := Rejected(s, epoch, lost, hasChild, sc.suspended || sc.suspending).session;
      forall n | n in s.nodes ensures Covered(n, t.nodes + PackageNodes([]), e) {
        RejectedCovers(s, epoch, lost, hasChild, sc.suspended || sc.suspending, n);
        CoveredWithin(n, t.nodes, t.nodes + PackageNodes([]), e);
      }
      SideConserves(sc, side, t, [], o, e);
    }
  }

  lemma {:induction false} ResumptionConserves(sc: Sched)
    requires WellFormed(sc) && sc.index == 0 && sc.suspending && !sc.suspended && !ChildrenHaveNodes(sc)
    ensures Conserves(NodesOf(sc), ResumptionBegun(sc), None)
  {
    var t := sc.(resuming := true);
    var c := t.(resuming := false, suspending := false, left := None, right := None);
    var all := Cleaned(AllNodes(t));
    OpenedConserves(c, Max(t.lastEpoch, t.lastSuspension), t.lastVolume, all, t.parentRank);
    var o := ResumptionBegun(sc);
    forall n | n in NodesOf(sc)
      ensures Covered(n, Everything(o), None) || LostAmong(NodesOf(sc), n.rank)
    {
      CleanMergeCovers(sc.left.value.nodes, sc.right.value.nodes, n);
      if Covered(n, all, None) {
        var m :| m in all && Succeeds(m, n, None);
        var m' :| m' in Everything(o) && Succeeds(m', m, None);
        assert Succeeds(m', n, None);
      }
    }
  }

  lemma {:induction false} InitConserves(sc: Sched, p: Package)
    requires WellFormed(sc) && !sc.resuming && sc.suspended && Ordered(p.nodes)
    ensures Conserves(NodesOf(sc) + p.nodes, InitHandled(sc, p), None)
  {
    InitEffect(sc, p);
    var o := InitHandled(sc, p);
    if IsPast(sc, p.epoch) {
      assert PackageNodes(o.packages) == p.nodes + PackageNodes([]);
      forall n | n in NodesOf(sc) + p.nodes ensures Covered(n, Everything(o), None) {
        assert n in Everything(o) && Succeeds(n, n, None);
      }
    } else {
      OpenedForm(sc, p.epoch, p.volume, p.nodes, p.src);
      assert o == Opened(sc, p.epoch, p.volume, p.nodes, p.src);
      OpenedConserves(sc, p.epoch, p.volume, p.nodes, p.src);
    }
  }

  /** A returned list merged into a session: the newest record of each rank stays. */
  lemma {:induction false} ReturnedCovers(s: Session, nodes: seq<Node>, n: Node)
    requires Ordered(s.nodes) && (n in s.nodes || n in nodes)
    ensures Covered(n, NodesReturned(s, nodes).nodes, None)
  {
    MergeKeepsNewest(s.nodes, nodes);
    var m :| m in Merged(s.nodes, nodes) && m.rank == n.rank && m.epoch >= n.epoch;
    assert Succeeds(m, n, None);
  }

  lemma {:induction false} ReturnHandledConserves(sc: Sched, p: Package)
    requires WellFormed(sc) && !sc.resuming && !sc.suspended && p.child > 0 && ParentIndex(p.child) == sc.index
    requires T.Slot(RoleOf(sc), p.child) == Some(p.src) && T.DifferentRanks(RoleOf(sc))
    ensures Conserves(NodesOf(sc) + p.nodes, ReturnHandled(sc, p), None)
  {
    ReturnEffect(sc, p);
    var side := SideByRank(sc, p.src);
    var s := SessionAt(sc, side);
    var t := WithSession(sc, side, NodesReturned(s, p.nodes));
    var before := NodesOf(sc) + p.nodes;
    MergeKeepsNewest(s.nodes, p.nodes);
    forall n | n in before ensures Covered(n, NodesOf(t), None) {
      if n in s.nodes || n in p.nodes {
        ReturnedCovers(s, p.nodes, n);
        CoveredWithin(n, NodesReturned(s, p.nodes).nodes, NodesOf(t), None);
      } else {
        assert n in NodesOf(t) && Succeeds(n, n, None);
      }
    }
    ReturnIfPossibleConserves(Outcome(t, [], [], []), before);
  }

  // ---------------------------------------------------------------------
  // Steps and runs
  // ---------------------------------------------------------------------

  ghost predicate Survives(s: State, n: Node, e: Option<Write>)
  {
    exists m :: Recorded(s, m) && Succeeds(m, n, e)
  }

  lemma {:induction false} EverythingRecorded(s: State, k: Key, o: Outcome, m: Node)
    requires m in Everything(o)
    ensures Recorded(Apply(s, k, o), m)
  {
    var s' := Apply(s, k, o);
    if m in NodesOf(o.sched) {
      assert k in s'.scheds && m in NodesOf(s'.scheds[k]);
    } else {
      var j := PackageOf(o.packages, m);
      assert s'.net[|s.net| + j] == o.packages[j];
    }
  }

  lemma {:induction false} PackageOf(packages: seq<Package>, m: Node) returns (j: nat)
    requires m in PackageNodes(packages)
    ensures j < |packages| && m in packages[j].nodes
  {
    if m in packages[0].nodes {
      j := 0;
    } else {
      j := PackageOf(packages[1..], m);
      j := j + 1;
    }
  }

  lemma {:induction false} RecordedElsewhere(s: State, k: Key, o: Outcome, n: Node)
    requires Recorded(s, n) && (k in s.scheds ==> n !in NodesOf(s.scheds[k]))
    ensures Recorded(Apply(s, k, o), n)
  {
    var s' := Apply(s, k, o);
    if l :| l in s.scheds && n in NodesOf(s.scheds[l]) {
      assert l in s'.scheds && n in NodesOf(s'.scheds[l]);
    } else {
      var j :| 0 <= j < |s.net| && n in s.net[j].nodes;
      assert s'.net[j] == s.net[j];
    }
  }

  /** s is the state before the step, u the same state without the package being handled. */
  lemma {:induction false} ApplyConserves(s: State, u: State, k: Key, o: Outcome, before: seq<Node>, e: Option<Write>,
      n: Node)
    requires Conserves(before, o, e)
    requires forall m :: m in before ==> Recorded(s, m)
    requires k in u.scheds ==> forall m :: m in NodesOf(u.scheds[k]) ==> m in before
    requires Recorded(u, n) || n in before
    ensures Survives(Apply(u, k, o), n, e) || MarkedLost(s, n.rank)
  {
    if n in before {
      if Covered(n, Everything(o), e) {
        var m :| m in Everything(o) && Succeeds(m, n, e);
        EverythingRecorded(u, k, o, m);
      } else {
        var l :| l in before && l.rank == n.rank && l.status == Lost;
        assert Recorded(s, l);
      }
    } else {
      RecordedElsewhere(u, k, o, n);
      assert Succeeds(n, n, e);
    }
  }

  lemma {:induction false} RecordedAt(s: State, k: Key, n: Node)
    requires k in s.scheds && n in NodesOf(s.scheds[k])
    ensures Recorded(s, n)
  {
  }

  lemma {:induction false} LocalConserves(s: State, k: Key, o: Outcome, e: Option<Write>, n: Node)
    requires k in s.scheds && Conserves(NodesOf(s.scheds[k]), o, e) && Recorded(s, n)
    ensures Survives(Apply(s, k, o), n, e) || MarkedLost(s, n.rank)
  {
    forall m | m in NodesOf(s.scheds[k]) ensures Recorded(s, m) {
      RecordedAt(s, k, m);
    }
    ApplyConserves(s, s, k, o, NodesOf(s.scheds[k]), e, n);
  }

  lemma {:induction false} ErasedConserves(s: State, k: Key, n: Node)
    requires k in s.scheds && NodesOf(s.scheds[k]) == [] && Recorded(s, n)
    ensures Recorded(s.(scheds := s.scheds - {k}), n)
  {
    var s' := s.(scheds := s.scheds - {k});
    if l :| l in s.scheds && n in NodesOf(s.scheds[l]) {
      assert l in s'.scheds && n in NodesOf(s'.scheds[l]);
    }
  }

  lemma {:induction false} SuspendConserves(s: State, tok: map<nat, T.Token>, k: Key, n: Node)
    requires Inv(s, tok) && k in s.scheds && WellFormed(s.scheds[k]) && Recorded(s, n)
    ensures Survives(Suspended(s, k), n, None) || MarkedLost(s, n.rank)
  {
    assert SchedSane(k, s.scheds[k]);
    var sc := s.scheds[k];
    var s' := s;
    if !sc.suspended && !sc.suspending {
      SuspensionEffect(sc, -1);
      SuspensionConserves(sc, -1);
      s' := Apply(s, k, SuspensionBegun(sc, -1));
      LocalConserves(s, k, SuspensionBegun(sc, -1), None, n);
    } else {
      assert Succeeds(n, n, None);
    }
    if k.1 > 0 && s'.scheds[k].suspended && Survives(s', n, None) {
      assert NodesOf(s'.scheds[k]) == [];
      var m :| Recorded(s', m) && Succeeds(m, n, None);
      ErasedConserves(s', k, m);
    }
  }

  lemma {:induction false} RecordedWithout(s: State, pos: nat, n: Node)
    requires pos < |s.net| && Recorded(s, n)
    ensures Recorded(s.(net := RemoveAt(s.net, pos)), n) || n in s.net[pos].nodes
  {
    var u := s.(net := RemoveAt(s.net, pos));
    if l :| l in s.scheds && n in NodesOf(s.scheds[l]) {
      assert l in u.scheds && n in NodesOf(u.scheds[l]);
    } else {
      var j :| 0 <= j < |s.net| && n in s.net[j].nodes;
      if j != pos {
        assert u.net[if j < pos then j else j - 1] == s.net[j];
      }
    }
  }

  /** The package is for a scheduler which exists. */
  lemma {:induction false} HandledConserves(s: State, pos: nat, k: Key, o: Outcome, n: Node)
    requires pos < |s.net| && Recorded(s, n) && k in s.scheds &&
      Conserves(NodesOf(s.scheds[k]) + s.net[pos].nodes, o, None)
    ensures Survives(Apply(s.(net := RemoveAt(s.net, pos)), k, o), n, None) || MarkedLost(s, n.rank)
  {
    var u, before := s.(net := RemoveAt(s.net, pos)), NodesOf(s.scheds[k]) + s.net[pos].nodes;
    RecordedWithout(s, pos, n);
    forall m | m in before ensures Recorded(s, m) {
      if m in NodesOf(s.scheds[k]) { RecordedAt(s, k, m); }
    }
    ApplyConserves(s, u, k, o, before, None, n);
  }

  /** The package is for a scheduler which does not exist: it goes back if it came from a parent. */
  lemma {:induction false} BouncedConserves(s: State, pos: nat, n: Node)
    requires Safe(s) && pos < |s.net| && Recorded(s, n)
    requires (s.net[pos].dst, s.net[pos].destIndex) !in s.scheds && s.net[pos].tag == InitializeChild
    ensures Recorded(Step(s, Deliver(pos)), n)
  {
    var u, s' := s.(net := RemoveAt(s.net, pos)), Step(s, Deliver(pos));
    RecordedWithout(s, pos, n);
    if Recorded(u, n) {
      if l :| l in u.scheds && n in NodesOf(u.scheds[l]) {
        assert l in s'.scheds && n in NodesOf(s'.scheds[l]);
      } else {
        var j :| 0 <= j < |u.net| && n in u.net[j].nodes;
        assert s'.net[j] == u.net[j];
      }
    } else {
      assert s'.net[|u.net|].nodes == s.net[pos].nodes;
    }
  }

  lemma {:induction false} HandledStep(s: State, pos: nat)
    requires Safe(s) && pos < |s.net| && (s.net[pos].dst, s.net[pos].destIndex) in s.scheds
    ensures var p := s.net[pos];
      var k := (p.dst, p.destIndex);
      Step(s, Deliver(pos)) == Apply(s.(net := RemoveAt(s.net, pos)), k,
        if p.tag == InitializeChild then InitHandled(s.scheds[k], p) else ReturnHandled(s.scheds[k], p))
  {
  }

  lemma {:induction false} ReturnDelivered(s: State, tok: map<nat, T.Token>, pos: nat)
    requires Inv(s, tok) && Safe(s) && pos < |s.net| && s.net[pos].tag == ReturnNodes
    ensures var p := s.net[pos];
      var k := (p.dst, p.destIndex);
      k in s.scheds && Conserves(NodesOf(s.scheds[k]) + p.nodes, ReturnHandled(s.scheds[k], p), None)
  {
    ReturnFindsSession(s, tok, pos);
    ReturnHandledConserves(s.scheds[(s.net[pos].dst, s.net[pos].destIndex)], s.net[pos]);
  }

  lemma {:induction false} InitDelivered(s: State, tok: map<nat, T.Token>, pos: nat)
    requires Inv(s, tok) && Safe(s) && pos < |s.net| && s.net[pos].tag == InitializeChild
    requires (s.net[pos].dst, s.net[pos].destIndex) in s.scheds
    ensures var p := s.net[pos];
      var k := (p.dst, p.destIndex);
      Conserves(NodesOf(s.scheds[k]) + p.nodes, InitHandled(s.scheds[k], p), None)
  {
    var k := (s.net[pos].dst, s.net[pos].destIndex);
    assert SchedSane(k, s.scheds[k]);
    InitConserves(s.scheds[k], s.net[pos]);
  }

  lemma {:induction false} DeliverConserves(s: State, tok: map<nat, T.Token>, pos: nat, n: Node)
    requires Inv(s, tok) && Safe(s) && pos < |s.net| && Recorded(s, n)
    ensures Survives(Step(s, Deliver(pos)), n, None) || MarkedLost(s, n.rank)
  {
    var p := s.net[pos];
    var k := (p.dst, p.destIndex);
    if p.tag == ReturnNodes {
      ReturnDelivered(s, tok, pos);
      HandledConserves(s, pos, k, ReturnHandled(s.scheds[k], p), n);
      HandledStep(s, pos);
    } else if k in s.scheds {
      InitDelivered(s, tok, pos);
      HandledConserves(s, pos, k, InitHandled(s.scheds[k], p), n);
      HandledStep(s, pos);
    } else {
      BouncedConserves(s, pos, n);
      assert Succeeds(n, n, None);
    }
  }

  lemma {:induction false} FreedConserves(s: State, k: Key, freedRank: int, epoch: int, n: Node)
    requires k in s.scheds && Recorded(s, n)
    ensures var s' := s.(scheds := s.scheds[k := NodeFreed(s.scheds[k], freedRank, epoch, k.1)]);
            Recorded(s', n) || n.rank == freedRank
  {
    var t := NodeFreed(s.scheds[k], freedRank, epoch, k.1);
    var s' := s.(scheds := s.scheds[k := t]);
    if l :| l in s.scheds && n in NodesOf(s.scheds[l]) {
      if n.rank != freedRank {
        assert n in NodesOf(s'.scheds[l]);
      }
    } else {
      var j :| 0 <= j < |s.net| && n in s.net[j].nodes;
      assert s'.net[j] == s.net[j];
    }
  }

  /**
   One step: a record stays, or is replaced by one of the same rank which is no older (or carries
   the epoch that the event wrote into the record which it found), unless the rank has been marked
   as lost or is being freed.
   */
  lemma {:induction false} StepConserves(s: State, tok: map<nat, T.Token>, ev: Event, n: Node)
    requires Inv(s, tok) && Safe(s) && Enabled(s, ev) && Recorded(s, n)
    ensures Survives(Step(s, ev), n, WrittenBy(s, ev)) || MarkedLost(s, n.rank) || Frees(ev, n.rank)
  {
    var e := WrittenBy(s, ev);
    assert Succeeds(n, n, e);
    match ev
    case RootStart(epoch, client) =>
      var k := (s.root, 0);
      assert k in s.scheds ==> SchedSane(k, s.scheds[k]);
      var sc := if k in s.scheds then s.scheds[k] else NewScheduler(s.root, 0, client);
      RecordedElsewhere(s, k, Initialized(sc, if epoch < 0 then 0 else epoch, -1, [], client), n);
    case RootResume =>
      var k := (s.root, 0);
      assert SchedSane(k, s.scheds[k]);
      ResumptionConserves(s.scheds[k]);
      LocalConserves(s, k, ResumptionBegun(s.scheds[k]), e, n);
    case Commit(rank, index, parentRank) =>
      var k := (rank, index);
      assert k in s.scheds ==> SchedSane(k, s.scheds[k]);
      var sc := if k in s.scheds then s.scheds[k] else NewScheduler(rank, index, parentRank);
      RecordedElsewhere(s, k, Outcome(RoleReset(sc), [], [], []), n);
      assert s.net + [] == s.net;
    case Join(rank, index, source, epoch, child) =>
      JoinConserves(s.scheds[(rank, index)], source, epoch, child);
      LocalConserves(s, (rank, index), JoiningHandled(s.scheds[(rank, index)], source, epoch, child), e, n);
    case Reject(rank, index, epoch, child, lost, hasChild) =>
      RejectionConserves(s.scheds[(rank, index)], epoch, child, lost, hasChild);
      LocalConserves(s, (rank, index), RejectionHandled(s.scheds[(rank, index)], epoch, child, lost, hasChild), e, n);
    case Balance(rank, index, epoch, volume, hasLeft, hasRight) =>
      UpdateConserves(s.scheds[(rank, index)], epoch, volume, hasLeft, hasRight);
      LocalConserves(s, (rank, index), Updated(s.scheds[(rank, index)], epoch, volume, hasLeft, hasRight), e, n);
    case Suspend(rank, index) =>
      SuspendConserves(s, tok, (rank, index), n);
    case Forget(rank, index) =>
      assert SchedSane((rank, index), s.scheds[(rank, index)]);
      ErasedConserves(s, (rank, index), n);
    case Freed(rank, index, freedRank, epoch) =>
      FreedConserves(s, (rank, index), freedRank, epoch, n);
    case Deliver(pos) =>
      DeliverConserves(s, tok, pos, n);
  }

  /**
   Whole runs: from any point i of a run to any later point j, every recorded rank stays recorded in
   some session or package unless in between it was marked as lost or explicitly freed. Its record
   is not replaced by an older one unless an event in between found a record of this very rank and
   wrote an older epoch into it.
   */
  lemma {:induction false} NoRankIsForgotten(tr: seq<State>, evs: seq<Event>, i: nat, j: nat, n: Node)
    returns (m: Node)
    requires IsRun(tr, evs) && i <= j < |tr| && Recorded(tr[i], n)
    requires forall t :: i <= t < j ==> !MarkedLost(tr[t], n.rank) && !Frees(evs[t], n.rank)
    ensures Recorded(tr[j], m) && m.rank == n.rank
    ensures (forall t :: i <= t < j ==> !WritesOlder(tr[t], evs[t], n.rank, n.epoch)) ==> m.epoch >= n.epoch
    decreases j
  {
    if i == j {
      m := n;
    } else {
      var q := j - 1;
      var p := NoRankIsForgotten(tr, evs, i, q, n);
      m := RankSurvives(tr, evs, q, j, p, n.rank);
      assert p.epoch >= n.epoch && !WritesOlder(tr[q], evs[q], n.rank, n.epoch) ==> m.epoch >= n.epoch;
    }
  }

  /** The same for a single step of a run. */
  lemma {:induction false} RankSurvives(tr: seq<State>, evs: seq<Event>, t: nat, u: nat, n: Node, rank: int)
    returns (m: Node)
    requires IsRun(tr, evs) && u == t + 1 <= |evs| && Recorded(tr[t], n) && n.rank == rank
    requires !MarkedLost(tr[t], rank) && !Frees(evs[t], rank)
    ensures Recorded(tr[u], m) && Succeeds(m, n, WrittenBy(tr[t], evs[t]))
  {
    var tok := RunIsSafe(tr, evs, t);
    var ev, s' := evs[t], tr[u];
    StepConserves(tr[t], tok, ev, n);
    var e := WrittenBy(tr[t], ev);
    assert Survives(s', n, e);
    m :| Recorded(s', m) && Succeeds(m, n, e);
  }

  lemma {:induction false} RunIsSafe(tr: seq<State>, evs: seq<Event>, t: nat) returns (tok: map<nat, T.Token>)
    requires IsRun(tr, evs) && t < |tr|
    ensures Inv(tr[t], tok) && Safe(tr[t])
  {
    tok := RunInv(tr, evs, t);
    InvIsSafe(tr[t], tok);
  }

  // ---------------------------------------------------------------------
  // Suspension completes
  // ---------------------------------------------------------------------

  /** No scheduler keeps a package which it could return. */
  ghost predicate Eager(s: State)
  {
    forall k {:trigger CanReturn(s.scheds[k])} :: k in s.scheds ==> !CanReturn(s.scheds[k])
  }

  lemma {:induction false} UpdatedIsEager(sc: Sched, epoch: int, volume: int, hasLeft: bool, hasRight: bool)
    requires WellFormed(sc) && !CanReturn(sc)
    ensures !CanReturn(Updated(sc, epoch, volume, hasLeft, hasRight).sched)
  {
    if sc.lastEpoch < epoch && !sc.suspending && !sc.suspended {
      UpdatedKeepsForm(sc, epoch, volume, hasLeft, hasRight);
    }
  }

  lemma {:induction false} RejectionIsEager(sc: Sched, epoch: int, child: nat, lost: bool, hasChild: bool)
    requires WellFormed(sc) && !CanReturn(sc)
    ensures !CanReturn(RejectionHandled(sc, epoch, child, lost, hasChild).sched)
  {
    var side := SideByIndex(sc, child);
    if side != Neither {
      RejectedFacts(SessionAt(sc, side), epoch, lost, hasChild, sc.suspended || sc.suspending);
    }
  }

  lemma {:induction false} SettledIsEager(o: Outcome)
    requires WellFormed(o.sched) && !o.sched.resuming
    ensures !CanReturn(Settled(o).sched)
  {
  }

  lemma {:induction false} InitIsEager(sc: Sched, p: Package)
    requires WellFormed(sc) && !sc.resuming && sc.suspended && Ordered(p.nodes)
    ensures !CanReturn(InitHandled(sc, p).sched)
  {
    InitializedForm(sc, p.epoch, p.volume, p.nodes, p.src);
    OpenedForm(sc, p.epoch, p.volume, p.nodes, p.src);
    SettledIsEager(Initialized(sc, p.epoch, p.volume, p.nodes, p.src));
  }

  lemma {:induction false} ReturnIsEager(sc: Sched, p: Package)
    requires WellFormed(sc) && !sc.resuming
    ensures !CanReturn(ReturnHandled(sc, p).sched)
  {
    var side := SideByRank(sc, p.src);
    if side == Neither {
      SettledIsEager(Outcome(sc, [], [], []));
    } else {
      SettledIsEager(Outcome(WithSession(sc, side, NodesReturned(SessionAt(sc, side), p.nodes)), [], [], []));
    }
  }

  /** One scheduler changes. */
  lemma {:induction false} EagerAfter(s: State, k: Key, t: Sched, s': State)
    requires Eager(s) && !CanReturn(t) && s'.scheds == s.scheds[k := t]
    ensures Eager(s')
  {
    forall l | l in s'.scheds ensures !CanReturn(s'.scheds[l]) {
      assert l != k ==> !CanReturn(s.scheds[l]);
    }
  }

  lemma {:induction false} StepIsEager(s: State, tok: map<nat, T.Token>, ev: Event)
    requires Inv(s, tok) && Safe(s) && Enabled(s, ev) && Eager(s)
    ensures Eager(Step(s, ev))
  {
    var s', k := Step(s, ev), (s.root, 0);
    match ev
    case RootStart(_, _) =>
      assert k in s.scheds ==> SchedSane(k, s.scheds[k]);
      EagerAfter(s, k, s'.scheds[k], s');
    case RootResume =>
      assert SchedSane(k, s.scheds[k]);
      ResumptionEffect(s.scheds[k]);
      EagerAfter(s, k, s'.scheds[k], s');
    case Commit(rank, index, _) =>
      assert (rank, index) in s.scheds ==> SchedSane((rank, index), s.scheds[(rank, index)]);
      EagerAfter(s, (rank, index), s'.scheds[(rank, index)], s');
    case Join(rank, index, source, epoch, child) =>
      assert SchedSane((rank, index), s.scheds[(rank, index)]);
      JoinEffect(s.scheds[(rank, index)], source, epoch, child);
      EagerAfter(s, (rank, index), s'.scheds[(rank, index)], s');
    case Reject(rank, index, epoch, child, lost, hasChild) =>
      RejectionIsEager(s.scheds[(rank, index)], epoch, child, lost, hasChild);
      EagerAfter(s, (rank, index), s'.scheds[(rank, index)], s');
    case Balance(rank, index, epoch, volume, hasLeft, hasRight) =>
      UpdatedIsEager(s.scheds[(rank, index)], epoch, volume, hasLeft, hasRight);
      EagerAfter(s, (rank, index), s'.scheds[(rank, index)], s');
    case Suspend(rank, index) => SuspendIsEager(s, (rank, index));
    case Forget(_, _) => assert forall l :: l in s'.scheds ==> s'.scheds[l] == s.scheds[l];
    case Freed(rank, index, _, _) =>
      assert !CanReturn(s.scheds[(rank, index)]);
      EagerAfter(s, (rank, index), s'.scheds[(rank, index)], s');
    case Deliver(pos) => DeliverIsEager(s, tok, pos);
  }

  lemma {:induction false} SuspendIsEager(s: State, k: Key)
    requires Eager(s) && k in s.scheds && WellFormed(s.scheds[k])
    ensures Eager(Suspended(s, k))
  {
    var sc := s.scheds[k];
    if !sc.suspended && !sc.suspending {
      var o := SuspensionBegun(sc, -1);
      EagerAfter(s, k, o.sched, Apply(s, k, o));
    }
  }

  lemma {:induction false} DeliverIsEager(s: State, tok: map<nat, T.Token>, pos: nat)
    requires Inv(s, tok) && Safe(s) && pos < |s.net| && Eager(s)
    ensures Eager(Step(s, Deliver(pos)))
  {
    var p := s.net[pos];
    var k := (p.dst, p.destIndex);
    if k in s.scheds {
      assert SchedSane(k, s.scheds[k]);
      if p.tag == InitializeChild { InitIsEager(s.scheds[k], p); } else { ReturnIsEager(s.scheds[k], p); }
      HandledStep(s, pos);
      EagerAfter(s, k, Step(s, Deliver(pos)).scheds[k], Step(s, Deliver(pos)));
    } else {
      assert Step(s, Deliver(pos)).scheds == s.scheds;
    }
  }

  lemma {:induction false} RunEager(tr: seq<State>, evs: seq<Event>, i: nat)
    requires IsRun(tr, evs) && i < |tr|
    ensures Eager(tr[i])
  {
    if i > 0 {
      RunEager(tr, evs, i - 1);
      var tok := RunInv(tr, evs, i - 1);
      InvIsSafe(tr[i - 1], tok);
      assert Next(tr[i - 1], evs[i - 1], tr[i]);
      StepIsEager(tr[i - 1], tok, evs[i - 1]);
    }
  }

  /** All schedulers with a package, below a given index. */
  ghost function ActiveBelow(s: State, index: nat): set<Key>
  {
    set k | k in s.scheds && !s.scheds[k].suspended && k.1 > index
  }

  /** A suspending scheduler waits for a child; without packages in flight, that child is active. */
  lemma {:induction false} NobodyWaitsForever(s: State, tok: map<nat, T.Token>, k: Key)
    requires Inv(s, tok) && Eager(s) && s.net == []
    requires forall l :: l in s.scheds && l.1 > 0 && !s.scheds[l].suspended ==> s.scheds[l].suspending
    requires k in s.scheds && k.1 > 0
    ensures s.scheds[k].suspended
    decreases |ActiveBelow(s, k.1)|
  {
    if !s.scheds[k].suspended {
      assert !CanReturn(s.scheds[k]) && SchedSane(k, s.scheds[k]);
      var c := if s.scheds[k].left.value.childHasNodes then 2 * k.1 + 1 else 2 * k.1 + 2;
      var v := ViewOf(s);
      T.SlotIsToken(v, tok, k, c);
      assert T.TokenOk(v, tok, c);
      var l := (tok[c].child, c);
      assert l in ActiveBelow(s, k.1) && ActiveBelow(s, c) < ActiveBelow(s, k.1);
      SetSize(ActiveBelow(s, c), ActiveBelow(s, k.1));
      NobodyWaitsForever(s, tok, l);
    }
  }

  lemma {:induction false} SetSize<X>(a: set<X>, b: set<X>)
    requires a < b
    ensures |a| < |b|
  {
    var x :| x in b && x !in a;
    assert b == a + {x} + (b - a - {x});
  }

  /** Without packages in flight, only the root's sessions have records. */
  lemma {:induction false} CompletedRecords(s: State, tok: map<nat, T.Token>)
    requires Inv(s, tok) && Eager(s) && s.net == []
    requires forall k :: k in s.scheds && k.1 > 0 && !s.scheds[k].suspended ==> s.scheds[k].suspending
    ensures forall n :: Recorded(s, n) ==> (s.root, 0) in s.scheds && n in NodesOf(s.scheds[(s.root, 0)])
  {
    forall k | k in s.scheds && k.1 > 0 ensures s.scheds[k].suspended {
      NobodyWaitsForever(s, tok, k);
    }
    forall k | k in s.scheds && NodesOf(s.scheds[k]) != [] ensures k == (s.root, 0) {
      assert SchedSane(k, s.scheds[k]);
      assert T.ActiveOk(ViewOf(s), tok, k);
    }
    forall n | Recorded(s, n) ensures (s.root, 0) in s.scheds && n in NodesOf(s.scheds[(s.root, 0)]) {
      var k :| k in s.scheds && n in NodesOf(s.scheds[k]);
    }
  }

  /**
   When all job nodes but the root are to be suspended and no package is in flight, then the
   suspension of the whole tree is complete: all schedulers but the root's have returned their
   packages, the root can be resumed, and every record is in one of its two sessions.
   */
  lemma {:induction false} SuspensionCompletes(tr: seq<State>, evs: seq<Event>, i: nat)
    requires IsRun(tr, evs) && i < |tr| && tr[i].net == []
    requires forall k :: k in tr[i].scheds && k.1 > 0 && !tr[i].scheds[k].suspended ==> tr[i].scheds[k].suspending
    ensures forall k :: k in tr[i].scheds && k.1 > 0 ==> tr[i].scheds[k].suspended
    ensures forall k :: k in tr[i].scheds ==> !ChildrenHaveNodes(tr[i].scheds[k])
    ensures forall n :: Recorded(tr[i], n) ==>
      var k := (tr[i].root, 0); k in tr[i].scheds && n in NodesOf(tr[i].scheds[k])
  {
    var tok := RunInv(tr, evs, i);
    RunEager(tr, evs, i);
    var s := tr[i];
    CompletedRecords(s, tok);
    forall k | k in s.scheds && k.1 > 0 ensures s.scheds[k].suspended {
      NobodyWaitsForever(s, tok, k);
    }
    forall k | k in s.scheds ensures !ChildrenHaveNodes(s.scheds[k]) {
      assert SchedSane(k, s.scheds[k]);
      if !s.scheds[k].suspended {
        forall c: nat | c == 2 * k.1 + 1 || c == 2 * k.1 + 2
          ensures T.Slot(RoleOf(s.scheds[k]), c).None?
        {
          T.SlotIsToken(ViewOf(s), tok, k, c);
          assert c in tok ==> T.TokenOk(ViewOf(s), tok, c);
        }
        assert T.Slot(RoleOf(s.scheds[k]), 2 * k.1 + 1).None? && T.Slot(RoleOf(s.scheds[k]), 2 * k.1 + 2).None?;
      }
    }
  }

  // ---------------------------------------------------------------------
  // Where the code promises less
  // ---------------------------------------------------------------------

  /**
   A returned package is attributed to the session of the child which sent it exactly if the two
   children with nodes are on different ranks or the sender is the left child.
   */
  lemma {:induction false} ReturnSideExactly(sc: Sched, child: nat, src: int)
    requires WellFormed(sc) && !sc.suspended && child > 0 && ParentIndex(child) == sc.index
    requires T.Slot(RoleOf(sc), child) == Some(src)
    ensures SideByRank(sc, src) == (if child % 2 == 1 then Left else Right)
            <==> DifferentRanks(sc) || child % 2 == 1
  {
  }

  /**
   With both children on rank 5, the right child's return ends the wait for the left child. The runs above do not
   reach this state: there, a child only joins if its sibling with nodes is on another rank.
   */
  lemma {:induction false} SameRankConfusesReturns()
    ensures var l := Session([], 1, 9, 1, 5, 0, true);
            var r := Session([], 1, 9, 2, 5, 0, true);
            var sc := Sched(0, 0, -1, Some(l), Some(r), -1, 1, 9, false, false, false);
            var p := Package(ReturnNodes, 5, 0, 0, -1, -1, [], 2);
            WellFormed(sc)
            && !ReturnHandled(sc, p).sched.left.value.childHasNodes
            && ReturnHandled(sc, p).sched.right.value.childHasNodes
  {
  }
}
