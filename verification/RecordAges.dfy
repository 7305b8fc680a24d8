/** When records of inactive nodes become older, over whole runs of the reactivation protocol. */
module RecordAges {
  import opened Options
  import opened JobNodes
  import opened ChildSessions
  import opened LocalScheduling
  import opened Reactivation
  import opened Conservation
  import T = PackageTokens

  // ---------------------------------------------------------------------
  // One record per rank
  // ---------------------------------------------------------------------

  ghost predicate OneEach(nodes: seq<Node>)
  {
    forall a, b :: a in nodes && b in nodes && a.rank == b.rank ==> a == b
  }

  /** Each session of the scheduler has one record per rank. */
  ghost predicate SessionsUnique(sc: Sched)
  {
    (sc.left.Some? ==> OneEach(sc.left.value.nodes)) && (sc.right.Some? ==> OneEach(sc.right.value.nodes))
  }

  ghost predicate PackageUnique(p: Package)
  {
    p.tag == InitializeChild ==> OneEach(p.nodes)
  }

  ghost predicate Unique(s: State)
  {
    && (forall k {:trigger SessionsUnique(s.scheds[k])} :: k in s.scheds ==> SessionsUnique(s.scheds[k]))
    && (forall j {:trigger PackageUnique(s.net[j])} :: 0 <= j < |s.net| ==> PackageUnique(s.net[j]))
  }

  lemma {:induction false} UniqueSameKeys(s: seq<Node>, t: seq<Node>)
    requires Ordered(s) && OneEach(s) && SameKeys(s, t)
    ensures OneEach(t)
  {
    forall a, b | a in t && b in t && a.rank == b.rank ensures a == b {
      var i :| 0 <= i < |t| && t[i] == a;
      var j :| 0 <= j < |t| && t[j] == b;
      assert s[i] in s && s[j] in s && SameKey(s[i], t[i]) && SameKey(s[j], t[j]);
      assert s[i] == s[j];
      PositionIsUnique(s, i, j);
    }
  }

  lemma {:induction false} PositionIsUnique(s: seq<Node>, i: nat, j: nat)
    requires Ordered(s) && i < |s| && j < |s| && s[i] == s[j]
    ensures i == j
  {
    assert forall k, l :: 0 <= k < l < |s| ==> s[k] != s[l];
  }

  lemma {:induction false} UniqueWithin(s: seq<Node>, t: seq<Node>)
    requires OneEach(s) && forall m :: m in t ==> m in s
    ensures OneEach(t)
  {
  }

  lemma {:induction false} UniqueCleaned(s: seq<Node>)
    requires OneEach(s)
    ensures OneEach(Cleaned(s))
  {
    forall a, b | a in Cleaned(s) && b in Cleaned(s) && a.rank == b.rank ensures a == b {
      var m :| m in s && m.status != Lost && a == m.(status := Available);
      var n :| n in s && n.status != Lost && b == n.(status := Available);
      assert m == n;
    }
  }

  lemma {:induction false} UniqueFound(s: seq<Node>, rank: int, index: nat, epoch: int, status: Status)
    requires Ordered(s) && OneEach(s)
    ensures OneEach(FoundAndUpdated(s, rank, index, epoch, status))
  {
    var k := FindPos(s, rank, index);
    if k < |s| {
      var e, u := Erase(s, s[k]), s[k].(epoch := epoch, status := status);
      assert s[k] in s;
      assert forall m :: m in e ==> m in s && m.rank != u.rank;
    }
  }

  lemma {:induction false} UniqueMerged(s: seq<Node>, t: seq<Node>)
    requires Ordered(s)
    ensures OneEach(Merged(s, t))
  {
    MergeKeepsNewest(s, t);
  }

  // ---------------------------------------------------------------------
  // Operations of one scheduler
  // ---------------------------------------------------------------------

  lemma {:induction false} UpdatedSessionUnique(s: Session, epoch: int, volume: int, hasChild: bool)
    requires Ordered(s.nodes) && OneEach(s.nodes)
    ensures OneEach(BalancingUpdated(s, epoch, volume, hasChild).session.nodes)
  {
    BalancingUpdatedForm(s, epoch, volume, hasChild);
    UniqueSameKeys(s.nodes, BalancingUpdated(s, epoch, volume, hasChild).session.nodes);
  }

  lemma {:induction false} OpenedUnique(sc: Sched, epoch: int, volume: int, nodes: seq<Node>, parentRank: int)
    requires Ordered(nodes) && OneEach(nodes)
    ensures SessionsUnique(Opened(sc, epoch, volume, nodes, parentRank).sched)
  {
    OpenedForm(sc, epoch, volume, nodes, parentRank);
    var t, p := Opened(sc, epoch, volume, nodes, parentRank).sched, SplitParts(nodes, sc.index);
    UniqueWithin(nodes, p.0);
    UniqueWithin(nodes, p.1);
    UniqueSameKeys(p.0, t.left.value.nodes);
    UniqueSameKeys(p.1, t.right.value.nodes);
  }

  /** Nothing opens a session here: the sessions stay as they are or are closed. */
  lemma {:induction false} ReturnUnique(o: Outcome)
    requires WellFormed(o.sched) && SessionsUnique(o.sched) && o.packages == []
    ensures var q := ReturnedIfPossible(o);
      SessionsUnique(q.sched) && forall j :: 0 <= j < |q.packages| ==> PackageUnique(q.packages[j])
  {
    if CanReturn(o.sched) {
      var q, nodes := ReturnedIfPossible(o), ReturnedNodes(o.sched);
      assert q.packages == [] + ReturnedWith(o.sched, nodes).packages;
    }
  }

  lemma {:induction false} SuspensionUnique(sc: Sched, epoch: int)
    requires WellFormed(sc) && SessionsUnique(sc)
    ensures var o := SuspensionBegun(sc, epoch);
      SessionsUnique(o.sched) && forall j :: 0 <= j < |o.packages| ==> PackageUnique(o.packages[j])
  {
    var e := if epoch == -1 then Max(sc.lastEpoch, sc.lastSuspension) else epoch;
    if !sc.suspended {
      ReturnUnique(Outcome(sc.(lastSuspension := e, suspending := true), [], [], []));
    }
  }

  lemma {:induction false} UpdateUnique(sc: Sched, epoch: int, volume: int, hasLeft: bool, hasRight: bool)
    requires WellFormed(sc) && SessionsUnique(sc)
    ensures var o := Updated(sc, epoch, volume, hasLeft, hasRight);
      SessionsUnique(o.sched) && forall j :: 0 <= j < |o.packages| ==> PackageUnique(o.packages[j])
  {
    if sc.lastEpoch < epoch && !sc.suspending && !sc.suspended {
      UpdatedKeepsForm(sc, epoch, volume, hasLeft, hasRight);
      UpdatedSessionUnique(sc.left.value, epoch, volume, hasLeft);
      UpdatedSessionUnique(sc.right.value, epoch, volume, hasRight);
      var l := BalancingUpdated(sc.left.value, epoch, volume, hasLeft).session;
      var r := BalancingUpdated(sc.right.value, epoch, volume, hasRight).session;
      SuspensionUnique(sc.(lastEpoch := epoch, lastVolume := volume, left := Some(l), right := Some(r)), epoch);
    }
  }

  lemma {:induction false} JoinUnique(sc: Sched, source: int, epoch: int, child: nat)
    requires WellFormed(sc) && SessionsUnique(sc) && AcceptsChild(sc, child)
    ensures var o := JoiningHandled(sc, source, epoch, child);
      SessionsUnique(o.sched) && forall j :: 0 <= j < |o.packages| ==> PackageUnique(o.packages[j])
  {
    var s := SessionAt(sc, SideByIndex(sc, child));
    var inside, rest := Select(s.nodes, s.childIndex, true, true), Select(s.nodes, s.childIndex, true, false);
    UniqueWithin(s.nodes, inside);
    UniqueWithin(s.nodes, rest);
    UniqueCleaned(inside);
    UniqueFound(rest, source, s.childIndex, epoch, Busy);
    var f := FoundAndUpdated(rest, source, s.childIndex, epoch, Busy);
    UniqueSameKeys(f, Notified(f, -1));
  }

  lemma {:induction false} RejectedUnique(s: Session, epoch: int, lost: bool, hasChild: bool, suspended: bool)
    requires Ordered(s.nodes) && OneEach(s.nodes)
    ensures OneEach(Rejected(s, epoch, lost, hasChild, suspended).session.nodes)
  {
    var status := if lost then Lost else Busy;
    UniqueFound(s.nodes, s.childRank, s.childIndex, epoch, status);
    var f := FoundAndUpdated(s.nodes, s.childRank, s.childIndex, epoch, status);
    RecruitedFacts(s.(nodes := f));
    UniqueSameKeys(f, Recruited(s.(nodes := f)).session.nodes);
  }

  lemma {:induction false} ResumptionUnique(sc: Sched)
    requires WellFormed(sc) && sc.index == 0 && sc.suspending && !sc.suspended && !ChildrenHaveNodes(sc)
    ensures SessionsUnique(ResumptionBegun(sc).sched) && ResumptionBegun(sc).packages == []
  {
    var t := sc.(resuming := true);
    UniqueMerged(Merged([], sc.left.value.nodes), sc.right.value.nodes);
    UniqueCleaned(AllNodes(t));
    var c := t.(resuming := false, suspending := false, left := None, right := None);
    var nodes := Cleaned(AllNodes(t));
    OpenedUnique(c, Max(t.lastEpoch, t.lastSuspension), t.lastVolume, nodes, t.parentRank);
    OpenedForm(c, Max(t.lastEpoch, t.lastSuspension), t.lastVolume, nodes, t.parentRank);
  }

  lemma {:induction false} InitUnique(sc: Sched, p: Package)
    requires WellFormed(sc) && !sc.resuming && sc.suspended && Ordered(p.nodes) && OneEach(p.nodes)
    ensures var o := InitHandled(sc, p);
      SessionsUnique(o.sched) && forall j :: 0 <= j < |o.packages| ==> PackageUnique(o.packages[j])
  {
    InitEffect(sc, p);
    if !IsPast(sc, p.epoch) {
      OpenedForm(sc, p.epoch, p.volume, p.nodes, p.src);
      OpenedUnique(sc, p.epoch, p.volume, p.nodes, p.src);
      assert InitHandled(sc, p) == Opened(sc, p.epoch, p.volume, p.nodes, p.src);
    }
  }

  lemma {:induction false} ReturnHandledUnique(sc: Sched, p: Package)
    requires WellFormed(sc) && !sc.resuming && SessionsUnique(sc)
    ensures var o := ReturnHandled(sc, p);
      SessionsUnique(o.sched) && forall j :: 0 <= j < |o.packages| ==> PackageUnique(o.packages[j])
  {
    var side := SideByRank(sc, p.src);
    if side == Neither {
      ReturnUnique(Outcome(sc, [], [], []));
    } else {
      var s := SessionAt(sc, side);
      UniqueMerged(s.nodes, p.nodes);
      ReturnUnique(Outcome(WithSession(sc, side, NodesReturned(s, p.nodes)), [], [], []));
    }
  }

  // ---------------------------------------------------------------------
  // Steps and runs
  // ---------------------------------------------------------------------

  lemma {:induction false} AppliedUnique(s: State, u: State, k: Key, o: Outcome)
    requires Unique(s) && u.scheds == s.scheds && forall p :: p in u.net ==> p in s.net
    requires SessionsUnique(o.sched) && forall j :: 0 <= j < |o.packages| ==> PackageUnique(o.packages[j])
    ensures Unique(Apply(u, k, o))
  {
    var s' := Apply(u, k, o);
    forall l | l in s'.scheds ensures SessionsUnique(s'.scheds[l]) {
      assert l != k ==> SessionsUnique(s.scheds[l]);
    }
    forall j | 0 <= j < |s'.net| ensures PackageUnique(s'.net[j]) {
      if j < |u.net| {
        assert u.net[j] in s.net;
        var i :| 0 <= i < |s.net| && s.net[i] == u.net[j];
        assert PackageUnique(s.net[i]);
      } else {
        assert PackageUnique(o.packages[j - |u.net|]);
      }
    }
  }

  lemma {:induction false} DeliveredUnique(s: State, tok: map<nat, T.Token>, pos: nat)
    requires Inv(s, tok) && Safe(s) && pos < |s.net| && Unique(s)
    ensures Unique(Step(s, Deliver(pos)))
  {
    var p, u := s.net[pos], s.(net := RemoveAt(s.net, pos));
    var k := (p.dst, p.destIndex);
    assert PackageUnique(p);
    if k in s.scheds {
      assert SchedSane(k, s.scheds[k]) && SessionsUnique(s.scheds[k]);
      HandledStep(s, pos);
      if p.tag == InitializeChild {
        InitUnique(s.scheds[k], p);
        AppliedUnique(s, u, k, InitHandled(s.scheds[k], p));
      } else {
        ReturnHandledUnique(s.scheds[k], p);
        AppliedUnique(s, u, k, ReturnHandled(s.scheds[k], p));
      }
    } else {
      var s' := Step(s, Deliver(pos));
      forall l | l in s'.scheds ensures SessionsUnique(s'.scheds[l]) { assert SessionsUnique(s.scheds[l]); }
      forall j | 0 <= j < |s'.net| ensures PackageUnique(s'.net[j]) {
        if j < |u.net| {
          var i := if j < pos then j else j + 1;
          assert s'.net[j] == s.net[i] && PackageUnique(s.net[i]);
        }
      }
    }
  }

  lemma {:induction false} SuspendedUnique(s: State, k: Key)
    requires Unique(s) && k in s.scheds && WellFormed(s.scheds[k])
    ensures Unique(Suspended(s, k))
  {
    assert SessionsUnique(s.scheds[k]);
    var sc, s1 := s.scheds[k], s;
    if !sc.suspended && !sc.suspending {
      SuspensionUnique(sc, -1);
      s1 := Apply(s, k, SuspensionBegun(sc, -1));
      AppliedUnique(s, s, k, SuspensionBegun(sc, -1));
    }
    ErasedUnique(s1, k);
  }

  lemma {:induction false} ErasedUnique(s: State, k: Key)
    requires Unique(s)
    ensures Unique(s.(scheds := s.scheds - {k}))
  {
    var s' := s.(scheds := s.scheds - {k});
    forall l | l in s'.scheds ensures SessionsUnique(s'.scheds[l]) { assert SessionsUnique(s.scheds[l]); }
    forall j | 0 <= j < |s'.net| ensures PackageUnique(s'.net[j]) { assert PackageUnique(s.net[j]); }
  }

  lemma {:induction false} FreedUnique(s: State, k: Key, rank: int, epoch: int)
    requires Unique(s) && k in s.scheds
    ensures Unique(s.(scheds := s.scheds[k := NodeFreed(s.scheds[k], rank, epoch, k.1)]))
  {
    assert SessionsUnique(s.scheds[k]);
    var t := NodeFreed(s.scheds[k], rank, epoch, k.1);
    AppliedUnique(s, s, k, Outcome(t, [], [], []));
    assert s.net + [] == s.net;
  }

  lemma {:induction false} StepUnique(s: State, tok: map<nat, T.Token>, ev: Event)
    requires Inv(s, tok) && Safe(s) && Enabled(s, ev) && Unique(s)
    ensures Unique(Step(s, ev))
  {
    match ev
    case RootStart(epoch, client) =>
      var k := (s.root, 0);
      var sc := if k in s.scheds then s.scheds[k] else NewScheduler(s.root, 0, client);
      var e := if epoch < 0 then 0 else epoch;
      OpenedUnique(sc, e, -1, [], client);
      OpenedForm(sc, e, -1, [], client);
      AppliedUnique(s, s, k, Initialized(sc, e, -1, [], client));
    case RootResume =>
      var k := (s.root, 0);
      assert SchedSane(k, s.scheds[k]);
      ResumptionUnique(s.scheds[k]);
      AppliedUnique(s, s, k, ResumptionBegun(s.scheds[k]));
    case Commit(rank, index, parentRank) =>
      var k := (rank, index);
      var sc := if k in s.scheds then s.scheds[k] else NewScheduler(rank, index, parentRank);
      AppliedUnique(s, s, k, Outcome(RoleReset(sc), [], [], []));
      assert s.net + [] == s.net;
    case Join(rank, index, source, epoch, child) =>
      var k := (rank, index);
      assert SessionsUnique(s.scheds[k]);
      JoinUnique(s.scheds[k], source, epoch, child);
      AppliedUnique(s, s, k, JoiningHandled(s.scheds[k], source, epoch, child));
    case Reject(rank, index, epoch, child, lost, hasChild) => RejectStepUnique(s, ev);
    case Balance(rank, index, epoch, volume, hasLeft, hasRight) =>
      var k := (rank, index);
      assert SessionsUnique(s.scheds[k]);
      UpdateUnique(s.scheds[k], epoch, volume, hasLeft, hasRight);
      AppliedUnique(s, s, k, Updated(s.scheds[k], epoch, volume, hasLeft, hasRight));
    case Suspend(rank, index) => SuspendedUnique(s, (rank, index));
    case Forget(rank, index) => ErasedUnique(s, (rank, index));
    case Freed(rank, index, freedRank, epoch) => FreedUnique(s, (rank, index), freedRank, epoch);
    case Deliver(pos) => DeliveredUnique(s, tok, pos);
  }

  lemma {:induction false} RejectStepUnique(s: State, ev: Event)
    requires Safe(s) && ev.Reject? && Enabled(s, ev) && Unique(s)
    ensures Unique(Step(s, ev))
  {
    var k := (ev.rank, ev.index);
    assert SessionsUnique(s.scheds[k]);
    var sc := s.scheds[k];
    var side := SideByIndex(sc, ev.child);
    if side != Neither {
      RejectedUnique(SessionAt(sc, side), ev.epoch, ev.lost, ev.hasChild, sc.suspended || sc.suspending);
    }
    AppliedUnique(s, s, k, RejectionHandled(sc, ev.epoch, ev.child, ev.lost, ev.hasChild));
  }

  /** In every run, every session and every package for a child has one record per rank. */
  lemma {:induction false} OneRecordPerRank(tr: seq<State>, evs: seq<Event>, i: nat)
    requires IsRun(tr, evs) && i < |tr|
    ensures Unique(tr[i])
  {
    if i > 0 {
      var q := i - 1;
      OneRecordPerRank(tr, evs, q);
      NextUnique(tr, evs, q, i);
    }
  }

  lemma {:induction false} NextUnique(tr: seq<State>, evs: seq<Event>, q: nat, i: nat)
    requires IsRun(tr, evs) && i == q + 1 < |tr| && Unique(tr[q])
    ensures Unique(tr[i])
  {
    var tok := RunIsSafe(tr, evs, q);
    var ev := evs[q];
    StepUnique(tr[q], tok, ev);
    assert tr[i] == Step(tr[q], ev);
  }

  // ---------------------------------------------------------------------
  // When a record becomes older
  // ---------------------------------------------------------------------

  /**
   Whatever is found gets the new epoch: nothing becomes older exactly if that epoch is no older, or nothing
   is found.
   */
  lemma {:induction false} FoundAges(s: seq<Node>, rank: int, index: nat, epoch: int, status: Status)
    requires Ordered(s) && OneEach(s)
    ensures (forall n :: n in s ==> Covered(n, FoundAndUpdated(s, rank, index, epoch, status), None))
            <==> (FindPos(s, rank, index) < |s| ==> epoch >= s[FindPos(s, rank, index)].epoch)
  {
    var k := FindPos(s, rank, index);
    var r := FoundAndUpdated(s, rank, index, epoch, status);
    if k < |s| {
      var e := Erase(s, s[k]);
      var u := s[k].(epoch := epoch, status := status);
      assert forall m :: m in e ==> m in s && m.rank != u.rank;
      assert !HasKey(e, u);
      assert forall m :: m in r <==> m in e || m == u;
      assert s[k] in s;
      if epoch >= s[k].epoch {
        forall n | n in s ensures Covered(n, r, None) {
          if SameKey(n, s[k]) { assert u in r && Succeeds(u, n, None); }
          else { assert n in r && Succeeds(n, n, None); }
        }
      }
    } else {
      forall n | n in s ensures Covered(n, r, None) {
        assert n in r && Succeeds(n, n, None);
      }
    }
  }

  lemma {:induction false} CoveredAlike(n: Node, s: seq<Node>, t: seq<Node>)
    requires SameKeys(s, t)
    ensures Covered(n, s, None) <==> Covered(n, t, None)
  {
    if Covered(n, s, None) {
      var m :| m in s && Succeeds(m, n, None);
      var j :| 0 <= j < |s| && s[j] == m;
      assert t[j] in t && Succeeds(t[j], n, None);
    }
    if Covered(n, t, None) {
      var m :| m in t && Succeeds(m, n, None);
      var j :| 0 <= j < |t| && t[j] == m;
      assert s[j] in s && Succeeds(s[j], n, None);
    }
  }

  /** The record which a rejection or a joining child finds is no newer than the epoch written. */
  predicate FindsNoNewer(nodes: seq<Node>, rank: int, index: nat, epoch: int)
  {
    var k := FindPos(nodes, rank, index);
    k < |nodes| ==> nodes[k].epoch <= epoch
  }

  /**
   In every run, a rejection replaces no record of its session by an older one exactly if the record which
   it finds, that of the rank asked last, is no newer than the rejected request.
   */
  lemma {:induction false} RejectionAgesExactly(
    tr: seq<State>, evs: seq<Event>, i: nat, k: Key, side: Side, epoch: int, lost: bool, hasChild: bool,
      suspended: bool)
    requires IsRun(tr, evs) && i < |tr| && k in tr[i].scheds && side != Neither && !tr[i].scheds[k].suspended
    ensures WellFormed(tr[i].scheds[k])
    ensures var s := SessionAt(tr[i].scheds[k], side);
      (forall n :: n in s.nodes ==> Covered(n, Rejected(s, epoch, lost, hasChild, suspended).session.nodes, None))
      <==> FindsNoNewer(s.nodes, s.childRank, s.childIndex, epoch)
  {
    SessionInRun(tr, evs, i, k);
    var s := SessionAt(tr[i].scheds[k], side);
    SessionAges(s, epoch, lost, hasChild, suspended);
  }

  lemma {:induction false} SessionInRun(tr: seq<State>, evs: seq<Event>, i: nat, k: Key)
    requires IsRun(tr, evs) && i < |tr| && k in tr[i].scheds
    ensures WellFormed(tr[i].scheds[k]) && SessionsUnique(tr[i].scheds[k])
  {
    OneRecordPerRank(tr, evs, i);
    var tok := RunInv(tr, evs, i);
    assert SchedSane(k, tr[i].scheds[k]);
  }

  lemma {:induction false} SessionAges(s: Session, epoch: int, lost: bool, hasChild: bool, suspended: bool)
    requires Ordered(s.nodes) && OneEach(s.nodes)
    ensures (forall n :: n in s.nodes ==> Covered(n, Rejected(s, epoch, lost, hasChild, suspended).session.nodes, None))
            <==> FindsNoNewer(s.nodes, s.childRank, s.childIndex, epoch)
  {
    var status := if lost then Lost else Busy;
    var f := FoundAndUpdated(s.nodes, s.childRank, s.childIndex, epoch, status);
    FoundAges(s.nodes, s.childRank, s.childIndex, epoch, status);
    RecruitedFacts(s.(nodes := f));
    forall n ensures Covered(n, f, None) <==>
      Covered(n, Rejected(s, epoch, lost, hasChild, suspended).session.nodes, None) {
      CoveredAlike(n, f, Rejected(s, epoch, lost, hasChild, suspended).session.nodes);
    }
  }

  /** The same for the records which stay in a session when a child joins. */
  lemma {:induction false} JoiningAgesExactly(tr: seq<State>, evs: seq<Event>, i: nat, k: Key, side: Side,
      source: int, epoch: int)
    requires IsRun(tr, evs) && i < |tr| && k in tr[i].scheds && side != Neither && !tr[i].scheds[k].suspended
    ensures WellFormed(tr[i].scheds[k])
    ensures var s := SessionAt(tr[i].scheds[k], side);
      var rest := Select(s.nodes, s.childIndex, true, false);
      (forall n :: n in rest ==> Covered(n, ChildJoined(s, source, epoch).session.nodes, None))
      <==> FindsNoNewer(rest, source, s.childIndex, epoch)
  {
    SessionInRun(tr, evs, i, k);
    var s := SessionAt(tr[i].scheds[k], side);
    var rest := Select(s.nodes, s.childIndex, true, false);
    UniqueWithin(s.nodes, rest);
    FoundAges(rest, source, s.childIndex, epoch, Busy);
    var f := FoundAndUpdated(rest, source, s.childIndex, epoch, Busy);
    forall n ensures Covered(n, f, None) <==> Covered(n, ChildJoined(s, source, epoch).session.nodes, None) {
      CoveredAlike(n, f, Notified(f, -1));
    }
  }
}
