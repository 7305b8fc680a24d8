/** What a local scheduler emits: the job requests, for which child and to whom, who is released, and the packages. */
module SchedulerRequests {
  import opened Options
  import opened JobNodes
  import opened ChildSessions
  import opened SessionReactions
  import opened LocalScheduling
  import opened Reactivation
  import opened Conservation
  import T = PackageTokens

  /** A request for the child of this session: to the first node which can be asked, or to anyone. */
  function RequestFor(s: Session, left: bool, epoch: int): Request
  {
    var k := FirstUsable(s.nodes, s.childIndex);
    Request(epoch, left, if k < |s.nodes| then s.nodes[k].rank else -1)
  }

  /** Exactly one request for each child which is wanted, first for the left one. */
  function RequestsFor(l: Session, r: Session, wantLeft: bool, wantRight: bool, epoch: int): seq<Request>
  {
    (if wantLeft then [RequestFor(l, true, epoch)] else []) + (if wantRight then [RequestFor(r, false, epoch)] else [])
  }

  lemma {:induction false} SessionEmits(s: Session, epoch: int, volume: int, hasChild: bool, leftIndex: nat)
    requires epoch > s.epoch
    ensures var r := BalancingUpdated(s, epoch, volume, hasChild);
      var e := Emitted(r.directive, r.session, leftIndex);
      e == if Wanted(s, volume, hasChild) then [RequestFor(s, s.childIndex == leftIndex, epoch)] else []
  {
    BalancingUpdateExactly(s, epoch, volume, hasChild);
  }

  lemma {:induction false} BothEmit(l: Session, r: Session, epoch: int, volume: int, hasLeft: bool, hasRight: bool,
      index: nat)
    requires l.epoch < epoch && r.epoch < epoch && l.childIndex == 2 * index + 1 && r.childIndex == 2 * index + 2
    ensures var a := BalancingUpdated(l, epoch, volume, hasLeft);
      var b := BalancingUpdated(r, epoch, volume, hasRight);
      Requested(a, b, 2 * index + 1)
        == RequestsFor(l, r, Wanted(l, volume, hasLeft), Wanted(r, volume, hasRight), epoch)
  {
    SessionEmits(l, epoch, volume, hasLeft, 2 * index + 1);
    SessionEmits(r, epoch, volume, hasRight, 2 * index + 1);
  }

  /** The sessions know no newer balancing result than the scheduler. */
  predicate Timely(sc: Sched)
  {
    && sc.lastEpoch >= -1
    && (sc.left.Some? ==> sc.left.value.epoch <= sc.lastEpoch)
    && (sc.right.Some? ==> sc.right.value.epoch <= sc.lastEpoch)
  }

  /** A new balancing result: one request for each child which is missing, within the volume and without nodes. */
  lemma {:induction false} UpdateRequestsExactly(sc: Sched, epoch: int, volume: int, hasLeft: bool, hasRight: bool)
    requires WellFormed(sc) && Timely(sc) && epoch > sc.lastEpoch && !sc.suspending && !sc.suspended
    ensures var l, r := sc.left.value, sc.right.value;
      Updated(sc, epoch, volume, hasLeft, hasRight).requests
        == RequestsFor(l, r, !hasLeft && 2 * sc.index + 1 < volume && !l.childHasNodes,
                       !hasRight && 2 * sc.index + 2 < volume && !r.childHasNodes, epoch)
  {
    BothEmit(sc.left.value, sc.right.value, epoch, volume, hasLeft, hasRight, sc.index);
  }

  /** The balancing result which new sessions are brought up to. */
  function EpochAdopted(sc: Sched, epoch: int, volume: int): int
  {
    if volume >= 0 && epoch > sc.lastEpoch then epoch else sc.lastEpoch
  }

  function VolumeAdopted(sc: Sched, epoch: int, volume: int): int
  {
    if volume >= 0 && epoch > sc.lastEpoch then volume else sc.lastVolume
  }

  function RequestsOpened(a: seq<Node>, b: seq<Node>, index: nat, epoch: int, volume: int): seq<Request>
  {
    RequestsFor(NewSession(a, 2 * index + 1), NewSession(b, 2 * index + 2),
                epoch >= 0 && 2 * index + 1 < volume, epoch >= 0 && 2 * index + 2 < volume, epoch)
  }

  lemma {:induction false} SessionsSend(sc: Sched, o: Outcome, l: Reaction, r: Reaction, reqs: seq<Request>)
    requires o == WithSessions(sc, l, r) && Requested(l, r, 2 * sc.index + 1) == reqs
    ensures o.requests == reqs
  {
  }

  lemma {:induction false} OpenedSends(sc: Sched, a: seq<Node>, b: seq<Node>, l: Reaction, r: Reaction,
      reqs: seq<Request>)
    requires l == OpenedSession(a, 2 * sc.index + 1, sc.lastEpoch, sc.lastVolume)
    requires r == OpenedSession(b, 2 * sc.index + 2, sc.lastEpoch, sc.lastVolume)
    requires Requested(l, r, 2 * sc.index + 1) == reqs
    ensures OpenedWith(sc, a, b).requests == reqs
  {
    SessionsSend(sc, OpenedWith(sc, a, b), l, r, reqs);
  }

  lemma {:induction false} PartsEmit(a: seq<Node>, b: seq<Node>, index: nat, epoch: int, volume: int)
    ensures var l := OpenedSession(a, 2 * index + 1, epoch, volume);
      var r := OpenedSession(b, 2 * index + 2, epoch, volume);
      Requested(l, r, 2 * index + 1) == RequestsOpened(a, b, index, epoch, volume)
  {
    if epoch >= 0 {
      BothEmit(NewSession(a, 2 * index + 1), NewSession(b, 2 * index + 2), epoch, volume, false, false, index);
    }
  }

  lemma {:induction false} OpenedWithEmits(sc: Sched, a: seq<Node>, b: seq<Node>)
    ensures OpenedWith(sc, a, b).requests == RequestsOpened(a, b, sc.index, sc.lastEpoch, sc.lastVolume)
  {
    var reqs := RequestsOpened(a, b, sc.index, sc.lastEpoch, sc.lastVolume);
    PartsEmit(a, b, sc.index, sc.lastEpoch, sc.lastVolume);
    OpenedSends(sc, a, b, OpenedSession(a, 2 * sc.index + 1, sc.lastEpoch, sc.lastVolume),
                OpenedSession(b, 2 * sc.index + 2, sc.lastEpoch, sc.lastVolume), reqs);
  }

  /** Opening sessions: one request for each child within the volume, if the volume is known. */
  lemma {:induction false} OpeningRequestsExactly(sc: Sched, epoch: int, volume: int, nodes: seq<Node>, parentRank: int)
    requires Ordered(nodes)
    ensures var o, p := Opened(sc, epoch, volume, nodes, parentRank), SplitParts(nodes, sc.index);
      var e, v := EpochAdopted(sc, epoch, volume), VolumeAdopted(sc, epoch, volume);
      o.requests == RequestsOpened(p.0, p.1, sc.index, e, v)
  {
    var p := SplitParts(nodes, sc.index);
    OpenedWithEmits(Adopted(sc, epoch, volume, parentRank), p.0, p.1);
  }

  /** After a rejection: one more request for this child if it is still wanted, with the epoch of its session. */
  lemma {:induction false} RejectionRequestsExactly(sc: Sched, epoch: int, child: nat, lost: bool, hasChild: bool)
    requires WellFormed(sc) && !sc.suspended && (child == 2 * sc.index + 1 || child == 2 * sc.index + 2)
    ensures var s := if child == 2 * sc.index + 1 then sc.left.value else sc.right.value;
      var reqs := RejectionHandled(sc, epoch, child, lost, hasChild).requests;
      var k := FindPos(s.nodes, s.childRank, s.childIndex);
      if Wanted(s, s.volume, hasChild) && !sc.suspending then
        && |reqs| == 1 && reqs[0].left == (child == 2 * sc.index + 1) && reqs[0].epoch == s.epoch
        && (if s.numQueried < 4 && exists n :: CanAsk(s, k, n)
            then exists n :: CanAsk(s, k, n) && reqs[0].dest == n.rank else reqs[0].dest == -1)
      else reqs == []
  {
    var s := if child == 2 * sc.index + 1 then sc.left.value else sc.right.value;
    RejectionExactly(s, epoch, lost, hasChild, sc.suspended || sc.suspending);
  }

  /** Without such a session, nothing happens. */
  lemma {:induction false} ForeignRejection(sc: Sched, epoch: int, child: nat, lost: bool, hasChild: bool)
    requires WellFormed(sc) && (sc.suspended || (child != 2 * sc.index + 1 && child != 2 * sc.index + 2))
    ensures RejectionHandled(sc, epoch, child, lost, hasChild) == Outcome(sc, [], [], [])
  {
  }

  /** A stale result, or one for a scheduler which is about to suspend, makes nobody do anything. */
  lemma {:induction false} NoRequests(sc: Sched, epoch: int, volume: int, hasLeft: bool, hasRight: bool)
    requires WellFormed(sc) && (epoch <= sc.lastEpoch || sc.suspending || sc.suspended)
    ensures var o := Updated(sc, epoch, volume, hasLeft, hasRight);
      o.requests == [] && o.released == [] && o.packages == []
  {
  }

  // ---------------------------------------------------------------------
  // Who is released
  // ---------------------------------------------------------------------

  /** The node was in the session, is not lost and within the volume. */
  ghost predicate IsLeft(s: Session, volume: int, m: Node)
  {
    exists n :: n in s.nodes && n.status != Lost && n.index < volume && m == n.(status := Available)
  }

  lemma {:induction false} SessionReleases(s: Session, epoch: int, volume: int, hasChild: bool, m: Node)
    requires epoch > s.epoch
    ensures m in BalancingUpdated(s, epoch, volume, hasChild).released <==>
      !Wanted(s, volume, hasChild) && IsLeft(s, volume, m)
  {
    BalancingUpdateExactly(s, epoch, volume, hasChild);
  }

  /** A new balancing result releases exactly the nodes within the volume on the sides which do not want a child. */
  lemma {:induction false} UpdateReleasesExactly(sc: Sched, epoch: int, volume: int, hasLeft: bool, hasRight: bool,
      m: Node)
    requires WellFormed(sc) && Timely(sc) && epoch > sc.lastEpoch && !sc.suspending && !sc.suspended
    ensures var l, r := sc.left.value, sc.right.value;
      m in Updated(sc, epoch, volume, hasLeft, hasRight).released <==>
        (!Wanted(l, volume, hasLeft) && IsLeft(l, volume, m)) || (!Wanted(r, volume, hasRight) && IsLeft(r, volume, m))
  {
    SessionReleases(sc.left.value, epoch, volume, hasLeft, m);
    SessionReleases(sc.right.value, epoch, volume, hasRight, m);
  }

  lemma {:induction false} OpenedReleases(nodes: seq<Node>, childIndex: nat, epoch: int, volume: int, m: Node)
    ensures m in OpenedSession(nodes, childIndex, epoch, volume).released <==>
      epoch >= 0 && childIndex >= volume && IsLeft(NewSession(nodes, childIndex), volume, m)
  {
    if epoch >= 0 { SessionReleases(NewSession(nodes, childIndex), epoch, volume, false, m); }
  }

  /** The node is within the volume, on a side which is outside of it. */
  ghost predicate ReleasedOpening(a: seq<Node>, b: seq<Node>, index: nat, epoch: int, volume: int, m: Node)
  {
    var l, r := 2 * index + 1, 2 * index + 2;
    || (epoch >= 0 && l >= volume && IsLeft(NewSession(a, l), volume, m))
    || (epoch >= 0 && r >= volume && IsLeft(NewSession(b, r), volume, m))
  }

  lemma {:induction false} EitherReleases(
    a: seq<Node>, b: seq<Node>, index: nat, epoch: int, volume: int, m: Node, released: seq<Node>)
    requires released == OpenedSession(a, 2 * index + 1, epoch, volume).released
                         + OpenedSession(b, 2 * index + 2, epoch, volume).released
    ensures m in released <==> ReleasedOpening(a, b, index, epoch, volume, m)
  {
    OpenedReleases(a, 2 * index + 1, epoch, volume, m);
    OpenedReleases(b, 2 * index + 2, epoch, volume, m);
  }

  lemma {:induction false} OpenedWithReleases(sc: Sched, a: seq<Node>, b: seq<Node>, m: Node)
    ensures m in OpenedWith(sc, a, b).released <==>
      ReleasedOpening(a, b, sc.index, sc.lastEpoch, sc.lastVolume, m)
  {
    EitherReleases(a, b, sc.index, sc.lastEpoch, sc.lastVolume, m, OpenedWith(sc, a, b).released);
  }

  /** Opening sessions releases exactly the nodes within the volume on the sides outside of it. */
  lemma {:induction false} OpeningReleasesExactly(sc: Sched, epoch: int, volume: int, nodes: seq<Node>,
      parentRank: int, m: Node)
    requires Ordered(nodes)
    ensures var p := SplitParts(nodes, sc.index);
      var e, v := EpochAdopted(sc, epoch, volume), VolumeAdopted(sc, epoch, volume);
      m in Opened(sc, epoch, volume, nodes, parentRank).released <==> ReleasedOpening(p.0, p.1, sc.index, e, v, m)
  {
    var p := SplitParts(nodes, sc.index);
    OpenedWithReleases(Adopted(sc, epoch, volume, parentRank), p.0, p.1, m);
  }

  /** A rejection releases the remaining candidates, if a request goes out and nobody is asked. */
  lemma {:induction false} RejectionReleasesExactly(sc: Sched, epoch: int, child: nat, lost: bool, hasChild: bool,
      m: Node)
    requires WellFormed(sc) && !sc.suspended && (child == 2 * sc.index + 1 || child == 2 * sc.index + 2)
    ensures var s := if child == 2 * sc.index + 1 then sc.left.value else sc.right.value;
      var k := FindPos(s.nodes, s.childRank, s.childIndex);
      m in RejectionHandled(sc, epoch, child, lost, hasChild).released <==>
        Wanted(s, s.volume, hasChild) && !sc.suspending && s.numQueried >= 4 && CanAsk(s, k, m)
  {
    var s := if child == 2 * sc.index + 1 then sc.left.value else sc.right.value;
    RejectionExactly(s, epoch, lost, hasChild, sc.suspended || sc.suspending);
  }

  /** A joining child gets one package, and makes the session release the others. */
  lemma {:induction false} JoiningReleasesExactly(sc: Sched, source: int, epoch: int, child: nat)
    requires WellFormed(sc) && !sc.suspended && (child == 2 * sc.index + 1 || child == 2 * sc.index + 2)
    ensures var s := if child == 2 * sc.index + 1 then sc.left.value else sc.right.value;
      var o := JoiningHandled(sc, source, epoch, child);
      && o.packages == [Package(InitializeChild, sc.rank, source, child, epoch, s.volume, NodesForChild(s), child)]
      && o.released == ChildJoined(s, source, epoch).released && o.requests == []
  {
  }

  /** A freed node is removed from both sessions, and nothing else is. */
  lemma {:induction false} FreedExactly(sc: Sched, rank: int, epoch: int, index: nat, m: Node)
    requires WellFormed(sc) && !sc.suspended
    ensures var t := NodeFreed(sc, rank, epoch, index);
      var gone := m.rank == rank && m.index == index && m.epoch == epoch;
      && t == sc.(left := t.left, right := t.right) && t.left.Some? && t.right.Some?
      && (m in t.left.value.nodes <==> m in sc.left.value.nodes && !gone)
      && (m in t.right.value.nodes <==> m in sc.right.value.nodes && !gone)
  {
    RemovalExactly(sc.left.value, rank, epoch, index);
    RemovalExactly(sc.right.value, rank, epoch, index);
  }

  // ---------------------------------------------------------------------
  // Packages from the past
  // ---------------------------------------------------------------------

  /** The epoch up to which packages are from the past once a suspension has begun. */
  function SuspensionEpoch(sc: Sched, epoch: int): int
  {
    if epoch == -1 then Max(sc.lastEpoch, sc.lastSuspension) else epoch
  }

  /**
   After a suspension, a package goes back unopened exactly if it is not newer than the suspension; with the
   default epoch, not newer than anything the scheduler has seen.
   */
  lemma {:induction false} PastExactly(sc: Sched, epoch: int, p: Package)
    requires WellFormed(sc) && sc.index > 0 && Ordered(p.nodes) && SuspensionBegun(sc, epoch).sched.suspended
    ensures var t := SuspensionBegun(sc, epoch).sched;
      && WellFormed(t)
      && (InitHandled(t, p).sched.suspended <==> p.epoch <= SuspensionEpoch(sc, epoch))
      && (p.epoch <= SuspensionEpoch(sc, epoch) ==>
            var back := Package(ReturnNodes, sc.rank, p.src, ParentIndex(sc.index), p.epoch, p.volume, p.nodes,
              sc.index);
            InitHandled(t, p).packages == [back])
  {
    var t := SuspensionBegun(sc, epoch).sched;
    assert t.lastSuspension == SuspensionEpoch(sc, epoch);
    InitializedForm(t, p.epoch, p.volume, p.nodes, p.src);
    OpenedForm(t, p.epoch, p.volume, p.nodes, p.src);
  }

  /** The node which a suspending scheduler adds for itself. */
  function OwnNode(sc: Sched): Node
  {
    Node(sc.rank, sc.index, sc.lastEpoch, Available)
  }

  lemma {:induction false} ReturnedNodesExactly(sc: Sched, m: Node)
    requires WellFormed(sc) && !sc.suspended
    ensures m in ReturnedNodes(sc) <==>
      || (exists n :: n in AllNodes(sc) && n.status != Lost && m == n.(status := Available))
      || (m == OwnNode(sc) && !HasKey(AllNodes(sc), OwnNode(sc)))
  {
    var all, own := AllNodes(sc), OwnNode(sc);
    var s := Insert(all, own);
    if m in Cleaned(s) {
      var n :| n in s && n.status != Lost && m == n.(status := Available);
      assert n in all || (n == own && !HasKey(all, own));
    }
    if n :| n in all && n.status != Lost && m == n.(status := Available) {
      assert n in s;
    }
    if m == own && !HasKey(all, own) {
      assert own in s && m == own.(status := Available);
    }
  }

  /** One package for the parent's scheduler, with all nodes which are not lost and this node with the last epoch. */
  lemma {:induction false} ReturningExactly(sc: Sched, m: Node)
    requires WellFormed(sc) && !sc.suspended
    ensures var o := ReturnedToParent(sc);
      && o.sched == sc.(suspending := false, suspended := true, left := None, right := None)
      && |o.packages| == 1 && o.released == [] && o.requests == []
      && var p := o.packages[0];
         && p.tag == ReturnNodes && p.dst == sc.parentRank && p.destIndex == ParentIndex(sc.index)
         && (m in p.nodes <==>
               || (exists n :: n in AllNodes(sc) && n.status != Lost && m == n.(status := Available))
               || (m == OwnNode(sc) && !HasKey(AllNodes(sc), OwnNode(sc))))
  {
    ReturnedNodesExactly(sc, m);
  }

  /** After a reset, any package is opened, whatever epochs the scheduler has seen before. */
  lemma {:induction false} ResetOpensAll(sc: Sched, p: Package)
    requires WellFormed(sc) && sc.suspended && Ordered(p.nodes) && p.epoch >= 0 && p.volume >= 0
    ensures var t, s := RoleReset(sc), SplitParts(p.nodes, sc.index);
      && WellFormed(t)
      && !InitHandled(t, p).sched.suspended && InitHandled(t, p).packages == []
      && InitHandled(t, p).requests == RequestsOpened(s.0, s.1, sc.index, p.epoch, p.volume)
  {
    var t := RoleReset(sc);
    OpenedForm(t, p.epoch, p.volume, p.nodes, p.src);
    OpeningRequestsExactly(t, p.epoch, p.volume, p.nodes, p.src);
  }

  /** The root resumes once no child has nodes, and asks for the children within the volume; before, it only waits. */
  lemma {:induction false} ResumptionExactly(sc: Sched)
    requires WellFormed(sc) && sc.index == 0 && sc.suspending && !sc.suspended
    ensures var o, e := ResumptionBegun(sc), Max(sc.lastEpoch, sc.lastSuspension);
      if ChildrenHaveNodes(sc) then o == Outcome(sc.(resuming := true), [], [], [])
      else
        var s := SplitParts(Cleaned(AllNodes(sc)), 0);
        && !o.sched.suspending && !o.sched.resuming && !o.sched.suspended && o.packages == []
        && o.requests == RequestsOpened(s.0, s.1, 0, if sc.lastVolume >= 0 then e else sc.lastEpoch, sc.lastVolume)
  {
    if !ChildrenHaveNodes(sc) {
      var t := sc.(resuming := false, suspending := false, left := None, right := None);
      var e, nodes := Max(sc.lastEpoch, sc.lastSuspension), Cleaned(AllNodes(sc));
      OpenedForm(t, e, sc.lastVolume, nodes, sc.parentRank);
      OpeningRequestsExactly(t, e, sc.lastVolume, nodes, sc.parentRank);
    }
  }

  // ---------------------------------------------------------------------
  // In every run
  // ---------------------------------------------------------------------

  lemma {:induction false} OpenedSessionTimely(nodes: seq<Node>, childIndex: nat, epoch: int, volume: int)
    requires epoch >= -1
    ensures OpenedSession(nodes, childIndex, epoch, volume).session.epoch <= epoch
  {
    if epoch >= 0 { BalancingUpdateExactly(NewSession(nodes, childIndex), epoch, volume, false); }
  }

  lemma {:induction false} OpenedWithTimely(sc: Sched, a: seq<Node>, b: seq<Node>)
    requires sc.lastEpoch >= -1
    ensures Timely(OpenedWith(sc, a, b).sched)
  {
    OpenedSessionTimely(a, 2 * sc.index + 1, sc.lastEpoch, sc.lastVolume);
    OpenedSessionTimely(b, 2 * sc.index + 2, sc.lastEpoch, sc.lastVolume);
  }

  lemma {:induction false} OpenedTimely(sc: Sched, epoch: int, volume: int, nodes: seq<Node>, parentRank: int)
    requires sc.lastEpoch >= -1 && Ordered(nodes)
    ensures Timely(Opened(sc, epoch, volume, nodes, parentRank).sched)
  {
    var p := SplitParts(nodes, sc.index);
    OpenedWithTimely(Adopted(sc, epoch, volume, parentRank), p.0, p.1);
  }

  lemma {:induction false} ReturnedTimely(o: Outcome)
    requires WellFormed(o.sched) && Timely(o.sched)
    ensures Timely(ReturnedIfPossible(o).sched)
  {
  }

  lemma {:induction false} ResumedTimely(sc: Sched)
    requires WellFormed(sc) && Timely(sc) && !sc.suspended
    ensures Timely(Resumed(sc).sched)
  {
    var t := sc.(resuming := false, suspending := false, left := None, right := None);
    OpenedTimely(t, Max(sc.lastEpoch, sc.lastSuspension), sc.lastVolume, Cleaned(AllNodes(sc)), sc.parentRank);
  }

  lemma {:induction false} SettledTimely(o: Outcome)
    requires WellFormed(o.sched) && Timely(o.sched)
    ensures Timely(Settled(o).sched)
  {
    ReturnedTimely(o);
    var p := ReturnedIfPossible(o);
    if CanResume(p.sched) { ResumedTimely(p.sched); }
  }

  lemma {:induction false} SuspensionTimely(sc: Sched, epoch: int)
    requires WellFormed(sc) && Timely(sc)
    ensures Timely(SuspensionBegun(sc, epoch).sched)
  {
    var t := sc.(lastSuspension := if epoch == -1 then Max(sc.lastEpoch, sc.lastSuspension) else epoch);
    if !t.suspended { ReturnedTimely(Outcome(t.(suspending := true), [], [], [])); }
  }

  lemma {:induction false} UpdatedTimely(sc: Sched, epoch: int, volume: int, hasLeft: bool, hasRight: bool)
    requires WellFormed(sc) && Timely(sc)
    ensures Timely(Updated(sc, epoch, volume, hasLeft, hasRight).sched)
  {
    if sc.lastEpoch < epoch && !sc.suspending && !sc.suspended {
      UpdatedKeepsForm(sc, epoch, volume, hasLeft, hasRight);
      BalancingUpdateExactly(sc.left.value, epoch, volume, hasLeft);
      BalancingUpdateExactly(sc.right.value, epoch, volume, hasRight);
      var u := sc.(lastEpoch := epoch, lastVolume := volume,
                   left := Some(BalancingUpdated(sc.left.value, epoch, volume, hasLeft).session),
                   right := Some(BalancingUpdated(sc.right.value, epoch, volume, hasRight).session));
      SuspensionTimely(u, epoch);
    }
  }

  lemma {:induction false} InitTimely(sc: Sched, p: Package)
    requires WellFormed(sc) && Timely(sc) && sc.suspended && Ordered(p.nodes)
    ensures Timely(InitHandled(sc, p).sched)
  {
    InitializedForm(sc, p.epoch, p.volume, p.nodes, p.src);
    OpenedTimely(sc, p.epoch, p.volume, p.nodes, p.src);
    SettledTimely(Initialized(sc, p.epoch, p.volume, p.nodes, p.src));
  }

  lemma {:induction false} ReturnTimely(sc: Sched, p: Package)
    requires WellFormed(sc) && Timely(sc)
    ensures Timely(ReturnHandled(sc, p).sched)
  {
    var side := SideByRank(sc, p.src);
    if side == Neither {
      SettledTimely(Outcome(sc, [], [], []));
    } else {
      SettledTimely(Outcome(WithSession(sc, side, NodesReturned(SessionAt(sc, side), p.nodes)), [], [], []));
    }
  }

  ghost predicate AllTimely(s: State)
  {
    forall k {:trigger s.scheds[k]} :: k in s.scheds ==> Timely(s.scheds[k])
  }

  lemma {:induction false} AppliedTimely(s: State, k: Key, o: Outcome)
    requires AllTimely(s) && Timely(o.sched)
    ensures AllTimely(Apply(s, k, o))
  {
  }

  lemma {:induction false} JoiningTimely(sc: Sched, source: int, epoch: int, child: nat)
    requires WellFormed(sc) && Timely(sc)
    ensures Timely(JoiningHandled(sc, source, epoch, child).sched)
  {
  }

  lemma {:induction false} RejectionTimely(sc: Sched, epoch: int, child: nat, lost: bool, hasChild: bool)
    requires WellFormed(sc) && Timely(sc)
    ensures Timely(RejectionHandled(sc, epoch, child, lost, hasChild).sched)
  {
    var side := SideByIndex(sc, child);
    if side != Neither {
      RejectionExactly(SessionAt(sc, side), epoch, lost, hasChild, sc.suspended || sc.suspending);
    }
  }

  lemma {:induction false} LocalTimely(s: State, tok: map<nat, T.Token>, ev: Event)
    requires Inv(s, tok) && Safe(s) && Enabled(s, ev) && AllTimely(s) && (ev.Join? || ev.Reject? || ev.Balance?)
    ensures AllTimely(Step(s, ev))
  {
    var k := (ev.rank, ev.index);
    var sc := s.scheds[k];
    assert SchedSane(k, sc) && Timely(sc);
    match ev
    case Join(rank, index, source, epoch, child) =>
      JoiningTimely(sc, source, epoch, child);
      AppliedTimely(s, k, JoiningHandled(sc, source, epoch, child));
    case Reject(rank, index, epoch, child, lost, hasChild) =>
      RejectionTimely(sc, epoch, child, lost, hasChild);
      AppliedTimely(s, k, RejectionHandled(sc, epoch, child, lost, hasChild));
    case Balance(rank, index, epoch, volume, hasLeft, hasRight) =>
      UpdatedTimely(sc, epoch, volume, hasLeft, hasRight);
      AppliedTimely(s, k, Updated(sc, epoch, volume, hasLeft, hasRight));
  }

  lemma {:induction false} RootTimely(s: State, tok: map<nat, T.Token>, ev: Event)
    requires Inv(s, tok) && Safe(s) && Enabled(s, ev) && AllTimely(s) && (ev.RootStart? || ev.RootResume?)
    ensures AllTimely(Step(s, ev))
  {
    var k := (s.root, 0);
    assert k in s.scheds ==> SchedSane(k, s.scheds[k]) && Timely(s.scheds[k]);
    match ev
    case RootStart(epoch, client) =>
      var sc := if k in s.scheds then s.scheds[k] else NewScheduler(s.root, 0, client);
      OpenedTimely(sc, if epoch < 0 then 0 else epoch, -1, [], client);
    case RootResume =>
      ResumedTimely(s.scheds[k].(resuming := true));
  }

  lemma {:induction false} DeliveryTimely(s: State, tok: map<nat, T.Token>, pos: nat)
    requires Inv(s, tok) && Safe(s) && pos < |s.net| && AllTimely(s)
    ensures AllTimely(Step(s, Deliver(pos)))
  {
    var p := s.net[pos];
    var k := (p.dst, p.destIndex);
    if k in s.scheds {
      assert SchedSane(k, s.scheds[k]) && Timely(s.scheds[k]);
      if p.tag == InitializeChild { InitTimely(s.scheds[k], p); } else { ReturnTimely(s.scheds[k], p); }
    }
  }

  lemma {:induction false} StepTimely(s: State, tok: map<nat, T.Token>, ev: Event)
    requires Inv(s, tok) && Safe(s) && Enabled(s, ev) && AllTimely(s)
    ensures AllTimely(Step(s, ev))
  {
    match ev
    case RootStart(_, _) => RootTimely(s, tok, ev);
    case RootResume => RootTimely(s, tok, ev);
    case Commit(rank, index, parentRank) =>
    case Join(_, _, _, _, _) => LocalTimely(s, tok, ev);
    case Reject(_, _, _, _, _, _) => LocalTimely(s, tok, ev);
    case Balance(_, _, _, _, _, _) => LocalTimely(s, tok, ev);
    case Suspend(rank, index) =>
      assert SchedSane((rank, index), s.scheds[(rank, index)]) && Timely(s.scheds[(rank, index)]);
      SuspensionTimely(s.scheds[(rank, index)], -1);
    case Forget(rank, index) =>
    case Freed(rank, index, freedRank, epoch) =>
      assert Timely(s.scheds[(rank, index)]);
    case Deliver(pos) => DeliveryTimely(s, tok, pos);
  }

  lemma {:induction false} NextTimely(tr: seq<State>, evs: seq<Event>, t: nat, u: nat)
    requires IsRun(tr, evs) && u == t + 1 <= |evs| && AllTimely(tr[t])
    ensures AllTimely(tr[u])
  {
    var tok := RunIsSafe(tr, evs, t);
    var ev, s' := evs[t], tr[u];
    StepTimely(tr[t], tok, ev);
    assert s' == Step(tr[t], ev);
  }

  lemma {:induction false} RunTimely(tr: seq<State>, evs: seq<Event>, i: nat)
    requires IsRun(tr, evs) && i < |tr|
    ensures AllTimely(tr[i])
  {
    if i > 0 {
      RunTimely(tr, evs, i - 1);
      NextTimely(tr, evs, i - 1, i);
    }
  }

  /**
   In every run, a new balancing result makes a scheduler which is neither suspending nor suspended emit exactly one
   request for each child which is missing, within the volume and without nodes.
   */
  lemma {:induction false} RequestsInRun(tr: seq<State>, evs: seq<Event>, i: nat, k: Key, epoch: int, volume: int,
      hasLeft: bool, hasRight: bool)
    requires IsRun(tr, evs) && i < |tr| && k in tr[i].scheds
    requires var sc := tr[i].scheds[k]; epoch > sc.lastEpoch && !sc.suspending && !sc.suspended
    ensures var sc := tr[i].scheds[k];
      && WellFormed(sc) && sc.left.Some? && sc.right.Some?
      && var l, r := sc.left.value, sc.right.value;
         Updated(sc, epoch, volume, hasLeft, hasRight).requests
           == RequestsFor(l, r, !hasLeft && 2 * sc.index + 1 < volume && !l.childHasNodes,
                          !hasRight && 2 * sc.index + 2 < volume && !r.childHasNodes, epoch)
  {
    var tok := RunIsSafe(tr, evs, i);
    RunTimely(tr, evs, i);
    var sc := tr[i].scheds[k];
    assert Timely(sc);
    UpdateRequestsExactly(sc, epoch, volume, hasLeft, hasRight);
  }
}
