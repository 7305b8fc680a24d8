/**
 The local scheduler of one job node (LocalScheduler in src/scheduling/local_scheduler.hpp),
 as functions of its state. The classes in SchedulerObjects.dfy are proved against these functions.
 */
module LocalScheduling {
  import opened Options
  import opened JobTreeIndex
  import opened JobNodes
  import opened ChildSessions

  datatype Tag = InitializeChild | ReturnNodes

  /**
   A scheduling package (JobSchedulingUpdate) on its way from src to dst. The field child is a
   history variable which no handler reads: the index of the child whose nodes it carries.
   */
  datatype Package = Package(
    tag: Tag, src: int, dst: int, destIndex: nat, epoch: int, volume: int, nodes: seq<Node>, child: nat)

  /** A job request for the left or right child; dest is -1 for an undirected request. */
  datatype Request = Request(epoch: int, left: bool, dest: int)

  datatype Sched = Sched(
    rank: int, index: nat, parentRank: int,
    left: Option<Session>, right: Option<Session>,
    lastSuspension: int, lastEpoch: int, lastVolume: int,
    suspending: bool, suspended: bool, resuming: bool)

  datatype Outcome = Outcome(sched: Sched, packages: seq<Package>, released: seq<Node>, requests: seq<Request>)

  /**
   What every operation keeps: both sessions exist exactly if the scheduler is not suspended,
   and they belong to the two children of this node.
   */
  ghost predicate WellFormed(sc: Sched)
  {
    && sc.suspended == sc.left.None?
    && sc.suspended == sc.right.None?
    && (sc.suspended ==> !sc.suspending)
    && (sc.resuming ==> sc.index == 0 && sc.suspending)
    && (!sc.suspended ==>
          && sc.left.value.childIndex == 2 * sc.index + 1 && Ordered(sc.left.value.nodes)
          && sc.right.value.childIndex == 2 * sc.index + 2 && Ordered(sc.right.value.nodes))
  }

  function NewScheduler(rank: int, index: nat, parentRank: int): Sched
  {
    Sched(rank, index, parentRank, None, None, -1, -1, -1, false, true, false)
  }

  function Max(a: int, b: int): int { if a >= b then a else b }

  function ParentIndex(index: nat): nat
  {
    if index == 0 then 0 else Parent(index)
  }

  function Emitted(d: Directive, s: Session, leftIndex: nat): seq<Request>
  {
    if d.DoNothing? then []
    else [Request(s.epoch, s.childIndex == leftIndex, if d.EmitDirectedRequest? then s.childRank else -1)]
  }

  function Requested(l: Reaction, r: Reaction, leftIndex: nat): seq<Request>
  {
    Emitted(l.directive, l.session, leftIndex) + Emitted(r.directive, r.session, leftIndex)
  }

  /** A session made from its share of the nodes and brought up to date with the last balancing. */
  function OpenedSession(nodes: seq<Node>, childIndex: nat, lastEpoch: int, lastVolume: int): Reaction
  {
    var s := NewSession(nodes, childIndex);
    if lastEpoch >= 0 then BalancingUpdated(s, lastEpoch, lastVolume, false)
    else Reaction(s, DoNothing, [])
  }

  predicate IsPast(sc: Sched, epoch: int)
  {
    sc.index > 0 && epoch <= sc.lastSuspension
  }

  /** Take over the parent and, if it is news, the balancing result of an update. */
  function Adopted(sc: Sched, epoch: int, volume: int, parentRank: int): Sched
  {
    var t := sc.(parentRank := parentRank, suspended := false);
    if volume >= 0 && epoch > sc.lastEpoch then t.(lastEpoch := epoch, lastVolume := volume) else t
  }

  /** Two new sessions. */
  function WithSessions(sc: Sched, l: Reaction, r: Reaction): Outcome
  {
    Outcome(sc.(left := Some(l.session), right := Some(r.session)), [], l.released + r.released,
            Requested(l, r, 2 * sc.index + 1))
  }

  function OpenedWith(sc: Sched, a: seq<Node>, b: seq<Node>): Outcome
  {
    WithSessions(sc, OpenedSession(a, 2 * sc.index + 1, sc.lastEpoch, sc.lastVolume),
                 OpenedSession(b, 2 * sc.index + 2, sc.lastEpoch, sc.lastVolume))
  }

  /** Distribute the nodes over two new sessions. */
  function OpenedSessions(sc: Sched, nodes: seq<Node>): Outcome
    requires Ordered(nodes)
  {
    var p := SplitParts(nodes, sc.index);
    OpenedWith(sc, p.0, p.1)
  }

  /** initializeScheduling for an update which is not from the past. */
  function Opened(sc: Sched, epoch: int, volume: int, nodes: seq<Node>, parentRank: int): Outcome
    requires Ordered(nodes)
  {
    OpenedSessions(Adopted(sc, epoch, volume, parentRank), nodes)
  }

  function Initialized(sc: Sched, epoch: int, volume: int, nodes: seq<Node>, parentRank: int): Outcome
    requires Ordered(nodes)
  {
    if IsPast(sc, epoch) then
      Outcome(sc.(parentRank := parentRank),
              [Package(ReturnNodes, sc.rank, parentRank, ParentIndex(sc.index), epoch, volume, nodes, sc.index)],
              [], [])
    else Opened(sc, epoch, volume, nodes, parentRank)
  }

  predicate ChildrenHaveNodes(sc: Sched)
  {
    (sc.left.Some? && sc.left.value.childHasNodes) || (sc.right.Some? && sc.right.value.childHasNodes)
  }

  predicate CanReturn(sc: Sched)
  {
    sc.index != 0 && !sc.suspended && sc.suspending && !ChildrenHaveNodes(sc)
  }

  /** The nodes of both sessions. */
  function AllNodes(sc: Sched): (r: seq<Node>)
    requires WellFormed(sc) && !sc.suspended
    ensures Ordered(r)
  {
    Merged(Merged([], sc.left.value.nodes), sc.right.value.nodes)
  }

  function ReturnedNodes(sc: Sched): (r: seq<Node>)
    requires WellFormed(sc) && !sc.suspended
    ensures Ordered(r)
  {
    Cleaned(Insert(AllNodes(sc), Node(sc.rank, sc.index, sc.lastEpoch, Available)))
  }

  /** The scheduler suspends, with the given nodes in its package. */
  function ReturnedWith(sc: Sched, nodes: seq<Node>): Outcome
  {
    Outcome(sc.(suspending := false, suspended := true, left := None, right := None),
            [Package(ReturnNodes, sc.rank, sc.parentRank, ParentIndex(sc.index), -1, -1, nodes, sc.index)],
            [], [])
  }

  function ReturnedToParent(sc: Sched): Outcome
    requires WellFormed(sc) && !sc.suspended
  {
    ReturnedWith(sc, ReturnedNodes(sc))
  }

  /** Following an operation: return the nodes as soon as this is possible. */
  function ReturnedIfPossible(o: Outcome): Outcome
    requires WellFormed(o.sched)
  {
    if CanReturn(o.sched) then
      var r := ReturnedToParent(o.sched);
      r.(packages := o.packages + r.packages, released := o.released, requests := o.requests)
    else o
  }

  lemma {:induction false} ReturnedWhenPossible(sc: Sched)
    requires WellFormed(sc) && CanReturn(sc)
    ensures ReturnedIfPossible(Outcome(sc, [], [], [])) == ReturnedToParent(sc)
  {
  }

  function SuspensionBegun(sc: Sched, epoch: int): Outcome
    requires WellFormed(sc)
  {
    var e := if epoch == -1 then Max(sc.lastEpoch, sc.lastSuspension) else epoch;
    var t := sc.(lastSuspension := e);
    if t.suspended then Outcome(t, [], [], [])
    else ReturnedIfPossible(Outcome(t.(suspending := true), [], [], []))
  }

  function Updated(sc: Sched, epoch: int, volume: int, hasLeft: bool, hasRight: bool): Outcome
    requires WellFormed(sc)
  {
    if sc.lastEpoch >= epoch then Outcome(sc, [], [], [])
    else
      var t := sc.(lastEpoch := epoch, lastVolume := volume);
      if sc.suspending || sc.suspended then Outcome(t, [], [], [])
      else
        var l := BalancingUpdated(t.left.value, epoch, volume, hasLeft);
        var r := BalancingUpdated(t.right.value, epoch, volume, hasRight);
        var u := t.(left := Some(l.session), right := Some(r.session));
        UpdatedKeepsForm(sc, epoch, volume, hasLeft, hasRight);
        var o := if volume <= sc.index && sc.index > 0 then SuspensionBegun(u, epoch) else Outcome(u, [], [], []);
        o.(released := l.released + r.released,
           requests := Requested(l, r, 2 * sc.index + 1))
  }

  lemma {:induction false} UpdatedKeepsForm(sc: Sched, epoch: int, volume: int, hasLeft: bool, hasRight: bool)
    requires WellFormed(sc) && !sc.suspended
    ensures WellFormed(sc.(lastEpoch := epoch, lastVolume := volume,
                           left := Some(BalancingUpdated(sc.left.value, epoch, volume, hasLeft).session),
                           right := Some(BalancingUpdated(sc.right.value, epoch, volume, hasRight).session)))
  {
    BalancingUpdatedForm(sc.left.value, epoch, volume, hasLeft);
    BalancingUpdatedForm(sc.right.value, epoch, volume, hasRight);
  }

  lemma {:induction false} BalancingUpdatedForm(s: Session, epoch: int, volume: int, hasChild: bool)
    requires Ordered(s.nodes)
    ensures var t := BalancingUpdated(s, epoch, volume, hasChild).session;
            Ordered(t.nodes) && SameKeys(s.nodes, t.nodes)
            && t.childIndex == s.childIndex && t.childHasNodes == s.childHasNodes
            && (s.childHasNodes ==> t.childRank == s.childRank)
            && (forall j :: 0 <= j < |s.nodes| ==> (s.nodes[j].status == Lost <==> t.nodes[j].status == Lost))
  {
    SameKeysOrdered(s.nodes, BalancingUpdated(s, epoch, volume, hasChild).session.nodes);
  }

  datatype Side = Left | Right | Neither

  /** getSessionByChildRank: an equal rank in both sessions is resolved by who still has nodes. */
  function SideByRank(sc: Sched, rank: int): Side
  {
    if sc.left.Some? && sc.right.Some? && sc.left.value.childRank == sc.right.value.childRank
       && rank == sc.left.value.childRank then
      if sc.left.value.childHasNodes then Left else Right
    else if sc.left.Some? && rank == sc.left.value.childRank then Left
    else if sc.right.Some? && rank == sc.right.value.childRank then Right
    else Neither
  }

  /** getSessionByChildIndex: the two sessions of a well-formed scheduler never share an index. */
  function SideByIndex(sc: Sched, index: int): Side
  {
    if sc.left.Some? && sc.right.Some? && sc.left.value.childIndex == sc.right.value.childIndex
       && index == sc.left.value.childIndex then
      if sc.left.value.childHasNodes then Left else Right
    else if sc.left.Some? && index == sc.left.value.childIndex then Left
    else if sc.right.Some? && index == sc.right.value.childIndex then Right
    else Neither
  }

  function SessionAt(sc: Sched, side: Side): Session
    requires side != Neither && (side == Left ==> sc.left.Some?) && (side == Right ==> sc.right.Some?)
  {
    if side == Left then sc.left.value else sc.right.value
  }

  function WithSession(sc: Sched, side: Side, s: Session): Sched
    requires side != Neither
  {
    if side == Left then sc.(left := Some(s)) else sc.(right := Some(s))
  }

  function Resumed(sc: Sched): Outcome
    requires WellFormed(sc) && !sc.suspended
  {
    Opened(sc.(resuming := false, suspending := false, left := None, right := None),
           Max(sc.lastEpoch, sc.lastSuspension), sc.lastVolume, Cleaned(AllNodes(sc)), sc.parentRank)
  }

  predicate CanResume(sc: Sched)
  {
    sc.resuming && !ChildrenHaveNodes(sc)
  }

  /** What handle does after every message. */
  function Settled(o: Outcome): Outcome
    requires WellFormed(o.sched)
  {
    var p := ReturnedIfPossible(o);
    if CanResume(p.sched) then
      var q := Resumed(p.sched);
      Outcome(q.sched, p.packages + q.packages, p.released + q.released, p.requests + q.requests)
    else p
  }

  function InitHandled(sc: Sched, p: Package): Outcome
    requires WellFormed(sc) && Ordered(p.nodes) && (sc.suspended || IsPast(sc, p.epoch))
  {
    InitializedForm(sc, p.epoch, p.volume, p.nodes, p.src);
    Settled(Initialized(sc, p.epoch, p.volume, p.nodes, p.src))
  }

  lemma {:induction false} InitializedForm(sc: Sched, epoch: int, volume: int, nodes: seq<Node>, parentRank: int)
    requires WellFormed(sc) && Ordered(nodes) && (sc.suspended || IsPast(sc, epoch))
    ensures WellFormed(Initialized(sc, epoch, volume, nodes, parentRank).sched)
  {
    OpenedForm(sc, epoch, volume, nodes, parentRank);
  }

  lemma {:induction false} OpenedSessionForm(nodes: seq<Node>, childIndex: nat, lastEpoch: int, lastVolume: int)
    requires Ordered(nodes)
    ensures FreshSession(OpenedSession(nodes, childIndex, lastEpoch, lastVolume).session, childIndex, nodes)
  {
    BalancingUpdatedForm(NewSession(nodes, childIndex), lastEpoch, lastVolume, false);
  }

  lemma {:induction false} OpenedLeft(sc: Sched, a: seq<Node>, b: seq<Node>)
    requires Ordered(a)
    ensures var t := OpenedWith(sc, a, b).sched; t.left.Some? && FreshSession(t.left.value, 2 * sc.index + 1, a)
  {
    OpenedSessionForm(a, 2 * sc.index + 1, sc.lastEpoch, sc.lastVolume);
  }

  lemma {:induction false} OpenedRight(sc: Sched, a: seq<Node>, b: seq<Node>)
    requires Ordered(b)
    ensures var t := OpenedWith(sc, a, b).sched; t.right.Some? && FreshSession(t.right.value, 2 * sc.index + 2, b)
  {
    OpenedSessionForm(b, 2 * sc.index + 2, sc.lastEpoch, sc.lastVolume);
  }

  /** Opening distributes the nodes over two fresh sessions without changing their keys. */
  lemma {:induction false} OpenedForm(sc: Sched, epoch: int, volume: int, nodes: seq<Node>, parentRank: int)
    requires Ordered(nodes)
    ensures var o := Opened(sc, epoch, volume, nodes, parentRank);
            && o.packages == []
            && o.sched.rank == sc.rank && o.sched.index == sc.index && o.sched.parentRank == parentRank
            && o.sched.suspending == sc.suspending && !o.sched.suspended && o.sched.resuming == sc.resuming
            && o.sched.left.Some? && FreshSession(o.sched.left.value, 2 * sc.index + 1, SplitParts(nodes, sc.index).0)
            && o.sched.right.Some? && FreshSession(o.sched.right.value, 2 * sc.index + 2, SplitParts(nodes, sc.index).1)
  {
    var t, p := Adopted(sc, epoch, volume, parentRank), SplitParts(nodes, sc.index);
    OpenedLeft(t, p.0, p.1);
    OpenedRight(t, p.0, p.1);
  }

  /** A session just opened with the given nodes: only their statuses may have changed. */
  ghost predicate FreshSession(s: Session, childIndex: nat, nodes: seq<Node>)
  {
    && s.childIndex == childIndex && Ordered(s.nodes) && !s.childHasNodes
    && SameKeys(nodes, s.nodes)
    && forall j :: 0 <= j < |nodes| ==> (nodes[j].status == Lost <==> s.nodes[j].status == Lost)
  }

  function ReturnHandled(sc: Sched, p: Package): Outcome
    requires WellFormed(sc)
  {
    var side := SideByRank(sc, p.src);
    if side == Neither then Settled(Outcome(sc, [], [], []))
    else Settled(Outcome(WithSession(sc, side, NodesReturned(SessionAt(sc, side), p.nodes)), [], [], []))
  }

  function RejectionHandled(sc: Sched, epoch: int, index: int, lost: bool, hasChild: bool): Outcome
    requires WellFormed(sc)
  {
    var side := SideByIndex(sc, index);
    if side == Neither then Outcome(sc, [], [], [])
    else
      var r := Rejected(SessionAt(sc, side), epoch, lost, hasChild, sc.suspended || sc.suspending);
      Outcome(WithSession(sc, side, r.session), [], r.released, Emitted(r.directive, r.session, 2 * sc.index + 1))
  }

  predicate AcceptsChild(sc: Sched, index: int)
    requires WellFormed(sc)
  {
    var side := SideByIndex(sc, index);
    side != Neither && WantsChild(SessionAt(sc, side))
  }

  function JoiningHandled(sc: Sched, source: int, epoch: int, index: int): Outcome
    requires WellFormed(sc)
  {
    var side := SideByIndex(sc, index);
    if side == Neither then Outcome(sc, [], [], [])
    else
      var s := SessionAt(sc, side);
      var r := ChildJoined(s, source, epoch);
      Outcome(WithSession(sc, side, r.session),
              [Package(InitializeChild, sc.rank, source, s.childIndex, epoch, s.volume, NodesForChild(s),
                s.childIndex)],
              r.released, [])
  }

  function NodeFreed(sc: Sched, rank: int, epoch: int, index: nat): Sched
  {
    sc.(left := if sc.left.Some? then Some(NodeRemoved(sc.left.value, rank, epoch, index)) else None,
        right := if sc.right.Some? then Some(NodeRemoved(sc.right.value, rank, epoch, index)) else None)
  }

  function RoleReset(sc: Sched): Sched
  {
    sc.(lastSuspension := -1, lastEpoch := -1, left := None, right := None)
  }

  /** beginResumptionAsRoot */
  function ResumptionBegun(sc: Sched): Outcome
    requires WellFormed(sc) && sc.index == 0 && sc.suspending && !sc.suspended
  {
    var t := sc.(resuming := true);
    if CanResume(t) then Resumed(t) else Outcome(t, [], [], [])
  }
}
