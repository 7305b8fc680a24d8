/**
 The parent's side of the relation to one potential child of a job node
 (ChildInterface in src/scheduling/session.hpp).
 */
module ChildSessions {
  import opened JobNodes

  const INT32_MAX: int := 0x7fff_ffff
  const MAX_QUERIES: nat := 4

  datatype Session = Session(
    nodes: seq<Node>, epoch: int, volume: int, childIndex: nat, childRank: int,
    numQueried: nat, childHasNodes: bool)

  datatype Directive = DoNothing | EmitDirectedRequest | EmitUndirectedRequest

  /** What an operation on a session leads to: the new session, what to emit, whom to release. */
  datatype Reaction = Reaction(session: Session, directive: Directive, released: seq<Node>)

  function NewSession(nodes: seq<Node>, childIndex: nat): Session
  {
    Session(nodes, -1, -1, childIndex, -1, 0, false)
  }

  predicate WantsChild(s: Session)
  {
    s.childIndex < s.volume && !s.childHasNodes
  }

  /** Two lists that differ in statuses only. */
  ghost predicate SameKeys(s: seq<Node>, t: seq<Node>)
  {
    |s| == |t| && forall j :: 0 <= j < |s| ==> SameKey(s[j], t[j])
  }

  lemma {:induction false} SameKeysOrdered(s: seq<Node>, t: seq<Node>)
    requires SameKeys(s, t) && Ordered(s)
    ensures Ordered(t)
  {
    forall i, j | 0 <= i < j < |t|
      ensures Before(t[i], t[j])
    {
      assert Before(s[i], s[j]);
    }
  }

  // ---------------------------------------------------------------------
  // Status changes
  // ---------------------------------------------------------------------

  /** At a new epoch busy nodes get another chance, except those the volume does not reach. */
  function ResetStatus(n: Node, volume: int): Node
  {
    if n.status == Lost then n
    else n.(status := if n.index >= volume then Busy else Available)
  }

  function ResetStatuses(s: seq<Node>, volume: int): (r: seq<Node>)
    ensures SameKeys(s, r)
    ensures forall j :: 0 <= j < |s| ==> r[j] == ResetStatus(s[j], volume)
  {
    if s == [] then [] else [ResetStatus(s[0], volume)] + ResetStatuses(s[1..], volume)
  }

  /** Whether notifyRemainingInactiveNodes releases n; -1 stands for every index. */
  predicate Notifies(n: Node, particularIndex: int)
  {
    n.status == Available && (particularIndex == -1 || n.index == particularIndex)
  }

  function Notified(s: seq<Node>, particularIndex: int): (r: seq<Node>)
    ensures SameKeys(s, r)
    ensures forall j :: 0 <= j < |s| ==> r[j] == if Notifies(s[j], particularIndex) then s[j].(status := Busy) else s[j]
  {
    if s == [] then []
    else [if Notifies(s[0], particularIndex) then s[0].(status := Busy) else s[0]] + Notified(s[1..], particularIndex)
  }

  function ReleasedNodes(s: seq<Node>, particularIndex: int): (r: seq<Node>)
    ensures forall m :: m in r <==> m in s && Notifies(m, particularIndex)
  {
    if s == [] then []
    else
      var r := ReleasedNodes(s[1..], particularIndex);
      assert s == [s[0]] + s[1..];
      if Notifies(s[0], particularIndex) then [s[0]] + r else r
  }

  // ---------------------------------------------------------------------
  // findAndUpdateNode
  // ---------------------------------------------------------------------

  predicate Matches(n: Node, rank: int, index: nat)
  {
    n.rank == rank && n.index == index && !Before(n, Node(rank, index, INT32_MAX, Available))
  }

  /** The first position of a node with this rank and index (the newest such node). */
  function FindPos(s: seq<Node>, rank: int, index: nat): (k: nat)
    ensures k <= |s|
    ensures k < |s| ==> Matches(s[k], rank, index)
    ensures forall j :: 0 <= j < k ==> !Matches(s[j], rank, index)
  {
    if s == [] then 0
    else if Matches(s[0], rank, index) then 0
    else 1 + FindPos(s[1..], rank, index)
  }

  function FoundAndUpdated(s: seq<Node>, rank: int, index: nat, epoch: int, status: Status): (r: seq<Node>)
    requires Ordered(s)
    ensures Ordered(r)
  {
    var k := FindPos(s, rank, index);
    if k == |s| then s
    else Insert(Erase(s, s[k]), s[k].(epoch := epoch, status := status))
  }

  /**
   No rank is dropped by the update; a record can only be replaced by one of the same rank which
   is at least as new, except that the record found gets exactly the epoch of the update. Only
   the record found can become lost.
   */
  lemma {:induction false} UpdateKeepsRanks(s: seq<Node>, rank: int, index: nat, epoch: int, status: Status)
    requires Ordered(s)
    ensures forall n :: n in s ==>
      exists m :: m in FoundAndUpdated(s, rank, index, epoch, status) && m.rank == n.rank
               && (m.epoch >= n.epoch || (m.epoch == epoch && n.rank == rank && FindPos(s, rank, index) < |s|))
    ensures forall m :: m in FoundAndUpdated(s, rank, index, epoch, status) ==>
      m in s || m == Node(rank, index, epoch, status)
  {
    var k := FindPos(s, rank, index);
    var r := FoundAndUpdated(s, rank, index, epoch, status);
    forall n | n in s
      ensures exists m ::
        m in r && m.rank == n.rank && (m.epoch >= n.epoch || (m.epoch == epoch && n.rank == rank && k < |s|))
    {
      if k == |s| {
        assert n in r && n.epoch >= n.epoch;
      } else if SameKey(n, s[k]) {
        var e := Erase(s, s[k]);
        var u := s[k].(epoch := epoch, status := status);
        if HasKey(e, u) {
          var m :| m in e && SameKey(m, u);
          assert m in r;
        } else {
          assert u in r;
        }
      } else {
        assert n in Erase(s, s[k]);
        assert n in r && n.epoch >= n.epoch;
      }
    }
  }

  // ---------------------------------------------------------------------
  // The operations, as functions of the session
  // ---------------------------------------------------------------------

  predicate Candidate(n: Node, childIndex: nat)
  {
    n.status == Available && n.index == childIndex
  }

  function FirstCandidate(s: seq<Node>, childIndex: nat): (k: nat)
    ensures k <= |s|
    ensures k < |s| ==> Candidate(s[k], childIndex)
    ensures forall j :: 0 <= j < k ==> !Candidate(s[j], childIndex)
  {
    if s == [] then 0
    else if Candidate(s[0], childIndex) then 0
    else 1 + FirstCandidate(s[1..], childIndex)
  }

  function Recruited(s: Session): Reaction
  {
    var k := FirstCandidate(s.nodes, s.childIndex);
    if s.numQueried < MAX_QUERIES && k < |s.nodes| then
      Reaction(s.(childRank := s.nodes[k].rank, numQueried := s.numQueried + 1), EmitDirectedRequest, [])
    else
      Reaction(s.(nodes := Notified(s.nodes, s.childIndex)), EmitUndirectedRequest,
               ReleasedNodes(s.nodes, s.childIndex))
  }

  function ReleasedRemaining(s: Session): Reaction
  {
    Reaction(s.(nodes := Notified(s.nodes, -1)), DoNothing, ReleasedNodes(s.nodes, -1))
  }

  function BalancingUpdated(s: Session, newEpoch: int, newVolume: int, hasChild: bool): Reaction
  {
    if newEpoch <= s.epoch then Reaction(s, DoNothing, [])
    else
      var t := s.(numQueried := 0, epoch := newEpoch, volume := newVolume,
                  nodes := ResetStatuses(s.nodes, newVolume));
      if !hasChild && WantsChild(t) then Recruited(t) else ReleasedRemaining(t)
  }

  function Rejected(s: Session, epoch: int, lost: bool, hasChild: bool, suspended: bool): Reaction
    requires Ordered(s.nodes)
  {
    var t := s.(nodes := FoundAndUpdated(s.nodes, s.childRank, s.childIndex, epoch, if lost then Lost else Busy));
    if !hasChild && !suspended && WantsChild(t) then Recruited(t) else Reaction(t, DoNothing, [])
  }

  /** The nodes handed over to a joining child. */
  function NodesForChild(s: Session): seq<Node>
  {
    Cleaned(Select(s.nodes, s.childIndex, true, true))
  }

  function ChildJoined(s: Session, source: int, epoch: int): Reaction
    requires Ordered(s.nodes)
  {
    var rest := Select(s.nodes, s.childIndex, true, false);
    ReleasedRemaining(s.(childRank := source, childHasNodes := true,
                         nodes := FoundAndUpdated(rest, source, s.childIndex, epoch, Busy)))
  }

  function NodesReturned(s: Session, nodes: seq<Node>): Session
    requires Ordered(s.nodes)
  {
    s.(nodes := Merged(s.nodes, nodes), childHasNodes := false)
  }

  function NodeRemoved(s: Session, rank: int, epoch: int, index: nat): Session
  {
    s.(nodes := Erase(s.nodes, Node(rank, index, epoch, Available)))
  }

  // ---------------------------------------------------------------------
  // What the operations guarantee
  // ---------------------------------------------------------------------

  lemma {:induction false} RecruitedFacts(s: Session)
    requires Ordered(s.nodes)
    ensures var t := Recruited(s).session;
            Ordered(t.nodes) && SameKeys(s.nodes, t.nodes)
            && t.childHasNodes == s.childHasNodes && t.childIndex == s.childIndex && t.volume == s.volume
            && forall j :: 0 <= j < |s.nodes| && s.nodes[j].status == Lost <==>
              0 <= j < |s.nodes| && t.nodes[j].status == Lost
  {
    SameKeysOrdered(s.nodes, Recruited(s).session.nodes);
  }

  lemma {:induction false} ChildJoinedFacts(s: Session, source: int, epoch: int)
    requires Ordered(s.nodes)
    ensures var t := ChildJoined(s, source, epoch).session;
            Ordered(t.nodes) && t.childHasNodes && t.childRank == source && t.childIndex == s.childIndex
            && Ordered(NodesForChild(s))
  {
    var rest := Select(s.nodes, s.childIndex, true, false);
    var f := FoundAndUpdated(rest, source, s.childIndex, epoch, Busy);
    SameKeysOrdered(f, Notified(f, -1));
  }

  lemma {:induction false} RejectedFacts(s: Session, epoch: int, lost: bool, hasChild: bool, suspended: bool)
    requires Ordered(s.nodes)
    ensures var t := Rejected(s, epoch, lost, hasChild, suspended).session;
            Ordered(t.nodes) && t.childHasNodes == s.childHasNodes && t.childIndex == s.childIndex
            && (s.childHasNodes ==> t.childRank == s.childRank)
  {
    RecruitedFacts(s.(nodes := FoundAndUpdated(s.nodes, s.childRank, s.childIndex, epoch, if lost then Lost
                                                                                          else Busy)));
  }

  /**
   Nobody is left waiting without a reason: either no node is available any more (all have been released or
   are not needed), or a request was emitted, directed to the rank of an available node with exactly the child's
   index or, if there is none or too many have been asked, undirected after releasing all nodes with that index.
   */
  ghost predicate Answered(s: Session, volume: int, hasChild: bool, r: Reaction)
  {
    && SameKeys(s.nodes, r.session.nodes)
    && (forall n :: n in r.session.nodes && n.status == Available ==> n.index < volume)
    && (r.directive.DoNothing? ==> forall n :: n in r.session.nodes ==> n.status != Available)
    && (r.directive.EmitDirectedRequest? ==>
          && WantsChild(r.session) && !hasChild
          && r.session.numQueried == 1
          && exists n :: n in r.session.nodes && Candidate(n, s.childIndex) && n.rank == r.session.childRank)
    && (r.directive.EmitUndirectedRequest? ==>
          && WantsChild(r.session) && !hasChild
          && forall n :: n in r.session.nodes ==> !Candidate(n, s.childIndex))
    && (forall n :: n in r.released ==>
      exists m :: m in s.nodes && SameKey(m, n) && m.status != Lost && n.index < volume)
  }

  /** A balancing update answers everyone. */
  lemma {:induction false} BalancingUpdateAnswersEveryone(s: Session, newEpoch: int, newVolume: int, hasChild: bool)
    requires Ordered(s.nodes) && newEpoch > s.epoch
    ensures Answered(s, newVolume, hasChild, BalancingUpdated(s, newEpoch, newVolume, hasChild))
  {
    var t := s.(numQueried := 0, epoch := newEpoch, volume := newVolume,
                nodes := ResetStatuses(s.nodes, newVolume));
    if !hasChild && WantsChild(t) {
      AnsweredByRecruiting(s, t, newVolume);
    } else {
      AnsweredByReleasing(s, t, newVolume, hasChild);
    }
  }

  lemma {:induction false} AnsweredByRecruiting(s: Session, t: Session, volume: int)
    requires SameKeys(s.nodes, t.nodes) && forall j :: 0 <= j < |t.nodes| ==>
      t.nodes[j] == ResetStatus(s.nodes[j], volume)
    requires t.numQueried == 0 && t.volume == volume && t.childIndex == s.childIndex && WantsChild(t)
    ensures Answered(s, volume, false, Recruited(t))
  {
    RecruitedAnswers(t);
    ReleasedCameFrom(s.nodes, t.nodes, volume, ReleasedNodes(t.nodes, t.childIndex), t.childIndex);
  }

  lemma {:induction false} AnsweredByReleasing(s: Session, t: Session, volume: int, hasChild: bool)
    requires SameKeys(s.nodes, t.nodes) && forall j :: 0 <= j < |t.nodes| ==>
      t.nodes[j] == ResetStatus(s.nodes[j], volume)
    ensures Answered(s, volume, hasChild, ReleasedRemaining(t))
  {
    RemainingAnswers(t);
    ReleasedCameFrom(s.nodes, t.nodes, volume, ReleasedNodes(t.nodes, -1), -1);
  }

  /** Everybody who is released was there, was not lost and is within the volume. */
  lemma {:induction false} ReleasedCameFrom(s: seq<Node>, t: seq<Node>, volume: int, released: seq<Node>, index: int)
    requires SameKeys(s, t) && forall j :: 0 <= j < |t| ==> t[j] == ResetStatus(s[j], volume)
    requires forall m :: m in released <==> m in t && Notifies(m, index)
    ensures forall n :: n in released ==> exists m :: m in s && SameKey(m, n) && m.status != Lost && n.index < volume
  {
    forall n | n in released ensures exists m :: m in s && SameKey(m, n) && m.status != Lost && n.index < volume {
      var j :| 0 <= j < |t| && t[j] == n;
      assert s[j] in s;
    }
  }

  lemma {:induction false} RecruitedAnswers(t: Session)
    requires forall j :: 0 <= j < |t.nodes| && t.nodes[j].status == Available ==> t.nodes[j].index < t.volume
    ensures var r := Recruited(t);
      && SameKeys(t.nodes, r.session.nodes) && r.session.volume == t.volume
      && (forall n :: n in r.session.nodes && n.status == Available ==> n.index < t.volume)
      && (r.directive.EmitDirectedRequest? ==>
            && r.session.numQueried == t.numQueried + 1
            && exists n :: n in r.session.nodes && Candidate(n, t.childIndex) && n.rank == r.session.childRank)
      && (r.directive.EmitUndirectedRequest? ==> forall n :: n in r.session.nodes ==> !Candidate(n, t.childIndex))
  {
    var r, k := Recruited(t), FirstCandidate(t.nodes, t.childIndex);
    if r.directive.EmitDirectedRequest? {
      assert t.nodes[k] in r.session.nodes;
    }
  }

  lemma {:induction false} RemainingAnswers(t: Session)
    ensures var r := ReleasedRemaining(t);
      SameKeys(t.nodes, r.session.nodes) && forall n :: n in r.session.nodes ==> n.status != Available
  {
  }

  /** A directed request goes out if and only if a suitable node is available and fewer than four have been asked. */
  lemma {:induction false} RecruitedExactly(s: Session)
    ensures var r := Recruited(s);
      && (r.directive.EmitDirectedRequest? <==>
        s.numQueried < 4 && exists n :: n in s.nodes && Candidate(n, s.childIndex))
      && (r.directive.EmitUndirectedRequest? <==> !r.directive.EmitDirectedRequest?)
      && (s.numQueried <= 4 ==> r.session.numQueried <= 4)
      && (r.directive.EmitDirectedRequest? ==> r.session.nodes == s.nodes && r.released == [])
  {
    var k := FirstCandidate(s.nodes, s.childIndex);
    if k < |s.nodes| {
      assert s.nodes[k] in s.nodes;
    }
  }
}
