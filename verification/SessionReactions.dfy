/** What the operations on a session lead to, in terms of the session before: whom is asked, and who is released. */
module SessionReactions {
  import opened JobNodes
  import opened ChildSessions

  /** The child is missing, within the volume, and has no nodes. */
  predicate Wanted(s: Session, volume: int, hasChild: bool)
  {
    !hasChild && s.childIndex < volume && !s.childHasNodes
  }

  predicate Usable(n: Node, index: nat)
  {
    n.index == index && n.status != Lost
  }

  /** The position of the first node with this index which is not lost, if there is any. */
  function FirstUsable(nodes: seq<Node>, index: nat): (k: nat)
    ensures k <= |nodes| && (k < |nodes| ==> Usable(nodes[k], index))
    ensures forall j :: 0 <= j < k ==> !Usable(nodes[j], index)
  {
    if nodes == [] then 0 else if Usable(nodes[0], index) then 0 else 1 + FirstUsable(nodes[1..], index)
  }

  function StatusAfter(n: Node, volume: int, recruiting: bool): Status
  {
    if n.status == Lost then Lost else if n.index >= volume || !recruiting then Busy else Available
  }

  predicate SomeUsable(s: Session)
  {
    FirstUsable(s.nodes, s.childIndex) < |s.nodes|
  }

  /** What the session is like after a new balancing result. */
  ghost predicate SessionUpdated(s: Session, epoch: int, volume: int, hasChild: bool, t: Session)
  {
    && t == s.(epoch := epoch, volume := volume, nodes := t.nodes, childRank := t.childRank, numQueried := t.numQueried)
    && |t.nodes| == |s.nodes|
    && forall j {:trigger t.nodes[j]} :: 0 <= j < |s.nodes| ==>
      t.nodes[j] == s.nodes[j].(status := StatusAfter(s.nodes[j], volume, Wanted(s, volume, hasChild)))
  }

  /** Whom a new balancing result releases. */
  ghost predicate ReleasesRest(s: Session, volume: int, released: seq<Node>)
  {
    forall m :: m in released <==>
      exists n :: n in s.nodes && n.status != Lost && n.index < volume && m == n.(status := Available)
  }

  lemma {:induction false} ResetFacts(s: Session, t: Session, volume: int)
    requires t.nodes == ResetStatuses(s.nodes, volume) && t.childIndex == s.childIndex < volume
    ensures FirstCandidate(t.nodes, t.childIndex) == FirstUsable(s.nodes, s.childIndex)
    ensures forall j :: 0 <= j < |s.nodes| ==> t.nodes[j].rank == s.nodes[j].rank
  {
    forall j | 0 <= j < |s.nodes| ensures Candidate(t.nodes[j], t.childIndex) <==> Usable(s.nodes[j], s.childIndex) {
      assert t.nodes[j] == ResetStatus(s.nodes[j], volume);
    }
  }

  lemma {:induction false} ReleasedAll(s: Session, t: Session, volume: int)
    requires t.nodes == ResetStatuses(s.nodes, volume)
    ensures ReleasesRest(s, volume, ReleasedNodes(t.nodes, -1))
  {
    forall m ensures m in ReleasedNodes(t.nodes, -1) <==>
      exists n :: n in s.nodes && n.status != Lost && n.index < volume && m == n.(status := Available)
    {
      if m in t.nodes && Notifies(m, -1) {
        var j :| 0 <= j < |t.nodes| && t.nodes[j] == m;
        assert s.nodes[j] in s.nodes;
      }
      if n :| n in s.nodes && n.status != Lost && n.index < volume && m == n.(status := Available) {
        var j :| 0 <= j < |s.nodes| && s.nodes[j] == n;
        assert t.nodes[j] == m;
      }
    }
  }

  /**
   A new balancing result: a request goes out exactly if the child is wanted, and it is directed exactly if there is
   a node of the child's index which is not lost; the first such node is asked. If the child is not wanted,
   everybody within the volume is released.
   */
  ghost predicate ReactsExactly(s: Session, epoch: int, volume: int, hasChild: bool, r: Reaction)
  {
    && SessionUpdated(s, epoch, volume, hasChild, r.session)
    && (!r.directive.DoNothing? <==> Wanted(s, volume, hasChild))
    && (r.directive.EmitDirectedRequest? <==> Wanted(s, volume, hasChild) && SomeUsable(s))
    && (r.directive.EmitDirectedRequest? ==>
          r.session.numQueried == 1 && r.session.childRank == s.nodes[FirstUsable(s.nodes, s.childIndex)].rank)
    && (!r.directive.EmitDirectedRequest? ==> r.session.numQueried == 0 && r.session.childRank == s.childRank)
    && (if r.directive.DoNothing? then ReleasesRest(s, volume, r.released) else r.released == [])
  }

  lemma {:induction false} RecruitingReacts(s: Session, t: Session, epoch: int, volume: int, hasChild: bool)
    requires Wanted(s, volume, hasChild)
    requires t == s.(numQueried := 0, epoch := epoch, volume := volume, nodes := ResetStatuses(s.nodes, volume))
    ensures ReactsExactly(s, epoch, volume, hasChild, Recruited(t))
  {
    ResetFacts(s, t, volume);
    if FirstCandidate(t.nodes, t.childIndex) == |t.nodes| { NobodyToRelease(t.nodes, t.childIndex); }
  }

  lemma {:induction false} ReleasingReacts(s: Session, t: Session, epoch: int, volume: int, hasChild: bool)
    requires !Wanted(s, volume, hasChild)
    requires t == s.(numQueried := 0, epoch := epoch, volume := volume, nodes := ResetStatuses(s.nodes, volume))
    ensures ReactsExactly(s, epoch, volume, hasChild, ReleasedRemaining(t))
  {
    ReleasedAll(s, t, volume);
  }

  lemma {:induction false} BalancingUpdateExactly(s: Session, epoch: int, volume: int, hasChild: bool)
    requires epoch > s.epoch
    ensures ReactsExactly(s, epoch, volume, hasChild, BalancingUpdated(s, epoch, volume, hasChild))
  {
    var t := s.(numQueried := 0, epoch := epoch, volume := volume, nodes := ResetStatuses(s.nodes, volume));
    if Wanted(s, volume, hasChild) {
      RecruitingReacts(s, t, epoch, volume, hasChild);
    } else {
      ReleasingReacts(s, t, epoch, volume, hasChild);
    }
  }

  lemma {:induction false} NobodyToRelease(nodes: seq<Node>, index: nat)
    requires FirstCandidate(nodes, index) == |nodes|
    ensures ReleasedNodes(nodes, index) == [] && Notified(nodes, index) == nodes
  {
    var r := ReleasedNodes(nodes, index);
    assert r != [] ==> r[0] in r;
    forall j | 0 <= j < |nodes| ensures !Notifies(nodes[j], index) {
      assert !Candidate(nodes[j], index);
    }
    forall m ensures m !in r {
      assert m in r ==> m in nodes;
    }
  }

  // ---------------------------------------------------------------------
  // The record which is updated
  // ---------------------------------------------------------------------

  /** The record which is found is the newest one with this rank and index; no epoch exceeds a 32-bit number. */
  lemma {:induction false} FindsNewest(s: seq<Node>, rank: int, index: nat)
    requires Ordered(s)
    ensures var k := FindPos(s, rank, index);
      && (k < |s| ==> s[k].rank == rank && s[k].index == index)
      && forall m :: m in s && m.rank == rank && m.index == index && m.epoch <= INT32_MAX ==>
           k < |s| && m.epoch <= s[k].epoch
  {
    var k := FindPos(s, rank, index);
    forall m | m in s && m.rank == rank && m.index == index && m.epoch <= INT32_MAX
      ensures k < |s| && m.epoch <= s[k].epoch
    {
      var j :| 0 <= j < |s| && s[j] == m;
      assert Matches(s[j], rank, index);
      assert k < j ==> Before(s[k], s[j]);
    }
  }

  /** Exactly the record found gets the new epoch and status; the others stay as they are. */
  lemma {:induction false} UpdatedExactly(s: seq<Node>, rank: int, index: nat, epoch: int, status: Status)
    requires Ordered(s)
    ensures var k, r := FindPos(s, rank, index), FoundAndUpdated(s, rank, index, epoch, status);
      if k == |s| then r == s
      else
        var u := Node(rank, index, epoch, status);
        forall m :: m in r <==> (m in s && m != s[k]) || (m == u && !exists n :: n in s && n != s[k] && SameKey(n, u))
  {
    var k := FindPos(s, rank, index);
    if k < |s| {
      var u, e := Node(rank, index, epoch, status), Erase(s, s[k]);
      forall m ensures m in e <==> m in s && m != s[k] {
        if m in s && SameKey(m, s[k]) { KeysDistinct(s, m, s[k]); }
      }
      assert HasKey(e, u) <==> exists n :: n in s && n != s[k] && SameKey(n, u);
    }
  }

  /** Another node which can be asked once the record at position k has been ruled out. */
  predicate CanAsk(s: Session, k: nat, n: Node)
  {
    n in s.nodes && Candidate(n, s.childIndex) && (k < |s.nodes| ==> n != s.nodes[k])
  }

  lemma {:induction false} RuledOut(s: Session, t: Session, epoch: int, status: Status)
    requires Ordered(s.nodes) && status != Available && t.childIndex == s.childIndex
    requires t.nodes == FoundAndUpdated(s.nodes, s.childRank, s.childIndex, epoch, status)
    ensures var k := FindPos(s.nodes, s.childRank, s.childIndex);
      forall n :: n in t.nodes && Candidate(n, t.childIndex) <==> CanAsk(s, k, n)
  {
    UpdatedExactly(s.nodes, s.childRank, s.childIndex, epoch, status);
  }

  /**
   A rejection rules out the record of the rank asked last. Then, exactly if the child is still wanted, another
   request goes out: directed if somebody else can be asked and fewer than four have been asked, undirected otherwise.
   */
  lemma {:induction false} RejectionExactly(s: Session, epoch: int, lost: bool, hasChild: bool, suspended: bool)
    requires Ordered(s.nodes)
    ensures var r := Rejected(s, epoch, lost, hasChild, suspended);
      var k := FindPos(s.nodes, s.childRank, s.childIndex);
      && r.session == s.(nodes := r.session.nodes, childRank := r.session.childRank, numQueried := r.session.numQueried)
      && (!r.directive.DoNothing? <==> Wanted(s, s.volume, hasChild) && !suspended)
      && (r.directive.EmitDirectedRequest? <==>
            Wanted(s, s.volume, hasChild) && !suspended && s.numQueried < 4 && exists n :: CanAsk(s, k, n))
      && (r.directive.EmitDirectedRequest? ==>
            && r.session.numQueried == s.numQueried + 1 && r.released == []
            && exists n :: CanAsk(s, k, n) && r.session.childRank == n.rank)
      && (!r.directive.EmitDirectedRequest? ==>
            r.session.numQueried == s.numQueried && r.session.childRank == s.childRank)
      && (r.directive.DoNothing? ==> r.released == [])
      && (r.directive.EmitUndirectedRequest? ==> forall n :: n in r.released <==> CanAsk(s, k, n))
      && (!r.directive.EmitUndirectedRequest? ==>
            r.session.nodes == FoundAndUpdated(s.nodes, s.childRank, s.childIndex, epoch, if lost then Lost else Busy))
  {
    var status := if lost then Lost else Busy;
    var t := s.(nodes := FoundAndUpdated(s.nodes, s.childRank, s.childIndex, epoch, status));
    var k := FindPos(s.nodes, s.childRank, s.childIndex);
    RuledOut(s, t, epoch, status);
    if !hasChild && !suspended && WantsChild(t) {
      RecruitedExactly(t);
      var j := FirstCandidate(t.nodes, t.childIndex);
      if j < |t.nodes| { assert CanAsk(s, k, t.nodes[j]); }
      if n :| CanAsk(s, k, n) { assert n in t.nodes && Candidate(n, t.childIndex); }
    }
  }

  /**
   When a child joins, the session waits for its nodes, and everybody is released who is available and neither below
   the child nor the child itself.
   */
  lemma {:induction false} JoiningExactly(s: Session, source: int, epoch: int)
    requires Ordered(s.nodes)
    ensures var r, rest := ChildJoined(s, source, epoch), Select(s.nodes, s.childIndex, true, false);
      var k := FindPos(rest, source, s.childIndex);
      && r.session == s.(nodes := r.session.nodes, childRank := source, childHasNodes := true)
      && r.directive.DoNothing? && (forall n :: n in r.session.nodes ==> n.status != Available)
      && forall n :: n in r.released <==>
           n in s.nodes && n.status == Available && !InSubtree(s.childIndex, true, n.index) && (k < |rest| ==>
             n != rest[k])
  {
    var rest := Select(s.nodes, s.childIndex, true, false);
    UpdatedExactly(rest, source, s.childIndex, epoch, Busy);
    RemainingAnswers(s.(nodes := FoundAndUpdated(rest, source, s.childIndex, epoch, Busy)));
  }

  /** Exactly the record with this rank, index and epoch is removed. */
  lemma {:induction false} RemovalExactly(s: Session, rank: int, epoch: int, index: nat)
    ensures var t := NodeRemoved(s, rank, epoch, index);
      && t == s.(nodes := t.nodes)
      && forall m :: m in t.nodes <==> m in s.nodes && !(m.rank == rank && m.index == index && m.epoch == epoch)
  {
  }
}
