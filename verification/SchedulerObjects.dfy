/**
 The objects of src/scheduling/session.hpp and src/scheduling/local_scheduler.hpp: fields updated in
 place, loops over the node set, messages returned to the caller instead of being sent. Each method
 is proved against the function of the object's value which the protocol in Reactivation.dfy uses.
 */
module SchedulerObjects {
  import opened Options
  import opened JobNodes
  import opened ChildSessions
  import opened LocalScheduling

  class ChildInterface {
    var nodes: seq<Node>
    var epoch: int
    var volume: int
    const childIndex: nat
    var childRank: int
    var numQueried: nat
    var childHasNodes: bool

    ghost predicate Valid()
      reads this
    {
      Ordered(nodes)
    }

    function View(): Session
      reads this
    {
      Session(nodes, epoch, volume, childIndex, childRank, numQueried, childHasNodes)
    }

    constructor (nodes: seq<Node>, childIndex: nat)
      requires Ordered(nodes)
      ensures Valid() && View() == NewSession(nodes, childIndex)
    {
      this.nodes := nodes;
      this.epoch := -1;
      this.volume := -1;
      this.childIndex := childIndex;
      this.childRank := -1;
      this.numQueried := 0;
      this.childHasNodes := false;
    }

    method HandleBalancingUpdate(newEpoch: int, newVolume: int, hasChild: bool)
      returns (directive: Directive, released: seq<Node>)
      requires Valid()
      modifies this
      ensures Valid()
      ensures Reaction(View(), directive, released) == BalancingUpdated(old(View()), newEpoch, newVolume, hasChild)
    {
      if newEpoch <= epoch {
        return DoNothing, [];
      }
      numQueried := 0;
      epoch := newEpoch;
      volume := newVolume;
      var k := 0;
      while k < |nodes|
        invariant 0 <= k <= |nodes| == |old(nodes)|
        invariant forall j :: 0 <= j < k ==> nodes[j] == ResetStatus(old(nodes)[j], newVolume)
        invariant forall j :: k <= j < |nodes| ==> nodes[j] == old(nodes)[j]
        invariant numQueried == 0 && epoch == newEpoch && volume == newVolume
        invariant childRank == old(childRank) && childHasNodes == old(childHasNodes)
      {
        if nodes[k].status == Busy {
          nodes := nodes[k := nodes[k].(status := Available)];
        }
        if nodes[k].status == Available && nodes[k].index >= newVolume {
          nodes := nodes[k := nodes[k].(status := Busy)];
        }
        k := k + 1;
      }
      assert nodes == ResetStatuses(old(nodes), newVolume);
      SameKeysOrdered(old(nodes), nodes);
      if !hasChild && childIndex < volume && !childHasNodes {
        directive, released := RecruitChild();
      } else {
        released := NotifyRemainingInactiveNodes(-1);
        directive := DoNothing;
      }
    }

    method AddJobNodesFromSuspendedChild(newNodes: seq<Node>)
      requires Valid()
      modifies this
      ensures Valid() && View() == NodesReturned(old(View()), newNodes)
    {
      nodes := MergePreferringNewer(nodes, newNodes);
      childHasNodes := false;
    }

    method HandleRejectionOfPotentialChild(e: int, lost: bool, hasChild: bool, suspended: bool)
      returns (directive: Directive, released: seq<Node>)
      requires Valid()
      modifies this
      ensures Valid()
      ensures Reaction(View(), directive, released) == Rejected(old(View()), e, lost, hasChild, suspended)
    {
      FindAndUpdateNode(childRank, childIndex, e, if lost then Lost else Busy);
      if !hasChild && !suspended && childIndex < volume && !childHasNodes {
        directive, released := RecruitChild();
      } else {
        directive, released := DoNothing, [];
      }
    }

    method HandleChildJoining(source: int, e: int) returns (package: seq<Node>, released: seq<Node>)
      requires Valid()
      modifies this
      ensures Valid()
      ensures package == NodesForChild(old(View()))
      ensures Reaction(View(), DoNothing, released) == ChildJoined(old(View()), source, e)
    {
      childRank := source;
      childHasNodes := true;
      package, nodes := ExtractSubtree(nodes, childIndex, true);
      package := CleanUpStatuses(package);
      FindAndUpdateNode(source, childIndex, e, Busy);
      released := NotifyRemainingInactiveNodes(-1);
    }

    method RemoveNode(rank: int, e: int, index: nat)
      requires Valid()
      modifies this
      ensures Valid() && View() == NodeRemoved(old(View()), rank, e, index)
    {
      nodes := Erase(nodes, Node(rank, index, e, Available));
    }

    method RecruitChild() returns (directive: Directive, released: seq<Node>)
      requires Valid()
      modifies this
      ensures Valid()
      ensures Reaction(View(), directive, released) == Recruited(old(View()))
    {
      var k := 0;
      while numQueried < MAX_QUERIES && k < |nodes|
        invariant 0 <= k <= |nodes| && View() == old(View())
        invariant forall j :: 0 <= j < k ==> !Candidate(nodes[j], childIndex)
        decreases |nodes| - k
      {
        if nodes[k].status == Available && nodes[k].index == childIndex {
          assert FirstCandidate(nodes, childIndex) == k;
          childRank := nodes[k].rank;
          numQueried := numQueried + 1;
          return EmitDirectedRequest, [];
        }
        k := k + 1;
      }
      assert numQueried < MAX_QUERIES ==> FirstCandidate(nodes, childIndex) == |nodes|;
      released := NotifyRemainingInactiveNodes(childIndex);
      directive := EmitUndirectedRequest;
    }

    method NotifyRemainingInactiveNodes(particularIndex: int) returns (released: seq<Node>)
      requires Valid()
      modifies this`nodes
      ensures Valid()
      ensures nodes == Notified(old(nodes), particularIndex)
      ensures released == ReleasedNodes(old(nodes), particularIndex)
    {
      released := [];
      var k := 0;
      while k < |nodes|
        invariant 0 <= k <= |nodes| == |old(nodes)|
        invariant forall j :: 0 <= j < k ==>
          nodes[j] == if Notifies(old(nodes)[j], particularIndex) then old(nodes)[j].(status := Busy) else old(nodes)[j]
        invariant forall j :: k <= j < |nodes| ==> nodes[j] == old(nodes)[j]
        invariant released == ReleasedNodes(old(nodes)[..k], particularIndex)
      {
        assert old(nodes)[..k + 1] == old(nodes)[..k] + [old(nodes)[k]];
        ReleasedAppend(old(nodes)[..k], old(nodes)[k], particularIndex);
        if nodes[k].status == Available && (particularIndex == -1 || nodes[k].index == particularIndex) {
          released := released + [nodes[k]];
          nodes := nodes[k := nodes[k].(status := Busy)];
        }
        k := k + 1;
      }
      assert old(nodes)[..|old(nodes)|] == old(nodes);
      assert nodes == Notified(old(nodes), particularIndex);
      SameKeysOrdered(old(nodes), nodes);
    }

    method FindAndUpdateNode(rank: int, index: nat, e: int, status: Status)
      requires Valid()
      modifies this`nodes
      ensures Valid() && nodes == FoundAndUpdated(old(nodes), rank, index, e, status)
    {
      var key := Node(rank, index, INT32_MAX, Available);
      var k := 0;
      // lower_bound
      while k < |nodes| && Before(nodes[k], key)
        invariant 0 <= k <= |nodes|
        invariant forall j :: 0 <= j < k ==> Before(nodes[j], key)
      {
        k := k + 1;
      }
      while k < |nodes|
        invariant 0 <= k <= |nodes| && nodes == old(nodes)
        invariant forall j :: 0 <= j < k ==> !Matches(nodes[j], rank, index)
        invariant forall j :: k <= j < |nodes| ==> !Before(nodes[j], key)
      {
        if nodes[k].index != index { break; }
        if nodes[k].rank == rank {
          var node := nodes[k];
          assert FindPos(nodes, rank, index) == k;
          nodes := Erase(nodes, node);
          nodes := Insert(nodes, node.(epoch := e, status := status));
          return;
        }
        k := k + 1;
      }
      assert forall j :: k <= j < |nodes| ==> nodes[j].index > index by {
        if k < |nodes| {
          assert nodes[k].index > index;
          assert forall j :: k < j < |nodes| ==> Before(nodes[k], nodes[j]);
        }
      }
      assert FindPos(nodes, rank, index) == |nodes|;
    }
  }

  class LocalScheduler {
    const rank: int
    const index: nat
    var parentRank: int
    var left: ChildInterface?
    var right: ChildInterface?
    var lastSuspension: int
    var lastEpoch: int
    var lastVolume: int
    var suspending: bool
    var suspended: bool
    var resuming: bool

    function View(): Sched
      reads this, left, right
    {
      Sched(rank, index, parentRank,
            if left == null then None else Some(left.View()),
            if right == null then None else Some(right.View()),
            lastSuspension, lastEpoch, lastVolume, suspending, suspended, resuming)
    }

    ghost predicate Valid()
      reads this, left, right
    {
      WellFormed(View()) && (left != null ==> left != right)
    }

    constructor (rank: int, index: nat, parentRank: int)
      ensures Valid() && View() == NewScheduler(rank, index, parentRank)
    {
      this.rank := rank;
      this.index := index;
      this.parentRank := parentRank;
      left, right := null, null;
      lastSuspension, lastEpoch, lastVolume := -1, -1, -1;
      suspending, suspended, resuming := false, true, false;
    }

    method InitializeScheduling(epoch: int, volume: int, nodes: seq<Node>, parent: int)
      returns (packages: seq<Package>, released: seq<Node>, requests: seq<Request>)
      requires Ordered(nodes)
      requires if IsPast(View(), epoch) then Valid() else left == null && right == null && !resuming
      modifies this
      ensures Valid()
      ensures Outcome(View(), packages, released, requests) == Initialized(old(View()), epoch, volume, nodes, parent)
    {
      OpenedForm(View(), epoch, volume, nodes, parent);
      parentRank := parent;
      if index > 0 && epoch <= lastSuspension {
        return [Package(ReturnNodes, rank, parentRank, ParentIndex(index), epoch, volume, nodes, index)], [], [];
      }
      if volume >= 0 && epoch > lastEpoch {
        lastEpoch := epoch;
        lastVolume := volume;
      }
      suspended := false;
      // the code's assertion: there is no session yet
      assert left == null && right == null;
      assert View() == Adopted(old(View()), epoch, volume, parent);
      packages := [];
      released, requests := OpenSessions(nodes);
    }

    method OpenSessions(nodes: seq<Node>) returns (released: seq<Node>, requests: seq<Request>)
      requires Ordered(nodes)
      modifies this`left, this`right
      ensures left != null && fresh(left) && right != null && fresh(right) && left != right
      ensures Outcome(View(), [], released, requests) == OpenedSessions(old(View()), nodes)
    {
      var leftNodes, rightNodes := Split(nodes, index);
      var l, r, more, moreRequests;
      l, released, requests := OpenSession(leftNodes, 2 * index + 1);
      r, more, moreRequests := OpenSession(rightNodes, 2 * index + 2);
      released, requests := released + more, requests + moreRequests;
      left, right := l, r;
    }

    method OpenSession(nodes: seq<Node>, childIndex: nat)
      returns (session: ChildInterface, released: seq<Node>, requests: seq<Request>)
      requires Ordered(nodes)
      ensures fresh(session) && session.Valid()
      ensures var r := OpenedSession(nodes, childIndex, lastEpoch, lastVolume);
              session.View() == r.session && released == r.released
              && requests == Emitted(r.directive, r.session, 2 * index + 1)
    {
      session := new ChildInterface(nodes, childIndex);
      released, requests := [], [];
      if lastEpoch >= 0 {
        var directive;
        directive, released := session.HandleBalancingUpdate(lastEpoch, lastVolume, /*hasChild=*/false);
        requests := Emitted(directive, session.View(), 2 * index + 1);
      }
    }

    method UpdateBalancing(epoch: int, volume: int, hasLeft: bool, hasRight: bool)
      returns (packages: seq<Package>, released: seq<Node>, requests: seq<Request>)
      requires Valid()
      modifies this, left, right
      ensures Valid()
      ensures Outcome(View(), packages, released, requests) == Updated(old(View()), epoch, volume, hasLeft, hasRight)
    {
      packages, released, requests := [], [], [];
      if lastEpoch >= epoch { return; }
      lastEpoch := epoch;
      lastVolume := volume;
      if suspending || suspended { return; }
      UpdatedKeepsForm(old(View()), epoch, volume, hasLeft, hasRight);
      var directive, more;
      directive, released := left.HandleBalancingUpdate(epoch, volume, hasLeft);
      requests := Emitted(directive, left.View(), 2 * index + 1);
      directive, more := right.HandleBalancingUpdate(epoch, volume, hasRight);
      released := released + more;
      requests := requests + Emitted(directive, right.View(), 2 * index + 1);
      if volume <= index && index > 0 {
        packages := BeginSuspension(epoch);
      }
    }

    method BeginSuspension(epoch: int) returns (packages: seq<Package>)
      requires Valid()
      modifies this
      ensures Valid()
      ensures Outcome(View(), packages, [], []) == SuspensionBegun(old(View()), epoch)
    {
      var e := if epoch == -1 then Max(lastEpoch, lastSuspension) else epoch;
      lastSuspension := e;
      packages := [];
      if !suspended {
        suspending := true;
        ghost var t := View();
        assert t == old(View()).(lastSuspension := e, suspending := true);
        if index != 0 && !left.childHasNodes && !right.childHasNodes {
          ReturnedWhenPossible(t);
          packages := ReturnInactiveJobNodesToParent();
        }
      }
    }

    method ReturnInactiveJobNodesToParent() returns (packages: seq<Package>)
      requires Valid() && index > 0 && suspending && !suspended
      modifies this
      ensures Valid() && left == null && right == null
      ensures Outcome(View(), packages, [], []) == ReturnedToParent(old(View()))
    {
      ghost var sc := View();
      var nodes := ConsolidateNodes();
      packages := [Package(ReturnNodes, rank, parentRank, ParentIndex(index), -1, -1, nodes, index)];
      DropSessions();
      assert Outcome(View(), packages, [], []) == ReturnedWith(sc, nodes);
    }

    method DropSessions()
      modifies this`suspending, this`suspended, this`left, this`right
      ensures left == null && right == null
      ensures View() == old(View()).(suspending := false, suspended := true, left := None, right := None)
    {
      suspending := false;
      suspended := true;
      left, right := null, null;
    }

    method ConsolidateNodes() returns (nodes: seq<Node>)
      requires Valid() && !suspended
      ensures nodes == ReturnedNodes(View())
    {
      nodes := CollectNodes();
      nodes := Insert(nodes, Node(rank, index, lastEpoch, Available));
      nodes := CleanUpStatuses(nodes);
    }

    /** What the two sessions have on record. */
    method CollectNodes() returns (nodes: seq<Node>)
      requires Valid() && !suspended
      ensures nodes == AllNodes(View())
    {
      nodes := MergePreferringNewer([], left.nodes);
      nodes := MergePreferringNewer(nodes, right.nodes);
    }

    method ResumeAsRoot() returns (packages: seq<Package>, released: seq<Node>, requests: seq<Request>)
      requires Valid() && CanResume(View())
      modifies this
      ensures Valid()
      ensures Outcome(View(), packages, released, requests) == Resumed(old(View()))
    {
      var nodes := CollectNodes();
      nodes := CleanUpStatuses(nodes);
      resuming := false;
      suspending := false;
      left, right := null, null;
      assert View() == old(View()).(resuming := false, suspending := false, left := None, right := None);
      packages, released, requests :=
        InitializeScheduling(Max(lastEpoch, lastSuspension), lastVolume, nodes, parentRank);
    }

    method Settle(packages: seq<Package>, released: seq<Node>, requests: seq<Request>)
      returns (packages': seq<Package>, released': seq<Node>, requests': seq<Request>)
      requires Valid()
      modifies this
      ensures Valid()
      ensures Outcome(View(), packages', released', requests')
           == Settled(Outcome(old(View()), packages, released, requests))
    {
      packages', released', requests' := packages, released, requests;
      if CanReturn(View()) {
        var p := ReturnInactiveJobNodesToParent();
        packages' := packages + p;
      }
      if CanResume(View()) {
        var p, r, q := ResumeAsRoot();
        packages', released', requests' := packages' + p, released' + r, requests' + q;
      }
    }

    method Handle(p: Package) returns (packages: seq<Package>, released: seq<Node>, requests: seq<Request>)
      requires Valid() && Ordered(p.nodes)
      requires p.tag == InitializeChild ==> suspended || IsPast(View(), p.epoch)
      modifies this, left, right
      ensures Valid()
      ensures Outcome(View(), packages, released, requests)
           == if p.tag == InitializeChild then InitHandled(old(View()), p) else ReturnHandled(old(View()), p)
    {
      packages, released, requests := [], [], [];
      if p.tag == InitializeChild {
        packages, released, requests := InitializeScheduling(p.epoch, p.volume, p.nodes, p.src);
      } else {
        var side := SideByRank(View(), p.src);
        if side == Left {
          left.AddJobNodesFromSuspendedChild(p.nodes);
        } else if side == Right {
          right.AddJobNodesFromSuspendedChild(p.nodes);
        }
      }
      packages, released, requests := Settle(packages, released, requests);
    }

    method HandleRejectReactivation(epoch: int, child: int, lost: bool, hasChild: bool)
      returns (released: seq<Node>, requests: seq<Request>)
      requires Valid()
      modifies this, left, right
      ensures Valid()
      ensures Outcome(View(), [], released, requests) == RejectionHandled(old(View()), epoch, child, lost, hasChild)
    {
      var side := SideByIndex(View(), child);
      if side == Neither {
        return [], [];
      }
      var session := if side == Left then left else right;
      RejectedFacts(session.View(), epoch, lost, hasChild, suspended || suspending);
      var directive;
      directive, released := session.HandleRejectionOfPotentialChild(epoch, lost, hasChild, suspended || suspending);
      requests := Emitted(directive, session.View(), 2 * index + 1);
    }

    method HandleChildJoining(source: int, epoch: int, child: int)
      returns (packages: seq<Package>, released: seq<Node>)
      requires Valid()
      modifies this, left, right
      ensures Valid()
      ensures Outcome(View(), packages, released, []) == JoiningHandled(old(View()), source, epoch, child)
    {
      var side := SideByIndex(View(), child);
      if side == Neither {
        return [], [];
      }
      var session := if side == Left then left else right;
      ChildJoinedFacts(session.View(), source, epoch);
      var volume := session.volume;
      var nodes;
      nodes, released := session.HandleChildJoining(source, epoch);
      packages := [Package(InitializeChild, rank, source, session.childIndex, epoch, volume, nodes,
        session.childIndex)];
    }

    method HandleNodeFreed(freed: int, epoch: int, nodeIndex: nat)
      requires Valid()
      modifies this, left, right
      ensures Valid() && View() == NodeFreed(old(View()), freed, epoch, nodeIndex)
    {
      if left != null { left.RemoveNode(freed, epoch, nodeIndex); }
      if right != null { right.RemoveNode(freed, epoch, nodeIndex); }
    }

    method BeginResumptionAsRoot() returns (packages: seq<Package>, released: seq<Node>, requests: seq<Request>)
      requires Valid() && index == 0 && suspending && !suspended
      modifies this
      ensures Valid()
      ensures Outcome(View(), packages, released, requests) == ResumptionBegun(old(View()))
    {
      packages, released, requests := [], [], [];
      resuming := true;
      if CanResume(View()) {
        packages, released, requests := ResumeAsRoot();
      }
    }

    method ResetRole()
      requires Valid() && suspended
      modifies this
      ensures Valid() && View() == RoleReset(old(View()))
    {
      lastSuspension := -1;
      lastEpoch := -1;
      left, right := null, null;
    }
  }

  lemma {:induction false} ReleasedAppend(s: seq<Node>, n: Node, particularIndex: int)
    ensures ReleasedNodes(s + [n], particularIndex)
         == ReleasedNodes(s, particularIndex) + if Notifies(n, particularIndex) then [n] else []
  {
    if s == [] {
      assert s + [n] == [n];
    } else {
      assert (s + [n])[1..] == s[1..] + [n];
      ReleasedAppend(s[1..], n, particularIndex);
    }
  }
}
