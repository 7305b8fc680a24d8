/** A job node which suspends becomes an inactive node itself (returnInactiveJobNodesToParent). */
module Suspensions {
  import opened Options
  import opened JobNodes
  import opened ChildSessions
  import opened LocalScheduling
  import opened Reactivation
  import opened Conservation
  import T = PackageTokens

  ghost predicate HasRank(nodes: seq<Node>, rank: int)
  {
    exists n :: n in nodes && n.rank == rank
  }

  lemma {:induction false} ReturnedHasOwn(sc: Sched)
    requires WellFormed(sc) && !sc.suspended
    ensures HasRank(ReturnedNodes(sc), sc.rank) || LostAmong(NodesOf(sc), sc.rank)
  {
    var l, r, own := sc.left.value.nodes, sc.right.value.nodes, Node(sc.rank, sc.index, sc.lastEpoch, Available);
    var all := AllNodes(sc);
    MergeKeepsNewest([], l);
    MergeKeepsNewest(Merged([], l), r);
    var m := own;
    if HasKey(all, own) {
      m :| m in all && SameKey(m, own);
      assert m in NodesOf(sc);
    }
    if m.status != Lost {
      assert m in Insert(all, own);
      assert m.(status := Available) in ReturnedNodes(sc);
    }
  }

  /** The outcome records the rank, unless it was lost. */
  ghost predicate Remembers(before: seq<Node>, o: Outcome, rank: int)
  {
    HasRank(Everything(o), rank) || LostAmong(before, rank)
  }

  lemma {:induction false} ReturnRemembers(o: Outcome, before: seq<Node>)
    requires WellFormed(o.sched) && o.packages == [] && !o.sched.suspended
    requires forall n :: n in NodesOf(o.sched) && n.status == Lost ==> LostAmong(before, n.rank)
    ensures ReturnedIfPossible(o).sched.suspended ==> Remembers(before, ReturnedIfPossible(o), o.sched.rank)
  {
    if CanReturn(o.sched) {
      ReturnedHasOwn(o.sched);
      var q, nodes, rank := ReturnedIfPossible(o), ReturnedNodes(o.sched), o.sched.rank;
      assert q.packages == [] + ReturnedWith(o.sched, nodes).packages;
      if LostAmong(NodesOf(o.sched), rank) {
        LostBefore(NodesOf(o.sched), before, rank);
      } else {
        InPackage(q, nodes, rank);
      }
    }
  }

  lemma {:induction false} LostBefore(nodes: seq<Node>, before: seq<Node>, rank: int)
    requires LostAmong(nodes, rank) && forall n :: n in nodes && n.status == Lost ==> LostAmong(before, n.rank)
    ensures LostAmong(before, rank)
  {
    var n :| n in nodes && n.rank == rank && n.status == Lost;
    assert LostAmong(before, n.rank);
  }

  lemma {:induction false} InPackage(o: Outcome, nodes: seq<Node>, rank: int)
    requires |o.packages| == 1 && o.packages[0].nodes == nodes && HasRank(nodes, rank)
    ensures HasRank(Everything(o), rank)
  {
    var n :| n in nodes && n.rank == rank;
    assert PackageNodes(o.packages) == nodes + PackageNodes(o.packages[1..]);
    assert n in Everything(o);
  }

  lemma {:induction false} SuspensionRemembers(sc: Sched, epoch: int)
    requires WellFormed(sc) && !sc.suspended
    ensures var o := SuspensionBegun(sc, epoch); o.sched.suspended ==> Remembers(NodesOf(sc), o, sc.rank)
  {
    var e := if epoch == -1 then Max(sc.lastEpoch, sc.lastSuspension) else epoch;
    var t := sc.(lastSuspension := e, suspending := true);
    assert NodesOf(t) == NodesOf(sc);
    ReturnRemembers(Outcome(t, [], [], []), NodesOf(sc));
  }

  lemma {:induction false} UpdateRemembers(sc: Sched, epoch: int, volume: int, hasLeft: bool, hasRight: bool)
    requires WellFormed(sc) && !sc.suspended
    ensures var o := Updated(sc, epoch, volume, hasLeft, hasRight);
      o.sched.suspended ==> Remembers(NodesOf(sc), o, sc.rank)
  {
    if sc.lastEpoch < epoch && !sc.suspending {
      BalancingUpdatedForm(sc.left.value, epoch, volume, hasLeft);
      BalancingUpdatedForm(sc.right.value, epoch, volume, hasRight);
      var l := BalancingUpdated(sc.left.value, epoch, volume, hasLeft).session;
      var r := BalancingUpdated(sc.right.value, epoch, volume, hasRight).session;
      UpdateWithRemembers(sc, epoch, volume, l, r, Updated(sc, epoch, volume, hasLeft, hasRight));
    }
  }

  lemma {:induction false} UpdateWithRemembers(sc: Sched, epoch: int, volume: int, l: Session, r: Session, o: Outcome)
    requires WellFormed(sc) && !sc.suspended
    requires Ordered(l.nodes) && OnlyStatuses(sc.left.value.nodes, l.nodes) && l.childIndex == sc.left.value.childIndex
    requires Ordered(r.nodes) && OnlyStatuses(sc.right.value.nodes, r.nodes) &&
      r.childIndex == sc.right.value.childIndex
    requires var u := sc.(lastEpoch := epoch, lastVolume := volume, left := Some(l), right := Some(r));
      || (o.sched == u && o.packages == [])
      || (o.sched == SuspensionBegun(u, epoch).sched && o.packages == SuspensionBegun(u, epoch).packages)
    ensures o.sched.suspended ==> Remembers(NodesOf(sc), o, sc.rank)
  {
    var u := sc.(lastEpoch := epoch, lastVolume := volume, left := Some(l), right := Some(r));
    StatusesConserve(NodesOf(sc), u);
    SuspensionRemembers(u, epoch);
    assert o.sched.suspended ==> Everything(o) == Everything(SuspensionBegun(u, epoch));
    if LostAmong(NodesOf(u), sc.rank) {
      LostBefore(NodesOf(u), NodesOf(sc), sc.rank);
    }
  }

  lemma {:induction false} ReturnHandledRemembers(sc: Sched, p: Package)
    requires WellFormed(sc) && !sc.resuming && !sc.suspended && p.child > 0 && ParentIndex(p.child) == sc.index
    requires T.Slot(RoleOf(sc), p.child) == Some(p.src) && T.DifferentRanks(RoleOf(sc))
    ensures var o := ReturnHandled(sc, p); o.sched.suspended ==> Remembers(NodesOf(sc) + p.nodes, o, sc.rank)
  {
    ReturnEffect(sc, p);
    var side := SideByRank(sc, p.src);
    var s := SessionAt(sc, side);
    var t := WithSession(sc, side, NodesReturned(s, p.nodes));
    MergeKeepsNewest(s.nodes, p.nodes);
    forall n | n in NodesOf(t) && n.status == Lost ensures LostAmong(NodesOf(sc) + p.nodes, n.rank) {
      assert n in NodesOf(sc) + p.nodes;
    }
    ReturnRemembers(Outcome(t, [], [], []), NodesOf(sc) + p.nodes);
  }

  // ---------------------------------------------------------------------
  // Steps and runs
  // ---------------------------------------------------------------------

  ghost predicate HasLeft(s: State, k: Key)
  {
    k in s.scheds ==> s.scheds[k].suspended
  }

  ghost predicate RankRecorded(s: State, rank: int)
  {
    exists n :: Recorded(s, n) && n.rank == rank
  }

  lemma {:induction false} AppliedRemembers(s: State, u: State, k: Key, o: Outcome, before: seq<Node>, rank: int)
    requires Remembers(before, o, rank) && forall m :: m in before ==> Recorded(s, m)
    ensures RankRecorded(Apply(u, k, o), rank) || MarkedLost(s, rank)
  {
    if HasRank(Everything(o), rank) {
      var n :| n in Everything(o) && n.rank == rank;
      EverythingRecorded(u, k, o, n);
    } else {
      var l :| l in before && l.rank == rank && l.status == Lost;
      assert Recorded(s, l);
    }
  }

  lemma {:induction false} LocalRemembers(s: State, k: Key, o: Outcome)
    requires k in s.scheds && Remembers(NodesOf(s.scheds[k]), o, k.0)
    ensures RankRecorded(Apply(s, k, o), k.0) || MarkedLost(s, k.0)
  {
    forall m | m in NodesOf(s.scheds[k]) ensures Recorded(s, m) {
      RecordedAt(s, k, m);
    }
    AppliedRemembers(s, s, k, o, NodesOf(s.scheds[k]), k.0);
  }

  lemma {:induction false} SuspendRemembers(s: State, k: Key)
    requires k in s.scheds && SchedSane(k, s.scheds[k]) && !s.scheds[k].suspended
    ensures HasLeft(Suspended(s, k), k) ==> RankRecorded(Suspended(s, k), k.0) || MarkedLost(s, k.0)
  {
    var sc := s.scheds[k];
    if !sc.suspending {
      var o := SuspensionBegun(sc, -1);
      SuspensionRemembers(sc, -1);
      SuspensionEffect(sc, -1);
      if o.sched.suspended {
        LocalRemembers(s, k, o);
        var s' := Apply(s, k, o);
        if n :| Recorded(s', n) && n.rank == k.0 {
          assert NodesOf(s'.scheds[k]) == [];
          ErasedConserves(s', k, n);
        }
      }
    }
  }

  lemma {:induction false} DeliverRemembers(s: State, tok: map<nat, T.Token>, pos: nat, k: Key)
    requires Inv(s, tok) && Safe(s) && pos < |s.net| && k in s.scheds && !s.scheds[k].suspended
    ensures HasLeft(Step(s, Deliver(pos)), k) ==> RankRecorded(Step(s, Deliver(pos)), k.0) || MarkedLost(s, k.0)
  {
    var p := s.net[pos];
    if p.tag == ReturnNodes && k == (p.dst, p.destIndex) {
      ReturnFindsSession(s, tok, pos);
      var sc, u := s.scheds[k], s.(net := RemoveAt(s.net, pos));
      ReturnHandledRemembers(sc, p);
      var o, before := ReturnHandled(sc, p), NodesOf(sc) + p.nodes;
      if o.sched.suspended {
        forall m | m in before ensures Recorded(s, m) {
          if m in NodesOf(sc) { RecordedAt(s, k, m); }
        }
        AppliedRemembers(s, u, k, o, before, k.0);
      }
    }
  }

  lemma {:induction false} StepRemembers(s: State, tok: map<nat, T.Token>, ev: Event, k: Key)
    requires Inv(s, tok) && Safe(s) && Enabled(s, ev) && k in s.scheds && !s.scheds[k].suspended && k.1 > 0
    ensures HasLeft(Step(s, ev), k) ==> RankRecorded(Step(s, ev), k.0) || MarkedLost(s, k.0)
  {
    assert SchedSane(k, s.scheds[k]);
    match ev
    case RootStart(epoch, client) =>
    case RootResume =>
    case Commit(rank, index, parentRank) =>
    case Join(rank, index, source, epoch, child) =>
      if k == (rank, index) { JoinEffect(s.scheds[k], source, epoch, child); }
    case Reject(rank, index, epoch, child, lost, hasChild) =>
      if k == (rank, index) { RejectionEffect(s.scheds[k], epoch, child, lost, hasChild); }
    case Balance(rank, index, epoch, volume, hasLeft, hasRight) =>
      if k == (rank, index) {
        UpdateRemembers(s.scheds[k], epoch, volume, hasLeft, hasRight);
        var o := Updated(s.scheds[k], epoch, volume, hasLeft, hasRight);
        if o.sched.suspended { LocalRemembers(s, k, o); }
      }
    case Suspend(rank, index) =>
      if k == (rank, index) { SuspendRemembers(s, k); }
    case Forget(rank, index) =>
    case Freed(rank, index, freedRank, epoch) =>
    case Deliver(pos) =>
      DeliverRemembers(s, tok, pos, k);
  }

  lemma {:induction false} LeavingIsRemembered(tr: seq<State>, evs: seq<Event>, t: nat, u: nat, k: Key)
    requires IsRun(tr, evs) && u == t + 1 <= |evs|
    requires k in tr[t].scheds && !tr[t].scheds[k].suspended && k.1 > 0 && HasLeft(tr[u], k)
    ensures RankRecorded(tr[u], k.0) || MarkedLost(tr[t], k.0)
  {
    var tok := RunIsSafe(tr, evs, t);
    var ev, s' := evs[t], tr[u];
    StepRemembers(tr[t], tok, ev, k);
    assert s' == Step(tr[t], ev);
  }

  /**
   In every run, whenever an inner node's scheduler suspends, its own rank is on record from then on
   until it is marked as lost or explicitly freed.
   */
  lemma {:induction false} SuspendedIsRemembered(tr: seq<State>, evs: seq<Event>, t: nat, u: nat, j: nat, k: Key)
    requires IsRun(tr, evs) && u == t + 1 <= j < |tr|
    requires k in tr[t].scheds && !tr[t].scheds[k].suspended && k.1 > 0 && HasLeft(tr[u], k)
    requires !MarkedLost(tr[t], k.0) && forall i :: u <= i < j ==> !MarkedLost(tr[i], k.0) && !Frees(evs[i], k.0)
    ensures RankRecorded(tr[j], k.0)
  {
    LeavingIsRemembered(tr, evs, t, u, k);
    var n :| Recorded(tr[u], n) && n.rank == k.0;
    var m := NoRankIsForgotten(tr, evs, u, j, n);
  }

  /** A node suspends because of a new balancing result if and only if it is an inner node outside of the volume. */
  lemma {:induction false} UpdateSuspendsExactly(sc: Sched, epoch: int, volume: int, hasLeft: bool, hasRight: bool)
    requires WellFormed(sc) && sc.lastEpoch < epoch
    ensures var t := Updated(sc, epoch, volume, hasLeft, hasRight).sched;
      && t.lastEpoch == epoch && t.lastVolume == volume
      && (t.suspending || t.suspended <==> sc.suspending || sc.suspended || (sc.index > 0 && volume <= sc.index))
  {
    if !sc.suspending && !sc.suspended {
      UpdatedKeepsForm(sc, epoch, volume, hasLeft, hasRight);
    }
  }
}
