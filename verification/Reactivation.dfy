/**
 Reactivation-based scheduling of one job over all processes
 (src/core/reactivation_scheduler.hpp, src/scheduling/local_scheduler.hpp).

 A state holds the local schedulers of all ranks and the packages in flight. Packages may be
 delivered in any order. Events of the surrounding system (commitments, adoption offers, balancing
 updates, interruptions, timers) happen at any time at which the code lets them through.
 */
module Reactivation {
  import opened Options
  import opened JobNodes
  import opened ChildSessions
  import opened LocalScheduling
  import T = PackageTokens

  /** A scheduler is identified by the rank it lives on and the index of its job node. */
  type Key = (int, nat)

  datatype State = State(root: int, scheds: map<Key, Sched>, net: seq<Package>)

  datatype Event =
    | RootStart(epoch: int, client: int)
    | RootResume
    | Commit(rank: int, index: nat, parentRank: int)
    | Join(rank: int, index: nat, source: int, epoch: int, child: nat)
    | Reject(rank: int, index: nat, epoch: int, child: nat, lost: bool, hasChild: bool)
    | Balance(rank: int, index: nat, epoch: int, volume: int, hasLeft: bool, hasRight: bool)
    | Suspend(rank: int, index: nat)
    | Forget(rank: int, index: nat)
    | Freed(rank: int, index: nat, freedRank: int, epoch: int)
    | Deliver(pos: nat)

  /** The children of one node which hold nodes are on different ranks. */
  ghost predicate DifferentRanks(sc: Sched)
  {
    sc.left.Some? && sc.right.Some? && sc.left.value.childHasNodes && sc.right.value.childHasNodes
    ==> sc.left.value.childRank != sc.right.value.childRank
  }

  function RemoveAt<T>(s: seq<T>, k: nat): seq<T>
    requires k < |s|
  {
    s[..k] + s[k + 1..]
  }

  ghost predicate Enabled(s: State, ev: Event)
  {
    match ev
    case RootStart(_, _) => (s.root, 0) in s.scheds ==> s.scheds[(s.root, 0)].suspended
    case RootResume =>
      (s.root, 0) in s.scheds && var sc := s.scheds[(s.root, 0)];
      sc.suspending && !sc.suspended && !ChildrenHaveNodes(sc)
    case Commit(rank, index, _) => index > 0 && ((rank, index) in s.scheds ==> s.scheds[(rank, index)].suspended)
    case Join(rank, index, source, epoch, child) =>
      (rank, index) in s.scheds && var sc := s.scheds[(rank, index)];
      WellFormed(sc) && AcceptsChild(sc, child) && DifferentRanks(JoiningHandled(sc, source, epoch, child).sched)
    case Reject(rank, index, _, _, _, _) => (rank, index) in s.scheds
    case Balance(rank, index, _, _, _, _) => (rank, index) in s.scheds
    case Suspend(rank, index) => (rank, index) in s.scheds
    case Forget(rank, index) => (rank, index) in s.scheds && s.scheds[(rank, index)].suspended
    case Freed(rank, index, _, _) => (rank, index) in s.scheds
    case Deliver(pos) => pos < |s.net|
  }

  /** The assertions in the code which the step relies on. */
  ghost predicate Safe(s: State)
  {
    && (forall k :: k in s.scheds ==> WellFormed(s.scheds[k]) && s.scheds[k].index == k.1)
    && (forall j :: 0 <= j < |s.net| ==>
          && Ordered(s.net[j].nodes)
          && (s.net[j].tag == InitializeChild && (s.net[j].dst, s.net[j].destIndex) in s.scheds ==>
                s.scheds[(s.net[j].dst, s.net[j].destIndex)].suspended))
  }

  function Apply(s: State, k: Key, o: Outcome): State
  {
    s.(scheds := s.scheds[k := o.sched], net := s.net + o.packages)
  }

  ghost function Step(s: State, ev: Event): State
    requires Safe(s) && Enabled(s, ev)
  {
    match ev
    case RootStart(epoch, client) =>
      var k := (s.root, 0);
      var sc := if k in s.scheds then s.scheds[k] else NewScheduler(s.root, 0, client);
      Apply(s, k, Initialized(sc, if epoch < 0 then 0 else epoch, -1, [], client))
    case RootResume =>
      var k := (s.root, 0);
      Apply(s, k, ResumptionBegun(s.scheds[k]))
    case Commit(rank, index, parentRank) =>
      var k := (rank, index);
      var sc := if k in s.scheds then s.scheds[k] else NewScheduler(rank, index, parentRank);
      s.(scheds := s.scheds[k := RoleReset(sc)])
    case Join(rank, index, source, epoch, child) =>
      Apply(s, (rank, index), JoiningHandled(s.scheds[(rank, index)], source, epoch, child))
    case Reject(rank, index, epoch, child, lost, hasChild) =>
      Apply(s, (rank, index), RejectionHandled(s.scheds[(rank, index)], epoch, child, lost, hasChild))
    case Balance(rank, index, epoch, volume, hasLeft, hasRight) =>
      Apply(s, (rank, index), Updated(s.scheds[(rank, index)], epoch, volume, hasLeft, hasRight))
    case Suspend(rank, index) => Suspended(s, (rank, index))
    case Forget(rank, index) => s.(scheds := s.scheds - {(rank, index)})
    case Freed(rank, index, freedRank, epoch) =>
      s.(scheds := s.scheds[(rank, index) := NodeFreed(s.scheds[(rank, index)], freedRank, epoch, index)])
    case Deliver(pos) => Delivered(s.(net := RemoveAt(s.net, pos)), s.net[pos])
  }

  /** suspendReactivator */
  ghost function Suspended(s: State, k: Key): State
    requires k in s.scheds && WellFormed(s.scheds[k])
  {
    var sc := s.scheds[k];
    var s' := if !sc.suspended && !sc.suspending then Apply(s, k, SuspensionBegun(sc, -1)) else s;
    if k.1 > 0 && s'.scheds[k].suspended then s'.(scheds := s'.scheds - {k}) else s'
  }

  /** ReactivationScheduler::handle: a package for an unknown scheduler is returned to its sender. */
  ghost function Delivered(s: State, p: Package): State
    requires (p.dst, p.destIndex) in s.scheds ==> WellFormed(s.scheds[(p.dst, p.destIndex)])
    requires Ordered(p.nodes)
    requires p.tag == InitializeChild && (p.dst, p.destIndex) in s.scheds ==> s.scheds[(p.dst, p.destIndex)].suspended
  {
    var k := (p.dst, p.destIndex);
    if k in s.scheds then
      Apply(s, k, if p.tag == InitializeChild then InitHandled(s.scheds[k], p) else ReturnHandled(s.scheds[k], p))
    else if p.tag == InitializeChild then
      s.(net := s.net + [p.(tag := ReturnNodes, src := p.dst, dst := p.src, destIndex := ParentIndex(p.destIndex))])
    else s
  }

  // ---------------------------------------------------------------------
  // The view as tokens, and the invariant
  // ---------------------------------------------------------------------

  function SlotOf(o: Option<Session>): Option<int>
  {
    if o.Some? && o.value.childHasNodes then Some(o.value.childRank) else None
  }

  function RoleOf(sc: Sched): T.Role
  {
    T.Role(sc.parentRank, SlotOf(sc.left), SlotOf(sc.right))
  }

  function FlightOf(p: Package): T.Flight
  {
    T.Flight(p.tag == InitializeChild, p.src, p.dst, p.child)
  }

  ghost function Flights(net: seq<Package>): seq<T.Flight>
  {
    seq(|net|, i requires 0 <= i < |net| => FlightOf(net[i]))
  }

  ghost function ActiveRoles(scheds: map<Key, Sched>): map<Key, T.Role>
  {
    map k | k in scheds && !scheds[k].suspended :: RoleOf(scheds[k])
  }

  ghost function ViewOf(s: State): T.View
  {
    T.View(s.root, ActiveRoles(s.scheds), Flights(s.net))
  }

  ghost predicate SchedSane(k: Key, sc: Sched)
  {
    sc.rank == k.0 && sc.index == k.1 && WellFormed(sc) && !sc.resuming
  }

  ghost predicate PackageSane(p: Package)
  {
    Ordered(p.nodes) && p.destIndex == if p.tag == InitializeChild then p.child else ParentIndex(p.child)
  }

  ghost predicate Sane(s: State)
  {
    && (forall k {:trigger SchedSane(k, s.scheds[k])} :: k in s.scheds ==> SchedSane(k, s.scheds[k]))
    && (forall j {:trigger PackageSane(s.net[j])} :: 0 <= j < |s.net| ==> PackageSane(s.net[j]))
  }

  ghost predicate Inv(s: State, tok: map<nat, T.Token>)
  {
    Sane(s) && T.Inv(ViewOf(s), tok)
  }

  /** The invariant makes every step safe: no session is ever overwritten by an arriving package. */
  lemma {:induction false} InvIsSafe(s: State, tok: map<nat, T.Token>)
    requires Inv(s, tok)
    ensures Safe(s)
  {
    forall k | k in s.scheds
      ensures WellFormed(s.scheds[k]) && s.scheds[k].index == k.1
    {
      assert SchedSane(k, s.scheds[k]);
    }
    var v := ViewOf(s);
    forall j | 0 <= j < |s.net|
      ensures Ordered(s.net[j].nodes)
      ensures s.net[j].tag == InitializeChild && (s.net[j].dst, s.net[j].destIndex) in s.scheds ==>
                s.scheds[(s.net[j].dst, s.net[j].destIndex)].suspended
    {
      assert PackageSane(s.net[j]);
      assert T.FlightOk(tok, v.flights[j]);
      var k := (s.net[j].dst, s.net[j].destIndex);
      assert k in v.active ==> T.ActiveOk(v, tok, k);
    }
  }

  // ---------------------------------------------------------------------
  // How the view follows changes of the state
  // ---------------------------------------------------------------------

  lemma {:induction false} RolesAfter(scheds: map<Key, Sched>, k: Key, t: Sched)
    ensures t.suspended ==> ActiveRoles(scheds[k := t]) == ActiveRoles(scheds) - {k}
    ensures !t.suspended ==> ActiveRoles(scheds[k := t]) == ActiveRoles(scheds)[k := RoleOf(t)]
  {
  }

  lemma {:induction false} RolesUnchanged(scheds: map<Key, Sched>, k: Key, t: Sched)
    requires (k in scheds && !scheds[k].suspended) == !t.suspended
    requires !t.suspended ==> RoleOf(t) == RoleOf(scheds[k])
    ensures ActiveRoles(scheds[k := t]) == ActiveRoles(scheds)
  {
  }

  lemma {:induction false} SaneAfter(s: State, k: Key, t: Sched, packages: seq<Package>)
    requires Sane(s) && SchedSane(k, t)
    requires forall j :: 0 <= j < |packages| ==> PackageSane(packages[j])
    ensures Sane(s.(scheds := s.scheds[k := t], net := s.net + packages))
  {
    var s' := s.(scheds := s.scheds[k := t], net := s.net + packages);
    forall l | l in s'.scheds ensures SchedSane(l, s'.scheds[l]) {
      assert l != k ==> SchedSane(l, s.scheds[l]);
    }
    forall j | 0 <= j < |s'.net| ensures PackageSane(s'.net[j]) {
      assert j < |s.net| ==> PackageSane(s.net[j]);
      assert j >= |s.net| ==> s'.net[j] == packages[j - |s.net|];
    }
  }

  lemma {:induction false} FlightsOfAppend(net: seq<Package>, p: Package)
    ensures Flights(net + [p]) == Flights(net) + [FlightOf(p)]
  {
  }

  lemma {:induction false} FlightsOfRemove(net: seq<Package>, pos: nat)
    requires pos < |net|
    ensures Flights(RemoveAt(net, pos)) == T.RemoveAt(Flights(net), pos)
  {
  }

  lemma {:induction false} SaneWithout(s: State, pos: nat)
    requires Sane(s) && pos < |s.net|
    ensures Sane(s.(net := RemoveAt(s.net, pos)))
  {
    var s' := s.(net := RemoveAt(s.net, pos));
    forall l | l in s'.scheds ensures SchedSane(l, s'.scheds[l]) {
      assert SchedSane(l, s.scheds[l]);
    }
    forall j | 0 <= j < |s'.net| ensures PackageSane(s'.net[j]) {
      assert s'.net[j] == s.net[if j < pos then j else j + 1];
      assert PackageSane(s.net[if j < pos then j else j + 1]);
    }
  }

  // ---------------------------------------------------------------------
  // What the handlers of a scheduler mean for its role
  // ---------------------------------------------------------------------

  /** Nothing changes for anybody else. */
  ghost predicate Quiet(sc: Sched, o: Outcome)
  {
    && o.packages == [] && WellFormed(o.sched) && !o.sched.resuming
    && o.sched.rank == sc.rank && o.sched.index == sc.index && o.sched.suspended == sc.suspended
    && (!sc.suspended ==> RoleOf(o.sched) == RoleOf(sc))
  }

  /** The scheduler suspends and returns its package. */
  ghost predicate Returns(sc: Sched, o: Outcome)
  {
    && !sc.suspended && sc.index > 0 && SlotOf(sc.left).None? && SlotOf(sc.right).None?
    && WellFormed(o.sched) && !o.sched.resuming
    && o.sched.rank == sc.rank && o.sched.index == sc.index && o.sched.suspended
    && |o.packages| == 1 && PackageSane(o.packages[0])
    && FlightOf(o.packages[0]) == T.Flight(false, sc.rank, sc.parentRank, sc.index)
  }

  lemma {:induction false} ReturnsWith(sc: Sched, o: Outcome, nodes: seq<Node>, o': Outcome)
    requires Quiet(sc, o) && CanReturn(o.sched) && Ordered(nodes)
    requires o'.sched == ReturnedWith(o.sched, nodes).sched && o'.packages == ReturnedWith(o.sched, nodes).packages
    ensures Returns(sc, o')
  {
  }

  lemma {:induction false} ReturnIfPossibleEffect(sc: Sched, o: Outcome)
    requires Quiet(sc, o)
    ensures Quiet(sc, ReturnedIfPossible(o)) || Returns(sc, ReturnedIfPossible(o))
  {
    if CanReturn(o.sched) {
      var o', nodes := ReturnedIfPossible(o), ReturnedNodes(o.sched);
      assert o'.packages == [] + ReturnedWith(o.sched, nodes).packages;
      ReturnsWith(sc, o, nodes, o');
    }
  }

  lemma {:induction false} SuspensionEffect(sc: Sched, epoch: int)
    requires WellFormed(sc) && !sc.resuming
    ensures Quiet(sc, SuspensionBegun(sc, epoch)) || Returns(sc, SuspensionBegun(sc, epoch))
  {
    var e := if epoch == -1 then Max(sc.lastEpoch, sc.lastSuspension) else epoch;
    var t := sc.(lastSuspension := e);
    if !t.suspended {
      ReturnIfPossibleEffect(sc, Outcome(t.(suspending := true), [], [], []));
    }
  }

  lemma {:induction false} UpdateEffect(sc: Sched, epoch: int, volume: int, hasLeft: bool, hasRight: bool)
    requires WellFormed(sc) && !sc.resuming
    ensures var o := Updated(sc, epoch, volume, hasLeft, hasRight); Quiet(sc, o) || Returns(sc, o)
  {
    if sc.lastEpoch < epoch && !sc.suspending && !sc.suspended {
      BalancingUpdatedForm(sc.left.value, epoch, volume, hasLeft);
      BalancingUpdatedForm(sc.right.value, epoch, volume, hasRight);
      UpdatedKeepsForm(sc, epoch, volume, hasLeft, hasRight);
      var u := sc.(lastEpoch := epoch, lastVolume := volume,
                   left := Some(BalancingUpdated(sc.left.value, epoch, volume, hasLeft).session),
                   right := Some(BalancingUpdated(sc.right.value, epoch, volume, hasRight).session));
      assert RoleOf(u) == RoleOf(sc);
      SuspensionEffect(u, epoch);
    }
  }

  lemma {:induction false} RejectionEffect(sc: Sched, epoch: int, child: nat, lost: bool, hasChild: bool)
    requires WellFormed(sc) && !sc.resuming
    ensures Quiet(sc, RejectionHandled(sc, epoch, child, lost, hasChild))
  {
    var side := SideByIndex(sc, child);
    if side != Neither {
      RejectedFacts(SessionAt(sc, side), epoch, lost, hasChild, sc.suspended || sc.suspending);
    }
  }

  lemma {:induction false} FreedEffect(sc: Sched, rank: int, epoch: int, index: nat)
    requires WellFormed(sc) && !sc.resuming
    ensures Quiet(sc, Outcome(NodeFreed(sc, rank, epoch, index), [], [], []))
  {
  }

  /** The root's resumption closes both sessions, which have no child with nodes, and opens new ones. */
  lemma {:induction false} ResumptionEffect(sc: Sched)
    requires WellFormed(sc) && sc.index == 0 && sc.suspending && !sc.suspended && !ChildrenHaveNodes(sc)
    ensures Quiet(sc, ResumptionBegun(sc))
  {
    var t := sc.(resuming := true);
    var nodes := Cleaned(AllNodes(t));
    ReopenedEffect(sc, Max(t.lastEpoch, t.lastSuspension), t.lastVolume, nodes);
  }

  lemma {:induction false} ReopenedEffect(sc: Sched, epoch: int, volume: int, nodes: seq<Node>)
    requires WellFormed(sc) && sc.index == 0 && sc.suspending && !sc.suspended && !ChildrenHaveNodes(sc) &&
      Ordered(nodes)
    ensures var t := sc.(resuming := false, suspending := false, left := None, right := None);
      Quiet(sc, Opened(t, epoch, volume, nodes, sc.parentRank))
  {
    var t := sc.(resuming := false, suspending := false, left := None, right := None);
    OpenedForm(t, epoch, volume, nodes, sc.parentRank);
  }

  lemma {:induction false} JoinEffect(sc: Sched, source: int, epoch: int, child: nat)
    requires WellFormed(sc) && !sc.resuming && AcceptsChild(sc, child)
    ensures var o := JoiningHandled(sc, source, epoch, child);
      && !sc.suspended && child > 0 && ParentIndex(child) == sc.index
      && T.Slot(RoleOf(sc), child).None?
      && WellFormed(o.sched) && !o.sched.resuming && !o.sched.suspended
      && o.sched.rank == sc.rank && o.sched.index == sc.index
      && RoleOf(o.sched) == T.WithSlot(RoleOf(sc), child, Some(source))
      && |o.packages| == 1 && PackageSane(o.packages[0])
      && FlightOf(o.packages[0]) == T.Flight(true, sc.rank, source, child)
  {
    var s := SessionAt(sc, SideByIndex(sc, child));
    ChildJoinedFacts(s, source, epoch);
    JoinEffectAt(sc, source, child, ChildJoined(s, source, epoch).session, JoiningHandled(sc, source, epoch, child));
  }

  lemma {:induction false} JoinEffectAt(sc: Sched, source: int, child: nat, s: Session, o: Outcome)
    requires WellFormed(sc) && !sc.resuming && AcceptsChild(sc, child)
    requires Ordered(s.nodes) && s.childHasNodes && s.childRank == source && s.childIndex == child
    requires o.sched == WithSession(sc, SideByIndex(sc, child), s)
    requires |o.packages| == 1 && Ordered(o.packages[0].nodes) && o.packages[0].destIndex == child
    requires FlightOf(o.packages[0]) == T.Flight(true, sc.rank, source, child)
    ensures !sc.suspended && child > 0 && ParentIndex(child) == sc.index
    ensures T.Slot(RoleOf(sc), child).None?
    ensures WellFormed(o.sched) && !o.sched.resuming && !o.sched.suspended
    ensures o.sched.rank == sc.rank && o.sched.index == sc.index
    ensures RoleOf(o.sched) == T.WithSlot(RoleOf(sc), child, Some(source))
    ensures PackageSane(o.packages[0])
  {
  }

  /** An arriving package either opens the scheduler or, if it is from the past, goes back. */
  lemma {:induction false} InitEffect(sc: Sched, p: Package)
    requires WellFormed(sc) && !sc.resuming && sc.suspended && Ordered(p.nodes)
    ensures var o := InitHandled(sc, p);
      && WellFormed(o.sched) && !o.sched.resuming && o.sched.rank == sc.rank && o.sched.index == sc.index
      && if IsPast(sc, p.epoch) then
           && o.sched.suspended && |o.packages| == 1 && PackageSane(o.packages[0])
           && FlightOf(o.packages[0]) == T.Flight(false, sc.rank, p.src, sc.index)
         else
           !o.sched.suspended && o.packages == [] && RoleOf(o.sched) == T.Role(p.src, None, None)
  {
    InitializedForm(sc, p.epoch, p.volume, p.nodes, p.src);
    OpenedForm(sc, p.epoch, p.volume, p.nodes, p.src);
  }

  /** A returned package is attributed to the session of the child which sent it. */
  lemma {:induction false} ReturnSide(sc: Sched, p: Package)
    requires WellFormed(sc) && !sc.suspended && p.child > 0 && ParentIndex(p.child) == sc.index
    requires T.Slot(RoleOf(sc), p.child) == Some(p.src) && T.DifferentRanks(RoleOf(sc))
    ensures SideByRank(sc, p.src) == if p.child % 2 == 1 then Left else Right
  {
  }

  lemma {:induction false} ReturnEffect(sc: Sched, p: Package)
    requires WellFormed(sc) && !sc.resuming && !sc.suspended && p.child > 0 && ParentIndex(p.child) == sc.index
    requires T.Slot(RoleOf(sc), p.child) == Some(p.src) && T.DifferentRanks(RoleOf(sc))
    ensures var side := SideByRank(sc, p.src);
      && side != Neither
      && var t := WithSession(sc, side, NodesReturned(SessionAt(sc, side), p.nodes));
      && WellFormed(t) && !t.resuming && !t.suspended && t.rank == sc.rank && t.index == sc.index
      && RoleOf(t) == T.WithSlot(RoleOf(sc), p.child, None)
      && (Quiet(t, ReturnHandled(sc, p)) || Returns(t, ReturnHandled(sc, p)))
  {
    ReturnSide(sc, p);
    var side := SideByRank(sc, p.src);
    var t := WithSession(sc, side, NodesReturned(SessionAt(sc, side), p.nodes));
    ReturnIfPossibleEffect(t, Outcome(t, [], [], []));
  }

  // ---------------------------------------------------------------------
  // Every step keeps the invariant
  // ---------------------------------------------------------------------

  lemma {:induction false} ApplyQuiet(s: State, tok: map<nat, T.Token>, k: Key, o: Outcome)
    requires Inv(s, tok) && k in s.scheds && Quiet(s.scheds[k], o)
    ensures Inv(Apply(s, k, o), tok)
  {
    assert SchedSane(k, s.scheds[k]);
    SaneAfter(s, k, o.sched, []);
    RolesUnchanged(s.scheds, k, o.sched);
    assert s.net + [] == s.net;
  }

  lemma {:induction false} ApplyReturns(s: State, tok: map<nat, T.Token>, k: Key, o: Outcome)
    returns (tok': map<nat, T.Token>)
    requires Inv(s, tok) && k in s.scheds && Returns(s.scheds[k], o)
    ensures Inv(Apply(s, k, o), tok')
  {
    assert SchedSane(k, s.scheds[k]);
    SaneAfter(s, k, o.sched, o.packages);
    RolesAfter(s.scheds, k, o.sched);
    assert o.packages == [o.packages[0]];
    FlightsOfAppend(s.net, o.packages[0]);
    var v := ViewOf(s);
    T.SendReturn(v, tok, k);
    tok' := tok[k.1 := T.Token(v.active[k].parentRank, k.0, T.Up)];
  }

  lemma {:induction false} ApplyEither(s: State, tok: map<nat, T.Token>, k: Key, o: Outcome)
    returns (tok': map<nat, T.Token>)
    requires Inv(s, tok) && k in s.scheds && (Quiet(s.scheds[k], o) || Returns(s.scheds[k], o))
    ensures Inv(Apply(s, k, o), tok')
  {
    if Quiet(s.scheds[k], o) {
      ApplyQuiet(s, tok, k, o);
      tok' := tok;
    } else {
      tok' := ApplyReturns(s, tok, k, o);
    }
  }

  /** A suspended scheduler may be created or renewed. */
  lemma {:induction false} SetSuspended(s: State, tok: map<nat, T.Token>, k: Key, t: Sched)
    requires Inv(s, tok) && (k in s.scheds ==> s.scheds[k].suspended) && SchedSane(k, t) && t.suspended
    ensures Inv(s.(scheds := s.scheds[k := t]), tok)
  {
    SaneAfter(s, k, t, []);
    assert s.net + [] == s.net;
    RolesUnchanged(s.scheds, k, t);
  }

  lemma {:induction false} EraseSuspended(s: State, tok: map<nat, T.Token>, k: Key)
    requires Inv(s, tok) && k in s.scheds && s.scheds[k].suspended
    ensures Inv(s.(scheds := s.scheds - {k}), tok)
  {
    var s' := s.(scheds := s.scheds - {k});
    assert ActiveRoles(s'.scheds) == ActiveRoles(s.scheds);
    forall l | l in s'.scheds ensures SchedSane(l, s'.scheds[l]) {
      assert SchedSane(l, s.scheds[l]);
    }
    forall j | 0 <= j < |s'.net| ensures PackageSane(s'.net[j]) {
      assert PackageSane(s.net[j]);
    }
  }

  lemma {:induction false} RootStartKeeps(s: State, tok: map<nat, T.Token>, epoch: int, client: int)
    requires Inv(s, tok) && Safe(s) && Enabled(s, RootStart(epoch, client))
    ensures Inv(Step(s, RootStart(epoch, client)), tok)
  {
    var k := (s.root, 0);
    assert k in s.scheds ==> SchedSane(k, s.scheds[k]);
    var sc := if k in s.scheds then s.scheds[k] else NewScheduler(s.root, 0, client);
    var e := if epoch < 0 then 0 else epoch;
    OpenedForm(sc, e, -1, [], client);
    var o := Initialized(sc, e, -1, [], client);
    SaneAfter(s, k, o.sched, []);
    assert s.net + [] == s.net;
    RolesAfter(s.scheds, k, o.sched);
    assert RoleOf(o.sched) == T.Role(client, None, None);
    T.Start(ViewOf(s), tok, client);
  }

  lemma {:induction false} JoinKeeps(s: State, tok: map<nat, T.Token>, k: Key, source: int, epoch: int, child: nat)
    returns (tok': map<nat, T.Token>)
    requires Inv(s, tok) && Safe(s) && Enabled(s, Join(k.0, k.1, source, epoch, child))
    ensures Inv(Step(s, Join(k.0, k.1, source, epoch, child)), tok')
  {
    assert SchedSane(k, s.scheds[k]);
    var sc := s.scheds[k];
    JoinEffect(sc, source, epoch, child);
    var o := JoiningHandled(sc, source, epoch, child);
    SaneAfter(s, k, o.sched, o.packages);
    RolesAfter(s.scheds, k, o.sched);
    assert o.packages == [o.packages[0]];
    FlightsOfAppend(s.net, o.packages[0]);
    T.Join(ViewOf(s), tok, k, child, source);
    tok' := tok[child := T.Token(k.0, source, T.Down)];
  }

  lemma {:induction false} SuspendKeeps(s: State, tok: map<nat, T.Token>, k: Key) returns (tok': map<nat, T.Token>)
    requires Inv(s, tok) && k in s.scheds && WellFormed(s.scheds[k])
    ensures Inv(Suspended(s, k), tok')
  {
    assert SchedSane(k, s.scheds[k]);
    var sc := s.scheds[k];
    var s' := s;
    tok' := tok;
    if !sc.suspended && !sc.suspending {
      SuspensionEffect(sc, -1);
      tok' := ApplyEither(s, tok, k, SuspensionBegun(sc, -1));
      s' := Apply(s, k, SuspensionBegun(sc, -1));
    }
    if k.1 > 0 && s'.scheds[k].suspended {
      EraseSuspended(s', tok', k);
    }
  }

  lemma {:induction false} DeliverInitKeeps(s: State, tok: map<nat, T.Token>, pos: nat)
    returns (tok': map<nat, T.Token>)
    requires Inv(s, tok) && Safe(s) && pos < |s.net| && s.net[pos].tag == InitializeChild
    ensures Inv(Step(s, Deliver(pos)), tok')
  {
    var p := s.net[pos];
    assert PackageSane(p);
    var k := (p.dst, p.destIndex);
    var v := ViewOf(s);
    var u := s.(net := RemoveAt(s.net, pos));
    FlightsOfRemove(s.net, pos);
    SaneWithout(s, pos);
    if k in s.scheds && !IsPast(s.scheds[k], p.epoch) {
      assert SchedSane(k, s.scheds[k]);
      InitEffect(s.scheds[k], p);
      var o := InitHandled(s.scheds[k], p);
      SaneAfter(u, k, o.sched, []);
      assert u.net + [] == u.net;
      RolesAfter(s.scheds, k, o.sched);
      T.ReceiveInit(v, tok, pos);
      tok' := tok[p.child := T.Token(p.src, p.dst, T.Held)];
    } else {
      T.Bounce(v, tok, pos);
      tok' := tok[p.child := T.Token(p.src, p.dst, T.Up)];
      assert T.FlightOk(tok, v.flights[pos]);
      if k in s.scheds {
        assert SchedSane(k, s.scheds[k]);
        InitEffect(s.scheds[k], p);
        var o := InitHandled(s.scheds[k], p);
        SaneAfter(u, k, o.sched, o.packages);
        RolesUnchanged(s.scheds, k, o.sched);
        assert o.packages == [o.packages[0]];
        FlightsOfAppend(u.net, o.packages[0]);
      } else {
        var b := p.(tag := ReturnNodes, src := p.dst, dst := p.src, destIndex := ParentIndex(p.destIndex));
        FlightsOfAppend(u.net, b);
        assert PackageSane(b);
        SaneNet(u, b);
      }
    }
  }

  lemma {:induction false} SaneNet(s: State, p: Package)
    requires Sane(s) && PackageSane(p)
    ensures Sane(s.(net := s.net + [p]))
  {
    var s' := s.(net := s.net + [p]);
    forall l | l in s'.scheds ensures SchedSane(l, s'.scheds[l]) {
      assert SchedSane(l, s.scheds[l]);
    }
    forall j | 0 <= j < |s'.net| ensures PackageSane(s'.net[j]) {
      assert j < |s.net| ==> PackageSane(s.net[j]);
    }
  }

  /** The state in which the returned package has been merged into the session it belongs to. */
  ghost function ReturnMerged(s: State, pos: nat): State
    requires Safe(s) && pos < |s.net|
  {
    var p := s.net[pos];
    var k := (p.dst, p.destIndex);
    var u := s.(net := RemoveAt(s.net, pos));
    if k !in s.scheds || SideByRank(s.scheds[k], p.src) == Neither then u
    else
      var sc := s.scheds[k];
      var side := SideByRank(sc, p.src);
      u.(scheds := u.scheds[k := WithSession(sc, side, NodesReturned(SessionAt(sc, side), p.nodes))])
  }

  /** A returned package always finds the session which is waiting for it. */
  lemma {:induction false} ReturnFindsSession(s: State, tok: map<nat, T.Token>, pos: nat)
    requires Inv(s, tok) && Safe(s) && pos < |s.net| && s.net[pos].tag == ReturnNodes
    ensures var p := s.net[pos]; var k := (p.dst, p.destIndex);
      && PackageSane(p) && k in s.scheds && SchedSane(k, s.scheds[k]) && !s.scheds[k].suspended
      && p.child > 0 && ParentIndex(p.child) == k.1
      && T.Slot(RoleOf(s.scheds[k]), p.child) == Some(p.src) && T.DifferentRanks(RoleOf(s.scheds[k]))
  {
    var p := s.net[pos];
    assert PackageSane(p);
    var k := (p.dst, p.destIndex);
    var v := ViewOf(s);
    T.ReceiveReturn(v, tok, pos);
    assert T.ActiveOk(v, tok, k);
    assert SchedSane(k, s.scheds[k]);
  }

  lemma {:induction false} ReturnMergedKeeps(s: State, tok: map<nat, T.Token>, pos: nat)
    requires Inv(s, tok) && Safe(s) && pos < |s.net| && s.net[pos].tag == ReturnNodes
    ensures Inv(ReturnMerged(s, pos), tok - {s.net[pos].child})
  {
    ReturnFindsSession(s, tok, pos);
    var p := s.net[pos];
    var k := (p.dst, p.destIndex);
    var sc := s.scheds[k];
    ReturnEffect(sc, p);
    var side := SideByRank(sc, p.src);
    var t := WithSession(sc, side, NodesReturned(SessionAt(sc, side), p.nodes));
    var u := s.(net := RemoveAt(s.net, pos));
    SaneWithout(s, pos);
    SaneAfter(u, k, t, []);
    assert u.net + [] == u.net;
    FlightsOfRemove(s.net, pos);
    RolesAfter(s.scheds, k, t);
    T.ReceiveReturn(ViewOf(s), tok, pos);
  }

  lemma {:induction false} DeliverReturnKeeps(s: State, tok: map<nat, T.Token>, pos: nat)
    returns (tok': map<nat, T.Token>)
    requires Inv(s, tok) && Safe(s) && pos < |s.net| && s.net[pos].tag == ReturnNodes
    ensures Inv(Step(s, Deliver(pos)), tok')
  {
    ReturnFindsSession(s, tok, pos);
    ReturnMergedKeeps(s, tok, pos);
    var p := s.net[pos];
    var k := (p.dst, p.destIndex);
    ReturnEffect(s.scheds[k], p);
    ReturnStepForm(s, pos);
    tok' := ApplyEither(ReturnMerged(s, pos), tok - {p.child}, k, ReturnHandled(s.scheds[k], p));
  }

  lemma {:induction false} AppliedOver(s: State, k: Key, sc: Sched, o: Outcome)
    ensures Apply(s.(scheds := s.scheds[k := sc]), k, o) == Apply(s, k, o)
  {
    assert s.scheds[k := sc][k := o.sched] == s.scheds[k := o.sched];
  }

  lemma {:induction false} ReturnStepForm(s: State, pos: nat)
    requires Safe(s) && pos < |s.net| && s.net[pos].tag == ReturnNodes &&
      (s.net[pos].dst, s.net[pos].destIndex) in s.scheds
    ensures var p := s.net[pos]; var k := (p.dst, p.destIndex);
      Apply(ReturnMerged(s, pos), k, ReturnHandled(s.scheds[k], p)) == Step(s, Deliver(pos))
  {
    var p := s.net[pos];
    var k := (p.dst, p.destIndex);
    var u, sc := s.(net := RemoveAt(s.net, pos)), s.scheds[k];
    var side := SideByRank(sc, p.src);
    if side != Neither {
      AppliedOver(u, k, WithSession(sc, side, NodesReturned(SessionAt(sc, side), p.nodes)), ReturnHandled(sc, p));
    }
  }

  /** Every step of the protocol keeps the invariant. */
  lemma {:induction false} StepKeeps(s: State, tok: map<nat, T.Token>, ev: Event) returns (tok': map<nat, T.Token>)
    requires Inv(s, tok) && Safe(s) && Enabled(s, ev)
    ensures Inv(Step(s, ev), tok')
  {
    tok' := tok;
    match ev
    case RootStart(epoch, client) =>
      RootStartKeeps(s, tok, epoch, client);
    case RootResume =>
      var k := (s.root, 0);
      assert SchedSane(k, s.scheds[k]);
      ResumptionEffect(s.scheds[k]);
      ApplyQuiet(s, tok, k, ResumptionBegun(s.scheds[k]));
    case Commit(rank, index, parentRank) =>
      var k := (rank, index);
      assert k in s.scheds ==> SchedSane(k, s.scheds[k]);
      var sc := if k in s.scheds then s.scheds[k] else NewScheduler(rank, index, parentRank);
      SetSuspended(s, tok, k, RoleReset(sc));
    case Join(rank, index, source, epoch, child) =>
      tok' := JoinKeeps(s, tok, (rank, index), source, epoch, child);
    case Reject(rank, index, epoch, child, lost, hasChild) =>
      var k := (rank, index);
      assert SchedSane(k, s.scheds[k]);
      RejectionEffect(s.scheds[k], epoch, child, lost, hasChild);
      ApplyQuiet(s, tok, k, RejectionHandled(s.scheds[k], epoch, child, lost, hasChild));
    case Balance(rank, index, epoch, volume, hasLeft, hasRight) =>
      var k := (rank, index);
      assert SchedSane(k, s.scheds[k]);
      UpdateEffect(s.scheds[k], epoch, volume, hasLeft, hasRight);
      tok' := ApplyEither(s, tok, k, Updated(s.scheds[k], epoch, volume, hasLeft, hasRight));
    case Suspend(rank, index) =>
      tok' := SuspendKeeps(s, tok, (rank, index));
    case Forget(rank, index) =>
      EraseSuspended(s, tok, (rank, index));
    case Freed(rank, index, freedRank, epoch) =>
      var k := (rank, index);
      assert SchedSane(k, s.scheds[k]);
      FreedEffect(s.scheds[k], freedRank, epoch, index);
      var o := Outcome(NodeFreed(s.scheds[k], freedRank, epoch, index), [], [], []);
      ApplyQuiet(s, tok, k, o);
      assert s.net + [] == s.net;
    case Deliver(pos) =>
      if s.net[pos].tag == InitializeChild {
        tok' := DeliverInitKeeps(s, tok, pos);
      } else {
        tok' := DeliverReturnKeeps(s, tok, pos);
      }
  }
}
