/**
 A run in which a rejection replaces a record by an older one: a child joins, suspends and is on record with
 epoch 5.
 */
module AgingRun {
  import opened Options
  import opened JobNodes
  import opened ChildSessions
  import opened LocalScheduling
  import opened Reactivation
  import opened Conservation

  /** The root's scheduler on rank 0, waiting for a left child with the given nodes on record. */
  function Root(nodes: seq<Node>, epoch: int, volume: int, childRank: int, hasNodes: bool): Sched
  {
    Sched(0, 0, -1, Some(Session(nodes, epoch, volume, 1, childRank, 0, hasNodes)),
          Some(Session([], epoch, volume, 2, -1, 0, false)), -1, epoch, volume, false, false, false)
  }

  const FRESH := RoleReset(NewScheduler(7, 1, 0))

  const CHILD := Sched(7, 1, 0, Some(Session([], 5, 2, 3, -1, 0, false)), Some(Session([], 5, 2, 4, -1, 0, false)),
                       -1, 5, 2, false, false, false)

  const RECORD := Node(7, 1, 5, Available)

  const DOWN := Package(InitializeChild, 0, 7, 1, 5, 2, [], 1)

  const BACK := Package(ReturnNodes, 7, 0, 0, -1, -1, [RECORD], 1)

  function Sole(root: Sched, net: seq<Package>): State
  {
    State(0, map[(0, 0) := root], net)
  }

  function Both(root: Sched, child: Sched, net: seq<Package>): State
  {
    State(0, map[(0, 0) := root, (7, 1) := child], net)
  }

  const STARTED := Root([], -1, -1, -1, false)
  const GROWN := Root([], 1, 2, -1, false)
  const JOINED := Root([], 1, 2, 7, true)
  const LEFT := Root([RECORD], 1, 2, 7, false)
  const AGED := Root([Node(7, 1, 3, Busy)], 1, 2, 7, false)

  function Empty(childIndex: nat, epoch: int, volume: int): Session
  {
    Session([], epoch, volume, childIndex, -1, 0, false)
  }

  lemma {:induction false} NoNodes()
    ensures Ordered([]) && SplitParts([], 0) == ([], []) && SplitParts([], 1) == ([], [])
    ensures Cleaned([]) == [] && Select([], 1, true, true) == [] && Select([], 1, true, false) == []
    ensures FoundAndUpdated([], 7, 1, 5, Busy) == []
  {
  }

  lemma {:induction false} NoStatuses(volume: int, index: int)
    ensures ResetStatuses([], volume) == [] && Notified([], index) == [] && ReleasedNodes([], index) == []
  {
  }

  /** A session without nodes has nobody to ask and nobody to release. */
  lemma {:induction false} EmptyUpdated(childIndex: nat, e: int, v: int, epoch: int, volume: int)
    requires epoch > e
    ensures BalancingUpdated(Empty(childIndex, e, v), epoch, volume, false).session == Empty(childIndex, epoch, volume)
  {
    NoStatuses(volume, childIndex);
    NoStatuses(volume, -1);
  }

  lemma {:induction false} EmptyOpened(sc: Sched, e: int, v: int)
    requires sc.index <= 1 && sc.lastEpoch == e && sc.lastVolume == v && (e >= 0 || e == v == -1)
    ensures Ordered([]) && OpenedSessions(sc, []).packages == []
    ensures OpenedSessions(sc, []).sched ==
            sc.(left := Some(Empty(2 * sc.index + 1, e, v)), right := Some(Empty(2 * sc.index + 2, e, v)))
  {
    NoNodes();
    if e >= 0 {
      EmptyUpdated(2 * sc.index + 1, -1, -1, e, v);
      EmptyUpdated(2 * sc.index + 2, -1, -1, e, v);
    }
  }

  /** There is a run of n events which ends in this state. */
  ghost predicate Reached(n: nat, s: State)
  {
    exists tr, evs :: IsRun(tr, evs) && |evs| == n && tr[n] == s
  }

  lemma {:induction false} Extended(tr: seq<State>, evs: seq<Event>, ev: Event, s: State)
    returns (tr': seq<State>, evs': seq<Event>)
    requires IsRun(tr, evs) && Next(tr[|evs|], ev, s)
    ensures tr' == tr + [s] && evs' == evs + [ev] && IsRun(tr', evs')
  {
    tr', evs' := tr + [s], evs + [ev];
    var n := |evs|;
    assert tr'[n] == tr[n] && tr'[n + 1] == s;
    forall i | 0 <= i < |evs'| ensures Next(tr'[i], evs'[i], tr'[i + 1]) {
      if i < n { assert Next(tr[i], evs[i], tr[i + 1]); }
    }
  }

  lemma {:induction false} Then(n: nat, s: State, ev: Event, s': State)
    requires Reached(n, s) && Next(s, ev, s')
    ensures Reached(n + 1, s')
  {
    var tr, evs :| IsRun(tr, evs) && |evs| == n && tr[n] == s;
    var tr', evs' := Extended(tr, evs, ev, s');
  }

  lemma {:induction false} Starts()
    ensures Reached(1, Sole(STARTED, []))
  {
    var sc := NewScheduler(0, 0, -1);
    EmptyOpened(Adopted(sc, 0, -1, -1), -1, -1);
    assert Initialized(sc, 0, -1, [], -1).sched == STARTED;
    assert IsRun([State(0, map[], [])], []);
    Then(0, State(0, map[], []), RootStart(0, -1), Sole(STARTED, []));
  }

  lemma {:induction false} Updates()
    ensures WellFormed(STARTED)
    ensures var o := Updated(STARTED, 1, 2, false, false);
            o.sched == GROWN && o.packages == []
  {
    EmptyUpdated(1, -1, -1, 1, 2);
    EmptyUpdated(2, -1, -1, 1, 2);
  }

  lemma {:induction false} Grows(sc: Sched, sc': Sched)
    requires Reached(1, Sole(sc, []))
    requires WellFormed(sc) && sc.index == 0
    requires var o := Updated(sc, 1, 2, false, false); o.sched == sc' && o.packages == []
    ensures Reached(2, Sole(sc', []))
  {
    Then(1, Sole(sc, []), Balance(0, 0, 1, 2, false, false), Sole(sc', []));
  }

  lemma {:induction false} Accepts()
    ensures var sc := GROWN;
            && WellFormed(sc) && AcceptsChild(sc, 1)
            && var o := JoiningHandled(sc, 7, 5, 1); o.sched == JOINED && o.packages == [DOWN]
  {
    var s := Empty(1, 1, 2);
    assert ChildJoined(s, 7, 5).session == s.(childRank := 7, childHasNodes := true) by {
      NoNodes();
      NoStatuses(2, 1);
      NoStatuses(2, -1);
    }
    assert NodesForChild(s) == [] by { NoNodes(); }
  }

  lemma {:induction false} Joins(sc: Sched, sc': Sched)
    requires Reached(2, Sole(sc, []))
    requires WellFormed(sc) && sc.index == 0 && AcceptsChild(sc, 1) && DifferentRanks(sc')
    requires var o := JoiningHandled(sc, 7, 5, 1); o.sched == sc' && o.packages == [DOWN]
    ensures Reached(3, Sole(sc', [DOWN]))
  {
    Then(2, Sole(sc, []), Join(0, 0, 7, 5, 1), Sole(sc', [DOWN]));
  }

  lemma {:induction false} Commits(sc: Sched, net: seq<Package>)
    requires Reached(3, Sole(sc, net))
    ensures Reached(4, Both(sc, FRESH, net))
  {
    Then(3, Sole(sc, net), Commit(7, 1, 0), Both(sc, FRESH, net));
  }

  lemma {:induction false} Initializes()
    ensures WellFormed(FRESH) && Ordered([])
    ensures var o := InitHandled(FRESH, DOWN); o.sched == CHILD && o.packages == []
  {
    EmptyOpened(Adopted(FRESH, 5, 2, 0), 5, 2);
    InitializedForm(FRESH, 5, 2, [], 0);
  }

  lemma {:induction false} Delivers(s: State, p: Package, s': State)
    requires (p.dst, p.destIndex) in s.scheds ==> WellFormed(s.scheds[(p.dst, p.destIndex)])
    requires Ordered(p.nodes)
    requires p.tag == InitializeChild && (p.dst, p.destIndex) in s.scheds ==> s.scheds[(p.dst, p.destIndex)].suspended
    requires s.net == [] && Delivered(s, p) == s'
    ensures Next(s.(net := [p]), Deliver(0), s')
  {
    assert RemoveAt([p], 0) == [];
  }

  lemma {:induction false} Arrives(sc: Sched, idle: Sched, child: Sched, p: Package)
    requires Reached(4, Both(sc, idle, [p]))
    requires p.tag == InitializeChild && p.dst == 7 && p.destIndex == 1 && Ordered(p.nodes)
    requires WellFormed(idle) && idle.suspended
    requires var o := InitHandled(idle, p); o.sched == child && o.packages == []
    ensures Reached(5, Both(sc, child, []))
  {
    Delivers(Both(sc, idle, []), p, Both(sc, child, []));
    Then(4, Both(sc, idle, [p]), Deliver(0), Both(sc, child, []));
  }

  lemma {:induction false} Empties()
    ensures WellFormed(CHILD)
    ensures var o := SuspensionBegun(CHILD, -1); o.sched.suspended && o.packages == [BACK]
  {
    var t := CHILD.(lastSuspension := 5, suspending := true);
    NoNodes();
    assert AllNodes(t) == [];
    assert Insert([], RECORD) == [RECORD];
    assert Cleaned([RECORD]) == [RECORD] by { assert [RECORD][1..] == []; }
    ReturnedWhenPossible(t);
  }

  lemma {:induction false} WithoutChild(sc: Sched, child: Sched, o: Outcome)
    ensures Apply(Both(sc, child, []), (7, 1), o).scheds - {(7, 1)} == map[(0, 0) := sc]
    ensures Apply(Both(sc, child, []), (7, 1), o).net == o.packages
  {
  }

  lemma {:induction false} Departs(sc: Sched, child: Sched, o: Outcome)
    requires WellFormed(child) && !child.suspended && !child.suspending
    requires SuspensionBegun(child, -1) == o && o.sched.suspended
    ensures Reactivation.Suspended(Both(sc, child, []), (7, 1)) == Sole(sc, o.packages)
  {
    WithoutChild(sc, child, o);
  }

  lemma {:induction false} Suspends(s: State, rank: int, index: nat, s': State)
    requires (rank, index) in s.scheds && WellFormed(s.scheds[(rank, index)])
    requires s' == Reactivation.Suspended(s, (rank, index))
    ensures Next(s, Suspend(rank, index), s')
  {
    assert Safe(s) ==> Step(s, Suspend(rank, index)) == Reactivation.Suspended(s, (rank, index));
  }

  lemma {:induction false} Leaves(sc: Sched, child: Sched)
    requires Reached(5, Both(sc, child, []))
    requires WellFormed(child) && !child.suspended && !child.suspending
    requires var o := SuspensionBegun(child, -1); o.sched.suspended && o.packages == [BACK]
    ensures Reached(6, Sole(sc, [BACK]))
  {
    Departs(sc, child, SuspensionBegun(child, -1));
    Suspends(Both(sc, child, []), 7, 1, Sole(sc, [BACK]));
    Then(5, Both(sc, child, []), Suspend(7, 1), Sole(sc, [BACK]));
  }

  lemma {:induction false} TakesBack()
    ensures var sc := JOINED;
            && WellFormed(sc)
            && var o := ReturnHandled(sc, BACK); o.sched == LEFT && o.packages == []
  {
    assert [RECORD][1..] == [];
    assert Ordered([]) && Insert([], RECORD) == [RECORD];
    assert InsertAll([], [RECORD]) == [RECORD];
    assert Newest([RECORD], RECORD);
    assert KeepNewest([RECORD], [RECORD]) == [RECORD];
    assert NodesReturned(Session([], 1, 2, 1, 7, 0, true), [RECORD]).nodes == [RECORD];
  }

  lemma {:induction false} Returns(sc: Sched, sc': Sched)
    requires Reached(6, Sole(sc, [BACK]))
    requires WellFormed(sc) && sc.index == 0
    requires var o := ReturnHandled(sc, BACK); o.sched == sc' && o.packages == []
    ensures Reached(7, Sole(sc', []))
  {
    assert RemoveAt([BACK], 0) == [];
    Then(6, Sole(sc, [BACK]), Deliver(0), Sole(sc', []));
  }

  lemma {:induction false} Ages()
    ensures var sc := LEFT;
            && WellFormed(sc)
            && var o := RejectionHandled(sc, 3, 1, false, true);
               o.sched == AGED && o.packages == []
  {
    assert [RECORD][1..] == [];
    assert FindPos([RECORD], 7, 1) == 0 && Erase([RECORD], RECORD) == [];
    assert Ordered([]) && Insert([], Node(7, 1, 3, Busy)) == [Node(7, 1, 3, Busy)];
    assert FoundAndUpdated([RECORD], 7, 1, 3, Busy) == [Node(7, 1, 3, Busy)];
  }

  lemma {:induction false} Rejects(tr: seq<State>, evs: seq<Event>, sc: Sched, sc': Sched)
    returns (tr': seq<State>, evs': seq<Event>)
    requires IsRun(tr, evs) && tr[|evs|] == Sole(sc, [])
    requires WellFormed(sc) && sc.index == 0
    requires var o := RejectionHandled(sc, 3, 1, false, true); o.sched == sc' && o.packages == []
    ensures tr' == tr + [Sole(sc', [])] && evs' == evs + [Reject(0, 0, 3, 1, false, true)] && IsRun(tr', evs')
  {
    tr', evs' := Extended(tr, evs, Reject(0, 0, 3, 1, false, true), Sole(sc', []));
  }

  lemma {:induction false} Records()
    ensures Recorded(Sole(LEFT, []), RECORD)
    ensures forall n :: Recorded(Sole(AGED, []), n) && n.rank == 7 ==> n.epoch == 3
    ensures WritesOlder(Sole(LEFT, []), Reject(0, 0, 3, 1, false, true), 7, 5)
  {
    assert RECORD in NodesOf(Sole(LEFT, []).scheds[(0, 0)]);
    assert FindPos([RECORD], 7, 1) == 0;
  }

  lemma {:induction false} Joined()
    ensures Reached(3, Sole(JOINED, [DOWN]))
  {
    Starts();
    Updates();
    Grows(STARTED, GROWN);
    Accepts();
    Joins(GROWN, JOINED);
  }

  lemma {:induction false} Arrived()
    ensures Reached(5, Both(JOINED, CHILD, []))
  {
    Joined();
    Commits(JOINED, [DOWN]);
    Initializes();
    Arrives(JOINED, FRESH, CHILD, DOWN);
  }

  lemma {:induction false} Left()
    ensures Reached(6, Sole(JOINED, [BACK]))
  {
    Arrived();
    Empties();
    Leaves(JOINED, CHILD);
  }

  lemma {:induction false} Returned()
    ensures Reached(7, Sole(LEFT, []))
  {
    Left();
    TakesBack();
    Returns(JOINED, LEFT);
  }

  /**
   A run of eight events after which the child on rank 7, which had returned its record with
   epoch 5, is on record with the epoch of a rejected request, and nothing newer is in flight.
   */
  lemma {:induction false} RejectionCanAge() returns (tr: seq<State>, evs: seq<Event>)
    ensures IsRun(tr, evs) && |evs| == 8
    ensures Recorded(tr[7], RECORD) && WritesOlder(tr[7], evs[7], 7, 5)
    ensures forall n :: Recorded(tr[8], n) && n.rank == 7 ==> n.epoch == 3
  {
    Returned();
    tr, evs :| IsRun(tr, evs) && |evs| == 7 && tr[7] == Sole(LEFT, []);
    Ages();
    tr, evs := Rejects(tr, evs, LEFT, AGED);
    Records();
  }
}
