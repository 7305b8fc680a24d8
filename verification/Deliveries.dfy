/** How many packages can still be delivered: each child which joins causes no more than three deliveries. */
module Deliveries {
  import opened LocalScheduling
  import opened Reactivation
  import opened Conservation
  import T = PackageTokens

  /** A package to a child may still open a scheduler there, which may return a package. */
  function Weight(p: Package): nat
  {
    if p.tag == InitializeChild then 3 else 1
  }

  function NetWeight(net: seq<Package>): nat
  {
    if net == [] then 0 else NetWeight(net[..|net| - 1]) + Weight(net[|net| - 1])
  }

  /** The schedulers which have yet to return a package. */
  ghost function ActiveInner(scheds: map<Key, Sched>): set<Key>
  {
    set k | k in scheds && k.1 > 0 && !scheds[k].suspended
  }

  ghost function Pending(s: State): nat
  {
    NetWeight(s.net) + 2 * |ActiveInner(s.scheds)|
  }

  lemma {:induction false} WeightAppend(a: seq<Package>, b: seq<Package>)
    ensures NetWeight(a + b) == NetWeight(a) + NetWeight(b)
  {
    if b == [] {
      assert a + b == a;
    } else {
      var m := |b| - 1;
      WeightAppend(a, b[..m]);
      assert (a + b)[..|a + b| - 1] == a + b[..m];
    }
  }

  lemma {:induction false} WeightRemove(net: seq<Package>, pos: nat)
    requires pos < |net|
    ensures NetWeight(RemoveAt(net, pos)) == NetWeight(net) - Weight(net[pos])
  {
    WeightAppend(net[..pos], net[pos..]);
    WeightAppend([net[pos]], net[pos + 1..]);
    WeightAppend(net[..pos], net[pos + 1..]);
    assert net[pos..] == [net[pos]] + net[pos + 1..] && net[..pos] + net[pos..] == net;
    WeightOne(net[pos]);
  }

  lemma {:induction false} WeightOne(p: Package)
    ensures NetWeight([p]) == Weight(p)
  {
    assert [p][..0] == [];
  }

  function Share(k: Key, sc: Sched): nat
  {
    if k.1 > 0 && !sc.suspended then 2 else 0
  }

  lemma {:induction false} InnerAfter(scheds: map<Key, Sched>, k: Key, sc: Sched)
    ensures 2 * |ActiveInner(scheds[k := sc])|
         == 2 * |ActiveInner(scheds)| + Share(k, sc) - if k in scheds then Share(k, scheds[k]) else 0
  {
    var a, b := ActiveInner(scheds), ActiveInner(scheds[k := sc]);
    if k in a && k !in b {
      assert a == b + {k};
    } else if k !in a && k in b {
      assert b == a + {k};
    } else {
      assert a == b;
    }
  }

  lemma {:induction false} AppliedPending(s: State, k: Key, o: Outcome)
    ensures Pending(Apply(s, k, o)) == Pending(s) + NetWeight(o.packages) + Share(k, o.sched)
      - if k in s.scheds then Share(k, s.scheds[k]) else 0
  {
    WeightAppend(s.net, o.packages);
    InnerAfter(s.scheds, k, o.sched);
  }

  /** Returning its package, a scheduler gives up more than it sends. */
  lemma {:induction false} EitherPending(s: State, k: Key, o: Outcome)
    requires k in s.scheds && SchedSane(k, s.scheds[k]) && (Quiet(s.scheds[k], o) || Returns(s.scheds[k], o))
    ensures Pending(Apply(s, k, o)) <= Pending(s)
  {
    AppliedPending(s, k, o);
    if Returns(s.scheds[k], o) {
      assert o.packages == [o.packages[0]];
      WeightOne(o.packages[0]);
    }
  }

  lemma {:induction false} ErasedPending(s: State, k: Key)
    requires k in s.scheds && s.scheds[k].suspended
    ensures Pending(s.(scheds := s.scheds - {k})) == Pending(s)
  {
    assert ActiveInner(s.scheds - {k}) == ActiveInner(s.scheds);
  }

  lemma {:induction false} SuspendPending(s: State, k: Key)
    requires k in s.scheds && SchedSane(k, s.scheds[k])
    ensures Pending(Suspended(s, k)) <= Pending(s)
  {
    var sc := s.scheds[k];
    var s' := s;
    if !sc.suspended && !sc.suspending {
      SuspensionEffect(sc, -1);
      EitherPending(s, k, SuspensionBegun(sc, -1));
      s' := Apply(s, k, SuspensionBegun(sc, -1));
    }
    if k.1 > 0 && s'.scheds[k].suspended { ErasedPending(s', k); }
  }

  lemma {:induction false} JoinPending(s: State, k: Key, source: int, epoch: int, child: nat)
    requires k in s.scheds && SchedSane(k, s.scheds[k]) && AcceptsChild(s.scheds[k], child)
    ensures Pending(Apply(s, k, JoiningHandled(s.scheds[k], source, epoch, child))) == Pending(s) + 3
  {
    var o := JoiningHandled(s.scheds[k], source, epoch, child);
    JoinEffect(s.scheds[k], source, epoch, child);
    AppliedPending(s, k, o);
    assert o.packages == [o.packages[0]];
    WeightOne(o.packages[0]);
  }

  lemma {:induction false} InitPending(s: State, tok: map<nat, T.Token>, pos: nat)
    requires Inv(s, tok) && Safe(s) && pos < |s.net| && s.net[pos].tag == InitializeChild
    ensures Pending(Step(s, Deliver(pos))) < Pending(s)
  {
    var p, u := s.net[pos], s.(net := RemoveAt(s.net, pos));
    var k := (p.dst, p.destIndex);
    WeightRemove(s.net, pos);
    if k in s.scheds {
      assert SchedSane(k, s.scheds[k]);
      InitEffect(s.scheds[k], p);
      var o := InitHandled(s.scheds[k], p);
      AppliedPending(u, k, o);
      if o.packages != [] {
        assert o.packages == [o.packages[0]];
        WeightOne(o.packages[0]);
      }
    } else {
      var b := p.(tag := ReturnNodes, src := p.dst, dst := p.src, destIndex := ParentIndex(p.destIndex));
      WeightAppend(u.net, [b]);
      WeightOne(b);
    }
  }

  lemma {:induction false} ReturnPending(s: State, tok: map<nat, T.Token>, pos: nat)
    requires Inv(s, tok) && Safe(s) && pos < |s.net| && s.net[pos].tag == ReturnNodes
    ensures Pending(Step(s, Deliver(pos))) < Pending(s)
  {
    ReturnFindsSession(s, tok, pos);
    ReturnMergedKeeps(s, tok, pos);
    var p := s.net[pos];
    var k := (p.dst, p.destIndex);
    ReturnEffect(s.scheds[k], p);
    ReturnStepForm(s, pos);
    var u := ReturnMerged(s, pos);
    WeightRemove(s.net, pos);
    InnerAfter(s.scheds, k, u.scheds[k]);
    assert SchedSane(k, u.scheds[k]);
    EitherPending(u, k, ReturnHandled(s.scheds[k], p));
  }

  function Added(ev: Event): int
  {
    (if ev.Join? then 3 else 0) - if ev.Deliver? then 1 else 0
  }

  lemma {:induction false} RootPending(s: State, tok: map<nat, T.Token>, ev: Event)
    requires Inv(s, tok) && Safe(s) && Enabled(s, ev) && (ev.RootStart? || ev.RootResume?)
    ensures Pending(Step(s, ev)) <= Pending(s)
  {
    var k := (s.root, 0);
    assert k in s.scheds ==> SchedSane(k, s.scheds[k]);
    match ev
    case RootStart(epoch, client) =>
      var sc := if k in s.scheds then s.scheds[k] else NewScheduler(s.root, 0, client);
      var e := if epoch < 0 then 0 else epoch;
      OpenedForm(sc, e, -1, [], client);
      AppliedPending(s, k, Initialized(sc, e, -1, [], client));
    case RootResume =>
      ResumptionEffect(s.scheds[k]);
      EitherPending(s, k, ResumptionBegun(s.scheds[k]));
  }

  lemma {:induction false} LocalPending(s: State, tok: map<nat, T.Token>, ev: Event)
    requires Inv(s, tok) && Safe(s) && Enabled(s, ev) && (ev.Reject? || ev.Balance? || ev.Suspend?)
    ensures Pending(Step(s, ev)) <= Pending(s)
  {
    var k := (ev.rank, ev.index);
    assert SchedSane(k, s.scheds[k]);
    match ev
    case Reject(rank, index, epoch, child, lost, hasChild) =>
      RejectionEffect(s.scheds[k], epoch, child, lost, hasChild);
      EitherPending(s, k, RejectionHandled(s.scheds[k], epoch, child, lost, hasChild));
    case Balance(rank, index, epoch, volume, hasLeft, hasRight) =>
      UpdateEffect(s.scheds[k], epoch, volume, hasLeft, hasRight);
      EitherPending(s, k, Updated(s.scheds[k], epoch, volume, hasLeft, hasRight));
    case Suspend(rank, index) =>
      SuspendPending(s, k);
  }

  lemma {:induction false} SilentPending(s: State, tok: map<nat, T.Token>, ev: Event)
    requires Inv(s, tok) && Safe(s) && Enabled(s, ev) && (ev.Commit? || ev.Forget? || ev.Freed?)
    ensures Pending(Step(s, ev)) <= Pending(s)
  {
    var k := (ev.rank, ev.index);
    match ev
    case Commit(rank, index, parentRank) =>
      var sc := if k in s.scheds then s.scheds[k] else NewScheduler(rank, index, parentRank);
      InnerAfter(s.scheds, k, RoleReset(sc));
    case Forget(rank, index) =>
      ErasedPending(s, k);
    case Freed(rank, index, freedRank, epoch) =>
      InnerAfter(s.scheds, k, NodeFreed(s.scheds[k], freedRank, epoch, index));
  }

  /** Only a joining child adds to what is pending, and each delivery takes from it. */
  lemma {:induction false} StepPending(s: State, tok: map<nat, T.Token>, ev: Event)
    requires Inv(s, tok) && Safe(s) && Enabled(s, ev)
    ensures Pending(Step(s, ev)) <= Pending(s) + Added(ev)
  {
    match ev
    case RootStart(_, _) =>
      RootPending(s, tok, ev);
    case RootResume =>
      RootPending(s, tok, ev);
    case Commit(_, _, _) =>
      SilentPending(s, tok, ev);
    case Join(rank, index, source, epoch, child) =>
      assert SchedSane((rank, index), s.scheds[(rank, index)]);
      JoinPending(s, (rank, index), source, epoch, child);
    case Reject(_, _, _, _, _, _) =>
      LocalPending(s, tok, ev);
    case Balance(_, _, _, _, _, _) =>
      LocalPending(s, tok, ev);
    case Suspend(_, _) =>
      LocalPending(s, tok, ev);
    case Forget(_, _) =>
      SilentPending(s, tok, ev);
    case Freed(_, _, _, _) =>
      SilentPending(s, tok, ev);
    case Deliver(pos) =>
      if s.net[pos].tag == InitializeChild { InitPending(s, tok, pos); } else { ReturnPending(s, tok, pos); }
  }

  /** The number of events between two points of a run which are deliveries, and of those which are joins. */
  function Delivered(evs: seq<Event>, i: nat, j: nat): nat
    requires i <= j <= |evs|
  {
    if i == j then 0 else Delivered(evs, i, j - 1) + if evs[j - 1].Deliver? then 1 else 0
  }

  function Joined(evs: seq<Event>, i: nat, j: nat): nat
    requires i <= j <= |evs|
  {
    if i == j then 0 else Joined(evs, i, j - 1) + if evs[j - 1].Join? then 1 else 0
  }

  lemma {:induction false} RunStepPending(tr: seq<State>, evs: seq<Event>, t: nat, u: nat)
    requires IsRun(tr, evs) && u == t + 1 <= |evs|
    ensures Pending(tr[u]) <= Pending(tr[t]) + Added(evs[t])
  {
    var tok := RunIsSafe(tr, evs, t);
    var ev, s' := evs[t], tr[u];
    StepPending(tr[t], tok, ev);
    assert s' == Step(tr[t], ev);
  }

  lemma {:induction false} Telescope(w: seq<nat>, evs: seq<Event>, i: nat, j: nat)
    requires i <= j <= |evs| < |w| && forall t {:trigger evs[t]} :: i <= t < j ==> w[t + 1] <= w[t] + Added(evs[t])
    ensures Delivered(evs, i, j) + w[j] <= w[i] + 3 * Joined(evs, i, j)
    decreases j
  {
    if i < j {
      var q := j - 1;
      Telescope(w, evs, i, q);
      assert w[q + 1] <= w[q] + Added(evs[q]);
    }
  }

  /**
   From any point of a run to any later one, there are no more deliveries than are pending at first, and
   three for each child which joins in between.
   */
  lemma {:induction false} DeliveriesEnd(tr: seq<State>, evs: seq<Event>, i: nat, j: nat)
    requires IsRun(tr, evs) && i <= j < |tr|
    ensures Delivered(evs, i, j) + Pending(tr[j]) <= Pending(tr[i]) + 3 * Joined(evs, i, j)
  {
    var w := seq(|tr|, t requires 0 <= t < |tr| => Pending(tr[t]));
    forall t | i <= t < j ensures w[t + 1] <= w[t] + Added(evs[t]) {
      var u := t + 1;
      RunStepPending(tr, evs, t, u);
    }
    Telescope(w, evs, i, j);
  }

  /** In particular, a run has at most three deliveries for each child which joins. */
  lemma {:induction false} ThreePerJoin(tr: seq<State>, evs: seq<Event>)
    requires IsRun(tr, evs)
    ensures Delivered(evs, 0, |evs|) <= 3 * Joined(evs, 0, |evs|)
  {
    DeliveriesEnd(tr, evs, 0, |evs|);
    assert ActiveInner(tr[0].scheds) == {};
  }

  lemma {:induction false} NothingPending(s: State)
    requires Pending(s) == 0
    ensures s.net == [] && forall k :: k in s.scheds && k.1 > 0 ==> s.scheds[k].suspended
  {
    forall k | k in s.scheds && k.1 > 0 ensures s.scheds[k].suspended {
      assert k !in ActiveInner(s.scheds);
    }
  }

  /** And if no child joins, everything has been returned after as many deliveries as are pending. */
  lemma {:induction false} AllReturned(tr: seq<State>, evs: seq<Event>, i: nat, j: nat)
    requires IsRun(tr, evs) && i <= j < |tr| && Joined(evs, i, j) == 0 && Delivered(evs, i, j) >= Pending(tr[i])
    ensures tr[j].net == [] && forall k :: k in tr[j].scheds && k.1 > 0 ==> tr[j].scheds[k].suspended
  {
    DeliveriesEnd(tr, evs, i, j);
    NothingPending(tr[j]);
  }
}
