/** One worker's balancer (EventDrivenBalancer in src/balancing/event_driven_balancer.cpp). */
module Balancers {
  import opened JobEvents
  import opened EventMaps
  import opened BalancerTree
  import opened BalancerProtocol

  /** What a worker sends: to its parent, or to each of its children. */
  datatype Output = Silent | Up(data: Data) | Down(data: Data)

  /** The diffs are handed on. */
  function Flushed(w: Worker, root: bool): (Worker, Output)
  {
    if root then
      var d := w.diffs.(epoch := w.epoch + 1);
      (Digested(w.(diffs := d), d), Down(d))
    else
      (w.(diffs := w.diffs.(list := [])), Up(w.diffs))
  }

  function WithDiffs(w: Worker, d: Data): Worker
  {
    w.(diffs := Update(w.diffs, d))
  }

  /** A message from a child. */
  function AfterReduce(w: Worker, d: Data, ready: bool, root: bool): (Worker, Output)
  {
    if ready then Flushed(WithDiffs(w, d), root) else (WithDiffs(w, d), Silent)
  }

  /** No abort: the root does not meet different events of the same job and epoch in its diffs and its state. */
  predicate Accepts(w: Worker, ready: bool, root: bool)
  {
    ready && root ==> !Conflict(w.diffs.list, UpdatedBy(w.states.list, w.diffs.list))
  }

  function AfterAdvance(w: Worker, ready: bool, root: bool): (Worker, Output)
  {
    if w.diffs.list == [] || !ready then (w, Silent)
    else AfterReduce(w.(diffs := w.diffs.(list := [])), w.diffs, true, root)
  }

  /** A new event makes the worker try to advance. */
  function AfterPush(w: Worker, ev: Event, ready: bool, root: bool): (Worker, Output)
  {
    if IsNews(w.diffs.list, ev) then
      AfterAdvance(w.(diffs := w.diffs.(list := Inserted(w.diffs.list, ev))), ready, root)
    else
      (w, Silent)
  }

  /** The worker's step in the state of all workers. */
  ghost function Emitted(n: nat, s: State, r: nat, step: (Worker, Output)): State
    requires Sized(n, s) && r < n
  {
    var s1 := s.(workers := s.workers[r := step.0]);
    match step.1
    case Silent => s1
    case Up(d) => s1.(ups := s.ups[r := s.ups[r] + [d]])
    case Down(d) => s1.(downs := Forwarded(n, s.downs, r, d), logs := s.logs[r := s.logs[r] + [d]])
  }

  lemma {:induction false} SentIsEmitted(n: nat, s: State, r: nat)
    requires Sized(n, s) && r < n
    ensures Sent(n, s, r) == Emitted(n, s, r, Flushed(s.workers[r], r == 0))
  {
  }

  /** The other steps of the protocol are those of the objects. */
  lemma {:induction false} StepsAreWorkerSteps(n: nat, s: State, step: Step)
    requires Sized(n, s) && Enabled(n, s, step)
    ensures step.Advance? ==>
      Taken(n, s, step) == Emitted(n, s, step.rank, AfterAdvance(s.workers[step.rank], true, step.rank == 0))
    ensures step.DeliverUp? ==>
      var c, r := step.child, ParentOf(step.child);
      Taken(n, s, step) ==
      Emitted(n, s.(ups := s.ups[c := s.ups[c][1..]]), r, AfterReduce(s.workers[r], s.ups[c][0], step.ready, r == 0))
    ensures step.DeliverDown? ==>
      var r := step.rank;
      Taken(n, s, step) ==
      Emitted(n, s.(downs := s.downs[r := s.downs[r][1..]]), r,
        (Digested(s.workers[r], s.downs[r][0]), Down(s.downs[r][0])))
  {
    match step
    case Push(r, ev) =>
    case Advance(r) =>
      var w := s.workers[r];
      var cleared := s.(workers := s.workers[r := w.(diffs := w.diffs.(list := []))]);
      var s1 := Reduced(n, cleared, r, w.diffs);
      SentIsEmitted(n, s1, r);
      var next := Flushed(s1.workers[r], r == 0).0;
      assert s1.workers[r := next] == s.workers[r := next];
    case DeliverUp(c, ready) =>
      var r := ParentOf(c);
      var s1 := Reduced(n, s.(ups := s.ups[c := s.ups[c][1..]]), r, s.ups[c][0]);
      SentIsEmitted(n, s1, r);
      var next := Flushed(s1.workers[r], r == 0).0;
      assert s1.workers[r := next] == s.workers[r := next];
    case DeliverDown(r) =>
  }

  /**
   Pushing an event at a worker is the protocol's push, followed by its advance if the event is novel and the
   worker ready.
   */
  lemma {:induction false} PushIsWorkerStep(n: nat, s: State, r: nat, ev: Event, ready: bool)
    requires Sized(n, s) && r < n
    ensures var s1 := Taken(n, s, Push(r, ev));
      && (IsNews(s.workers[r].diffs.list, ev) ==> Enabled(n, s1, Advance(r)))
      && (!IsNews(s.workers[r].diffs.list, ev) ==> s1 == s)
      && Emitted(n, s, r, AfterPush(s.workers[r], ev, ready, r == 0))
         == if IsNews(s.workers[r].diffs.list, ev) && ready then Taken(n, s1, Advance(r)) else s1
  {
    var w, s1 := s.workers[r], Taken(n, s, Push(r, ev));
    if IsNews(w.diffs.list, ev) {
      var w1 := s1.workers[r];
      assert w1.diffs.list != [];
      var step := AfterAdvance(w1, ready, r == 0);
      if ready { StepsAreWorkerSteps(n, s1, Advance(r)); }
      assert s1.workers[r := step.0] == s.workers[r := step.0];
    } else {
      assert s.workers[r := w] == s.workers;
    }
  }

  class Balancer {
    const rank: nat
    const size: nat
    const parent: nat
    const children: seq<nat>
    const diffs: EventMap
    const states: EventMap
    var epoch: nat

    ghost predicate Valid()
      reads this, diffs, states
    {
      && diffs != states && diffs.Valid() && states.Valid()
      && rank < size && parent == (if rank == 0 then 0 else ParentOf(rank))
      && (forall c :: c in children <==> 0 < c < size && ParentOf(c) == rank)
      && (forall i, k :: 0 <= i < k < |children| ==> children[i] > children[k])
    }

    ghost function View(): Worker
      reads this, diffs, states
    {
      Worker(Data(diffs.list, diffs.globalEpoch), Data(states.list, states.globalEpoch), epoch)
    }

    constructor (size: nat, rank: nat)
      requires rank < size
      ensures Valid() && fresh(diffs) && fresh(states) && this.size == size && this.rank == rank
      ensures View() == Worker(Data([], 0), Data([], 0), 0)
    {
      this.size, this.rank, epoch := size, rank, 0;
      var p := FindParent(rank);
      var cs := FindChildren(size, rank);
      parent, children := p, cs;
      diffs := new EventMap();
      states := new EventMap();
    }

    method Digest(data: EventMap) returns (ok: bool)
      requires Valid() && data.Valid() && data != states
      modifies this, diffs, states
      ensures Valid() && (ok <==> !Conflict(old(diffs.list), UpdatedBy(old(states.list), old(data.list))))
      ensures ok ==> View() == Digested(old(View()), Data(old(data.list), old(data.globalEpoch)))
      ensures data != diffs ==> unchanged(data)
    {
      var _ := states.UpdateBy(data);
      epoch := data.globalEpoch;
      ok := diffs.FilterBy(states);
      if !ok { return; }
      states.RemoveOldZeros();
    }

    /** The messages to the children, in the order in which they are sent. */
    method HandleBroadcast(data: EventMap) returns (ok: bool, sent: seq<(nat, Data)>)
      requires Valid() && data.Valid() && data != states
      modifies this, diffs, states
      ensures Valid() && (ok <==> !Conflict(old(diffs.list), UpdatedBy(old(states.list), old(data.list))))
      ensures ok ==> View() == Digested(old(View()), Data(old(data.list), old(data.globalEpoch)))
      ensures data != diffs ==> unchanged(data)
      ensures |sent| == |children|
      ensures forall i :: 0 <= i < |sent| ==> sent[i] == (children[i], Data(old(data.list), old(data.globalEpoch)))
    {
      sent := [];
      var packed := Data(data.list, data.globalEpoch);
      for i := 0 to |children|
        invariant |sent| == i && forall k :: 0 <= k < i ==> sent[k] == (children[k], packed)
      {
        sent := sent + [(children[i], packed)];
      }
      ok := Digest(data);
    }

    ghost predicate Sends(out: Output, sent: seq<(nat, Data)>)
      reads this
    {
      match out
      case Silent => sent == []
      case Up(d) => sent == [(parent, d)]
      case Down(d) => |sent| == |children| && forall i :: 0 <= i < |sent| ==> sent[i] == (children[i], d)
    }

    method HandleReduce(data: EventMap, ready: bool) returns (ok: bool, sent: seq<(nat, Data)>)
      requires Valid() && data.Valid() && data != diffs && data != states
      modifies this, diffs, states
      ensures Valid() && unchanged(data)
      ensures var next := AfterReduce(old(View()), Data(data.list, data.globalEpoch), ready, rank == 0);
        ok ==> View() == next.0 && Sends(next.1, sent)
      ensures ok <==> Accepts(WithDiffs(old(View()), Data(data.list, data.globalEpoch)), ready, rank == 0)
    {
      var _ := diffs.UpdateBy(data);
      ok, sent := true, [];
      if ready {
        if rank == 0 {
          diffs.globalEpoch := epoch + 1;
          ok, sent := HandleBroadcast(diffs);
        } else {
          sent := [(parent, Data(diffs.list, diffs.globalEpoch))];
          diffs.list := [];
        }
      }
    }

    method Advance(ready: bool) returns (ok: bool, sent: seq<(nat, Data)>)
      requires Valid()
      modifies this, diffs, states
      ensures Valid()
      ensures var next := AfterAdvance(old(View()), ready, rank == 0); ok ==> View() == next.0 && Sends(next.1, sent)
      ensures rank != 0 || !ready ==> ok
    {
      ok, sent := true, [];
      if diffs.list == [] || !ready { return; }
      var m := new EventMap();
      m.list, m.globalEpoch := diffs.list, diffs.globalEpoch;
      diffs.list := [];
      ok, sent := HandleReduce(m, true);
    }

    method PushEvent(ev: Event, ready: bool) returns (ok: bool, sent: seq<(nat, Data)>)
      requires Valid()
      modifies this, diffs, states
      ensures Valid()
      ensures var next := AfterPush(old(View()), ev, ready, rank == 0); ok ==> View() == next.0 && Sends(next.1, sent)
      ensures rank != 0 || !ready ==> ok
    {
      ok, sent := true, [];
      var inserted := diffs.InsertIfNovel(ev);
      if inserted {
        ok, sent := Advance(ready);
      }
    }
  }

  // ---------------------------------------------------------------------
  // Runs do not abort
  // ---------------------------------------------------------------------

  /** Events of the same job and epoch are equal. */
  ghost predicate Unambiguous(es: set<Event>)
  {
    forall x, y :: x in es && y in es && x.jobId == y.jobId && x.epoch == y.epoch ==> x == y
  }

  lemma {:induction false} NoConflict(a: seq<Event>, b: seq<Event>, es: set<Event>)
    requires Genuine(a, es) && Genuine(b, es) && Unambiguous(es)
    ensures !Conflict(a, b)
  {
    forall k | 0 <= k < |a| ensures !InConflict(a[k], b) {
      if Find(b, a[k].jobId).Some? { var i := FoundAt(b, a[k].jobId); }
    }
  }

  /** If the pushed events are unambiguous, no worker ever aborts in a digest, whatever it digests next. */
  lemma {:induction false} NeverAborts(n: nat, tr: seq<State>, steps: seq<Step>, k: nat, r: nat, d: Data)
    requires IsRun(n, tr, steps) && k <= |steps| && r < n && Unambiguous(Events(steps)) &&
      Genuine(d.list, Events(steps))
    ensures Sized(n, tr[k])
    ensures var w := tr[k].workers[r]; !Conflict(w.diffs.list, UpdatedBy(w.states.list, d.list))
    ensures var w := WithDiffs(tr[k].workers[r], d); Accepts(w, true, true)
  {
    var es, s := Events(steps), tr[k];
    RunKeepsLogs(n, tr, steps, k);
    RunLists(n, tr, steps, k);
    assert LogOk(n, s, r) && WorkerGenuine(n, s, es, r);
    LogsArePrefixes(n, s, r);
    assert forall i {:trigger s.logs[r][i]} :: 0 <= i < |s.logs[r]| ==> s.logs[r][i] == s.logs[0][i];
    var _ := KnownWasBroadcast(s.logs[r], es, 0, 0);
    var w := s.workers[r];
    var l := UpdatedBy(w.diffs.list, d.list);
    UpdatedGenuine(w.diffs.list, d.list, es);
    UpdatedGenuine(w.states.list, d.list, es);
    UpdatedGenuine(w.states.list, l, es);
    NoConflict(w.diffs.list, UpdatedBy(w.states.list, d.list), es);
    NoConflict(l, UpdatedBy(w.states.list, l), es);
  }
}
