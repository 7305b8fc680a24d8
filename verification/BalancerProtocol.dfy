/**
 The balancer's protocol: events are reduced to the root and broadcast from there (pushEvent, advance,
 handleData and digest in src/balancing/event_driven_balancer.cpp). Channels are FIFO; the timer of the
 periodic balancing is arbitrary.
 */
module BalancerProtocol {
  import opened Options
  import opened JobEvents
  import opened EventMaps
  import opened BalancerTree

  datatype Data = Data(list: seq<Event>, epoch: nat)

  datatype Worker = Worker(diffs: Data, states: Data, epoch: nat)

  function Max(a: nat, b: nat): nat
  {
    if a < b then b else a
  }

  function Update(a: Data, b: Data): Data
  {
    Data(UpdatedBy(a.list, b.list), Max(a.epoch, b.epoch))
  }

  /** digest */
  function Digested(w: Worker, d: Data): Worker
  {
    var states := Update(w.states, d);
    Worker(Data(FilteredBy(w.diffs.list, states.list), Max(w.diffs.epoch, states.epoch)),
           Data(WithoutOldZeros(states.list), states.epoch), d.epoch)
  }

  // ---------------------------------------------------------------------
  // All workers together
  // ---------------------------------------------------------------------

  /**
   ups[r] are the messages from r to its parent, downs[r] those from r's parent to r. The history variable
   logs holds the broadcasts which each worker has digested.
   */
  datatype State = State(workers: seq<Worker>, ups: seq<seq<Data>>, downs: seq<seq<Data>>, logs: seq<seq<Data>>)

  datatype Step =
    | Push(rank: nat, ev: Event)
    | Advance(rank: nat)
    | DeliverUp(child: nat, ready: bool)
    | DeliverDown(rank: nat)

  predicate Sized(n: nat, s: State)
  {
    n >= 1 && |s.workers| == n && |s.ups| == n && |s.downs| == n && |s.logs| == n
  }

  /** Every child of r gets a copy. */
  ghost function Forwarded(n: nat, downs: seq<seq<Data>>, r: nat, d: Data): (downs': seq<seq<Data>>)
    requires |downs| == n
    ensures |downs'| == n
    ensures forall c {:trigger downs'[c]} :: 0 <= c < n ==>
      downs'[c] == if c > 0 && ParentOf(c) == r then downs[c] + [d] else downs[c]
  {
    seq(n, c requires 0 <= c < n => if c > 0 && ParentOf(c) == r then downs[c] + [d] else downs[c])
  }

  /** Forward a broadcast to the children, then digest it. */
  ghost function Broadcast(n: nat, s: State, r: nat, d: Data): State
    requires Sized(n, s) && r < n
  {
    s.(downs := Forwarded(n, s.downs, r, d), workers := s.workers[r := Digested(s.workers[r], d)],
       logs := s.logs[r := s.logs[r] + [d]])
  }

  /** The diffs are complete: the root starts a broadcast, any other worker sends them to its parent. */
  ghost function Sent(n: nat, s: State, r: nat): State
    requires Sized(n, s) && r < n
  {
    var w := s.workers[r];
    if r == 0 then
      var d := w.diffs.(epoch := w.epoch + 1);
      Broadcast(n, s.(workers := s.workers[0 := w.(diffs := d)]), 0, d)
    else
      s.(ups := s.ups[r := s.ups[r] + [w.diffs]], workers := s.workers[r := w.(diffs := w.diffs.(list := []))])
  }

  ghost predicate Enabled(n: nat, s: State, step: Step)
    requires Sized(n, s)
  {
    match step
    case Push(r, _) => r < n
    case Advance(r) => r < n && s.workers[r].diffs.list != []
    case DeliverUp(c, _) => 0 < c < n && s.ups[c] != []
    case DeliverDown(r) => 0 < r < n && s.downs[r] != []
  }

  /** The diffs of r take in a message. */
  ghost function Reduced(n: nat, s: State, r: nat, d: Data): State
    requires Sized(n, s) && r < n
  {
    var w := s.workers[r];
    s.(workers := s.workers[r := w.(diffs := Update(w.diffs, d))])
  }

  ghost function Taken(n: nat, s: State, step: Step): (s': State)
    requires Sized(n, s) && Enabled(n, s, step)
    ensures Sized(n, s')
  {
    match step
    case Push(r, ev) =>
      var w := s.workers[r];
      s.(workers := s.workers[r := w.(diffs := w.diffs.(list := Inserted(w.diffs.list, ev)))])
    case Advance(r) =>
      var w := s.workers[r];
      var cleared := s.(workers := s.workers[r := w.(diffs := w.diffs.(list := []))]);
      Sent(n, Reduced(n, cleared, r, w.diffs), r)
    case DeliverUp(c, ready) =>
      var r := ParentOf(c);
      var s1 := Reduced(n, s.(ups := s.ups[c := s.ups[c][1..]]), r, s.ups[c][0]);
      if ready then Sent(n, s1, r) else s1
    case DeliverDown(r) =>
      Broadcast(n, s.(downs := s.downs[r := s.downs[r][1..]]), r, s.downs[r][0])
  }

  ghost predicate Initial(n: nat, s: State)
  {
    var w := Worker(Data([], 0), Data([], 0), 0);
    Sized(n, s) && forall r {:trigger s.workers[r]} {:trigger s.logs[r]} {:trigger s.ups[r]} {:trigger s.downs[r]} ::
      0 <= r < n ==> s.workers[r] == w && s.ups[r] == [] && s.downs[r] == [] && s.logs[r] == []
  }

  // ---------------------------------------------------------------------
  // Workers which have digested as many broadcasts have the same state
  // ---------------------------------------------------------------------

  /** The state after a number of broadcasts. */
  function StateAfter(log: seq<Data>): Data
  {
    if log == [] then Data([], 0)
    else
      var s := Update(StateAfter(log[..|log| - 1]), log[|log| - 1]);
      Data(WithoutOldZeros(s.list), s.epoch)
  }

  ghost predicate LogOk(n: nat, s: State, r: nat)
    requires Sized(n, s) && r < n
  {
    && s.workers[r].states == StateAfter(s.logs[r]) && s.workers[r].epoch == |s.logs[r]|
    && (r > 0 ==> s.logs[r] + s.downs[r] == s.logs[ParentOf(r)])
  }

  ghost predicate EpochsOk(log: seq<Data>)
  {
    forall k {:trigger log[k]} :: 0 <= k < |log| ==> log[k].epoch == k + 1
  }

  ghost predicate LogInv(n: nat, s: State)
  {
    Sized(n, s) && EpochsOk(s.logs[0]) && forall r {:trigger LogOk(n, s, r)} :: 0 <= r < n ==> LogOk(n, s, r)
  }

  /** Steps which do not change any log. */
  lemma {:induction false} QuietKeepsLogs(n: nat, s: State, s': State)
    requires LogInv(n, s) && Sized(n, s') && s'.logs == s.logs && s'.downs == s.downs
    requires forall r {:trigger s'.workers[r]} :: 0 <= r < n ==>
      s'.workers[r].states == s.workers[r].states && s'.workers[r].epoch == s.workers[r].epoch
    ensures LogInv(n, s')
  {
    forall r | 0 <= r < n ensures LogOk(n, s', r) {
      assert LogOk(n, s, r);
    }
  }

  lemma {:induction false} Appended(log: seq<Data>, d: Data)
    ensures var s := Update(StateAfter(log), d); StateAfter(log + [d]) == Data(WithoutOldZeros(s.list), s.epoch)
  {
    assert (log + [d])[..|log|] == log;
  }

  /** A broadcast is digested: it is the next one of the parent's log, or a new one of the root. */
  lemma {:induction false} BroadcastKeepsLogs(n: nat, s: State, r: nat, d: Data, downs: seq<Data>)
    requires Sized(n, s) && r < n && d.epoch == |s.logs[r]| + 1
    requires r > 0 ==> s.downs[r] == downs && LogInv(n, s.(downs := s.downs[r := [d] + downs]))
    requires r == 0 ==> LogInv(n, s)
    ensures LogInv(n, Broadcast(n, s, r, d))
  {
    var s' := Broadcast(n, s, r, d);
    var before := if r > 0 then s.(downs := s.downs[r := [d] + downs]) else s;
    Appended(s.logs[r], d);
    forall q | 0 <= q < n ensures LogOk(n, s', q) {
      assert LogOk(n, before, q);
      if q == r && r > 0 {
        assert s.logs[r] + [d] + downs == s.logs[r] + ([d] + downs);
      }
      if q > 0 && ParentOf(q) == r {
        assert s.logs[q] + (s.downs[q] + [d]) == s.logs[q] + s.downs[q] + [d];
      }
    }
  }

  lemma {:induction false} LogsArePrefixes(n: nat, s: State, r: nat)
    requires LogInv(n, s) && r < n
    ensures |s.logs[r]| <= |s.logs[0]| && s.logs[0][..|s.logs[r]|] == s.logs[r]
  {
    if r > 0 {
      assert LogOk(n, s, r);
      var q := ParentOf(r);
      LogsArePrefixes(n, s, q);
      assert s.logs[q][..|s.logs[r]|] == s.logs[r];
      assert s.logs[0][..|s.logs[q]|][..|s.logs[r]|] == s.logs[0][..|s.logs[r]|];
    }
  }

  lemma {:induction false} SentKeepsLogs(n: nat, s: State, r: nat)
    requires LogInv(n, s) && r < n
    ensures LogInv(n, Sent(n, s, r))
  {
    assert LogOk(n, s, r);
    var w := s.workers[r];
    if r == 0 {
      var d := w.diffs.(epoch := w.epoch + 1);
      var s1 := s.(workers := s.workers[0 := w.(diffs := d)]);
      QuietKeepsLogs(n, s, s1);
      BroadcastKeepsLogs(n, s1, 0, d, []);
    } else {
      QuietKeepsLogs(n, s, Sent(n, s, r));
    }
  }

  lemma {:induction false} StepKeepsLogs(n: nat, s: State, step: Step)
    requires LogInv(n, s) && Enabled(n, s, step)
    ensures LogInv(n, Taken(n, s, step))
  {
    match step
    case Push(r, ev) => QuietKeepsLogs(n, s, Taken(n, s, step));
    case Advance(r) =>
      var w := s.workers[r];
      var cleared := s.(workers := s.workers[r := w.(diffs := w.diffs.(list := []))]);
      var s1 := Reduced(n, cleared, r, w.diffs);
      QuietKeepsLogs(n, s, s1);
      SentKeepsLogs(n, s1, r);
    case DeliverUp(c, ready) =>
      var r := ParentOf(c);
      var s1 := Reduced(n, s.(ups := s.ups[c := s.ups[c][1..]]), r, s.ups[c][0]);
      QuietKeepsLogs(n, s, s1);
      SentKeepsLogs(n, s1, r);
    case DeliverDown(r) =>
      DeliverDownKeepsLogs(n, s, r);
  }

  lemma {:induction false} DeliverDownKeepsLogs(n: nat, s: State, r: nat)
    requires LogInv(n, s) && Enabled(n, s, DeliverDown(r))
    ensures LogInv(n, Taken(n, s, DeliverDown(r)))
  {
    assert LogOk(n, s, r);
    var d, rest := s.downs[r][0], s.downs[r][1..];
    var s1 := s.(downs := s.downs[r := rest]);
    assert s.downs[r] == [d] + rest;
    assert s1.downs[r := [d] + rest] == s.downs;
    LogsArePrefixes(n, s, ParentOf(r));
    var k := |s.logs[r]|;
    assert s.logs[ParentOf(r)][k] == d == s.logs[0][k];
    BroadcastKeepsLogs(n, s1, r, d, rest);
  }

  /** A run from an initial state: one step leads from each state to the next. */
  ghost predicate IsRun(n: nat, tr: seq<State>, steps: seq<Step>)
  {
    && |tr| == |steps| + 1 && Initial(n, tr[0])
    && forall k {:trigger steps[k]} :: 0 <= k < |steps| ==>
      Sized(n, tr[k]) && Enabled(n, tr[k], steps[k]) && tr[k + 1] == Taken(n, tr[k], steps[k])
  }

  lemma {:induction false} RunKeepsLogs(n: nat, tr: seq<State>, steps: seq<Step>, k: nat)
    requires IsRun(n, tr, steps) && k <= |steps|
    ensures LogInv(n, tr[k])
  {
    if k == 0 {
      forall r | 0 <= r < n ensures LogOk(n, tr[0], r) {
        assert tr[0].workers[r].epoch == 0;
      }
    } else {
      RunKeepsLogs(n, tr, steps, k - 1);
      var step := steps[k - 1];
      StepKeepsLogs(n, tr[k - 1], step);
    }
  }

  /**
   In every run, any two workers which have digested as many broadcasts hold the same event state,
   and the number of broadcasts is their balancing epoch.
   */
  lemma {:induction false} SameEpochSameState(n: nat, tr: seq<State>, steps: seq<Step>, k: nat, q: nat, r: nat)
    requires IsRun(n, tr, steps) && k <= |steps| && q < n && r < n
    ensures var s := tr[k]; Sized(n, s)
    ensures var s := tr[k]; s.workers[q].epoch == |s.logs[q]| && s.workers[r].epoch == |s.logs[r]|
    ensures var s := tr[k]; s.workers[q].epoch == s.workers[r].epoch ==> s.workers[q].states == s.workers[r].states
  {
    RunKeepsLogs(n, tr, steps, k);
    var s := tr[k];
    assert LogOk(n, s, q) && LogOk(n, s, r);
    LogsArePrefixes(n, s, q);
    LogsArePrefixes(n, s, r);
  }

  // ---------------------------------------------------------------------
  // No event is lost
  // ---------------------------------------------------------------------

  /** The list has an event of this job which is no older. */
  predicate Has(l: seq<Event>, id: int, epoch: nat)
  {
    var x := Find(l, id);
    x.Some? && x.value.epoch >= epoch
  }

  datatype Place = InDiffs(rank: nat) | InUp(child: nat, pos: nat) | InLog(pos: nat)

  ghost predicate At(n: nat, s: State, p: Place, id: int, epoch: nat)
    requires Sized(n, s)
  {
    match p
    case InDiffs(r) => r < n && Has(s.workers[r].diffs.list, id, epoch)
    case InUp(c, k) => 0 < c < n && k < |s.ups[c]| && Has(s.ups[c][k].list, id, epoch)
    case InLog(k) => k < |s.logs[0]| && Has(s.logs[0][k].list, id, epoch)
  }

  /** The list is ordered, and its events have been pushed. */
  ghost predicate Genuine(l: seq<Event>, es: set<Event>)
  {
    Sorted(l) && forall x :: x in l ==> x in es
  }

  ghost predicate AllGenuine(ds: seq<Data>, es: set<Event>)
  {
    forall k {:trigger ds[k]} :: 0 <= k < |ds| ==> Genuine(ds[k].list, es)
  }

  ghost predicate WorkerGenuine(n: nat, s: State, es: set<Event>, r: nat)
    requires Sized(n, s) && r < n
  {
    Genuine(s.workers[r].diffs.list, es) && AllGenuine(s.ups[r], es)
  }

  ghost predicate ListInv(n: nat, s: State, es: set<Event>)
  {
    && Sized(n, s) && AllGenuine(s.logs[0], es)
    && forall r {:trigger WorkerGenuine(n, s, es, r)} :: 0 <= r < n ==> WorkerGenuine(n, s, es, r)
  }

  lemma {:induction false} UpdatedGenuine(a: seq<Event>, b: seq<Event>, es: set<Event>)
    requires Genuine(a, es) && Genuine(b, es)
    ensures Genuine(UpdatedBy(a, b), es)
  {
    if b != [] {
      var m := |b| - 1;
      UpdatedGenuine(a, b[..m], es);
      assert b[m] in b;
      InsertSorts(UpdatedBy(a, b[..m]), b[m]);
    }
  }

  lemma {:induction false} BroadcastLists(n: nat, s: State, es: set<Event>, r: nat, d: Data)
    requires ListInv(n, s, es) && r < n && Genuine(d.list, es)
    ensures ListInv(n, Broadcast(n, s, r, d), es)
  {
    var s' := Broadcast(n, s, r, d);
    assert WorkerGenuine(n, s, es, r);
    FilteredSorted(s.workers[r].diffs.list, Update(s.workers[r].states, d).list);
    forall q | 0 <= q < n ensures WorkerGenuine(n, s', es, q) {
      assert WorkerGenuine(n, s, es, q);
    }
  }

  lemma {:induction false} SentLists(n: nat, s: State, es: set<Event>, r: nat)
    requires ListInv(n, s, es) && r < n
    ensures ListInv(n, Sent(n, s, r), es)
  {
    assert WorkerGenuine(n, s, es, r);
    var w := s.workers[r];
    if r == 0 {
      var d := w.diffs.(epoch := w.epoch + 1);
      var s1 := s.(workers := s.workers[0 := w.(diffs := d)]);
      forall q | 0 <= q < n ensures WorkerGenuine(n, s1, es, q) {
        assert WorkerGenuine(n, s, es, q);
      }
      BroadcastLists(n, s1, es, 0, d);
    } else {
      var s' := Sent(n, s, r);
      forall q | 0 <= q < n ensures WorkerGenuine(n, s', es, q) {
        assert WorkerGenuine(n, s, es, q);
      }
    }
  }

  /** The diffs of one worker are replaced, and messages to one parent are taken away. */
  lemma {:induction false} ReplacedLists(n: nat, s: State, es: set<Event>, s': State, r: nat)
    requires ListInv(n, s, es) && Sized(n, s') && r < n && s'.logs == s.logs && Genuine(s'.workers[r].diffs.list, es)
    requires s'.workers == s.workers[r := s'.workers[r]]
    requires forall c {:trigger s'.ups[c]} :: 0 <= c < n ==>
      s'.ups[c] == s.ups[c] || (s.ups[c] != [] && s'.ups[c] == s.ups[c][1..])
    ensures ListInv(n, s', es)
  {
    forall q | 0 <= q < n ensures WorkerGenuine(n, s', es, q) {
      assert WorkerGenuine(n, s, es, q);
      assert s'.ups[q] == s.ups[q] || s'.ups[q] == s.ups[q][1..];
    }
  }

  lemma {:induction false} StepLists(n: nat, s: State, es: set<Event>, step: Step)
    requires LogInv(n, s) && ListInv(n, s, es) && Enabled(n, s, step) && (Pushes(step) ==> step.ev in es)
    ensures ListInv(n, Taken(n, s, step), es)
  {
    match step
    case Push(r, ev) =>
      assert WorkerGenuine(n, s, es, r);
      InsertSorts(s.workers[r].diffs.list, ev);
      ReplacedLists(n, s, es, Taken(n, s, step), r);
    case Advance(r) =>
      assert WorkerGenuine(n, s, es, r);
      var w := s.workers[r];
      UpdatedGenuine([], w.diffs.list, es);
      var cleared := s.(workers := s.workers[r := w.(diffs := w.diffs.(list := []))]);
      var s1 := Reduced(n, cleared, r, w.diffs);
      ReplacedLists(n, s, es, s1, r);
      SentLists(n, s1, es, r);
    case DeliverUp(c, ready) =>
      var r := ParentOf(c);
      assert WorkerGenuine(n, s, es, r) && WorkerGenuine(n, s, es, c);
      UpdatedGenuine(s.workers[r].diffs.list, s.ups[c][0].list, es);
      var s1 := Reduced(n, s.(ups := s.ups[c := s.ups[c][1..]]), r, s.ups[c][0]);
      ReplacedLists(n, s, es, s1, r);
      SentLists(n, s1, es, r);
    case DeliverDown(r) =>
      var k := NextBroadcast(n, s, r);
      var s1 := s.(downs := s.downs[r := s.downs[r][1..]]);
      assert WorkerGenuine(n, s, es, r);
      ReplacedLists(n, s, es, s1, r);
      BroadcastLists(n, s1, es, r, s.downs[r][0]);
  }

  /** What reaches a worker next is the next entry of the root's log. */
  lemma {:induction false} NextBroadcast(n: nat, s: State, r: nat) returns (k: nat)
    requires LogInv(n, s) && 0 < r < n && s.downs[r] != []
    ensures k == |s.logs[r]| && k < |s.logs[0]| && s.logs[0][k] == s.downs[r][0]
  {
    assert LogOk(n, s, r);
    LogsArePrefixes(n, s, ParentOf(r));
    k := |s.logs[r]|;
    assert s.logs[ParentOf(r)][k] == s.downs[r][0] == s.logs[0][k];
  }

  /** Whatever the state knows has been in some broadcast. */
  lemma {:induction false} KnownWasBroadcast(log: seq<Data>, es: set<Event>, id: int, epoch: nat) returns (k: nat)
    requires AllGenuine(log, es)
    ensures Genuine(StateAfter(log).list, es)
    ensures Has(StateAfter(log).list, id, epoch) ==> k < |log| && Has(log[k].list, id, epoch)
  {
    k := 0;
    if log != [] {
      var m := |log| - 1;
      k := KnownWasBroadcast(log[..m], es, id, epoch);
      var l := UpdatedBy(StateAfter(log[..m]).list, log[m].list);
      UpdatedByFacts(StateAfter(log[..m]).list, log[m].list, id);
      UpdatedGenuine(StateAfter(log[..m]).list, log[m].list, es);
      WithoutZerosSorted(l);
      WithoutZerosFinds(l, id);
      if Has(log[m].list, id, epoch) { k := m; }
    }
  }

  /** Digesting a broadcast only removes diffs which have been broadcast. */
  lemma {:induction false} BroadcastMoves(n: nat, s: State, es: set<Event>, r: nat, d: Data, p: Place, id: int,
      epoch: nat) returns (p': Place)
    requires ListInv(n, s, es) && r < n && Genuine(d.list, es) && At(n, s, p, id, epoch)
    requires s.workers[r].states == StateAfter(s.logs[r]) && |s.logs[r]| <= |s.logs[0]| &&
      s.logs[0][..|s.logs[r]|] == s.logs[r]
    requires r > 0 ==> d in s.logs[0]
    ensures At(n, Broadcast(n, s, r, d), p', id, epoch)
  {
    p' := p;
    if p == InDiffs(r) {
      assert WorkerGenuine(n, s, es, r);
      var w := s.workers[r];
      var k := KnownWasBroadcast(s.logs[r], es, id, epoch);
      UpdatedByFacts(w.states.list, d.list, id);
      FilteredFinds(w.diffs.list, Update(w.states, d).list, id);
      if Has(w.states.list, id, epoch) {
        assert s.logs[0][k] == s.logs[r][k];
        p' := InLog(k);
      } else if Has(d.list, id, epoch) {
        if r == 0 {
          p' := InLog(|s.logs[0]|);
        } else {
          var i :| 0 <= i < |s.logs[0]| && s.logs[0][i] == d;
          p' := InLog(i);
        }
      }
    }
  }

  lemma {:induction false} SentMoves(n: nat, s: State, es: set<Event>, r: nat, p: Place, id: int, epoch: nat)
    returns (p': Place)
    requires LogInv(n, s) && ListInv(n, s, es) && r < n && At(n, s, p, id, epoch)
    ensures At(n, Sent(n, s, r), p', id, epoch)
  {
    assert WorkerGenuine(n, s, es, r) && LogOk(n, s, r);
    var w := s.workers[r];
    p' := p;
    if r == 0 {
      var d := w.diffs.(epoch := w.epoch + 1);
      var s1 := s.(workers := s.workers[0 := w.(diffs := d)]);
      ReplacedLists(n, s, es, s1, 0);
      p' := BroadcastMoves(n, s1, es, 0, d, p, id, epoch);
    } else if p == InDiffs(r) {
      p' := InUp(r, |s.ups[r]|);
    }
  }

  /** In one step, an event is handed on at most: it stays in the diffs of a worker, in a message or in a broadcast. */
  lemma {:induction false} StepMoves(n: nat, s: State, es: set<Event>, step: Step, p: Place, id: int, epoch: nat)
    returns (p': Place)
    requires LogInv(n, s) && ListInv(n, s, es) && Enabled(n, s, step) && At(n, s, p, id, epoch)
    ensures At(n, Taken(n, s, step), p', id, epoch)
  {
    p' := p;
    match step
    case Push(r, ev) =>
      assert WorkerGenuine(n, s, es, r);
      InsertedFacts(s.workers[r].diffs.list, ev, id);
    case Advance(r) => p' := AdvanceMoves(n, s, es, r, p, id, epoch);
    case DeliverUp(c, ready) => p' := DeliverUpMoves(n, s, es, c, ready, p, id, epoch);
    case DeliverDown(r) => p' := DeliverDownMoves(n, s, es, r, p, id, epoch);
  }

  lemma {:induction false} AdvanceMoves(n: nat, s: State, es: set<Event>, r: nat, p: Place, id: int, epoch: nat)
    returns (p': Place)
    requires LogInv(n, s) && ListInv(n, s, es) && Enabled(n, s, Advance(r)) && At(n, s, p, id, epoch)
    ensures At(n, Taken(n, s, Advance(r)), p', id, epoch)
  {
    assert WorkerGenuine(n, s, es, r);
    var w := s.workers[r];
    var cleared := s.(workers := s.workers[r := w.(diffs := w.diffs.(list := []))]);
    var s1 := Reduced(n, cleared, r, w.diffs);
    UpdatedByFacts([], w.diffs.list, id);
    UpdatedGenuine([], w.diffs.list, es);
    ReplacedLists(n, s, es, s1, r);
    QuietKeepsLogs(n, s, s1);
    p' := SentMoves(n, s1, es, r, p, id, epoch);
  }

  lemma {:induction false} DeliverUpMoves(n: nat, s: State, es: set<Event>, c: nat, ready: bool, p: Place, id: int,
      epoch: nat) returns (p': Place)
    requires LogInv(n, s) && ListInv(n, s, es) && Enabled(n, s, DeliverUp(c, ready)) && At(n, s, p, id, epoch)
    ensures At(n, Taken(n, s, DeliverUp(c, ready)), p', id, epoch)
  {
    var r, d := ParentOf(c), s.ups[c][0];
    assert WorkerGenuine(n, s, es, r) && WorkerGenuine(n, s, es, c);
    var s1 := Reduced(n, s.(ups := s.ups[c := s.ups[c][1..]]), r, d);
    UpdatedByFacts(s.workers[r].diffs.list, d.list, id);
    UpdatedGenuine(s.workers[r].diffs.list, d.list, es);
    ReplacedLists(n, s, es, s1, r);
    QuietKeepsLogs(n, s, s1);
    p' := if p == InUp(c, 0) then InDiffs(r) else if p.InUp? && p.child == c then InUp(c, p.pos - 1) else p;
    assert At(n, s1, p', id, epoch);
    if ready {
      p' := SentMoves(n, s1, es, r, p', id, epoch);
    }
  }

  lemma {:induction false} DeliverDownMoves(n: nat, s: State, es: set<Event>, r: nat, p: Place, id: int, epoch: nat)
    returns (p': Place)
    requires LogInv(n, s) && ListInv(n, s, es) && Enabled(n, s, DeliverDown(r)) && At(n, s, p, id, epoch)
    ensures At(n, Taken(n, s, DeliverDown(r)), p', id, epoch)
  {
    var k := NextBroadcast(n, s, r);
    LogsArePrefixes(n, s, r);
    assert WorkerGenuine(n, s, es, r) && LogOk(n, s, r);
    var s1 := s.(downs := s.downs[r := s.downs[r][1..]]);
    ReplacedLists(n, s, es, s1, r);
    p' := BroadcastMoves(n, s1, es, r, s.downs[r][0], p, id, epoch);
  }

  lemma {:induction false} PushPlaces(n: nat, s: State, es: set<Event>, r: nat, ev: Event)
    requires ListInv(n, s, es) && r < n && ev.epoch >= 0
    ensures At(n, Taken(n, s, Push(r, ev)), InDiffs(r), ev.jobId, ev.epoch)
  {
    assert WorkerGenuine(n, s, es, r);
    InsertedFacts(s.workers[r].diffs.list, ev, ev.jobId);
  }

  /** The step pushes an event, and not one of those with a negative epoch, which are ignored. */
  predicate Pushes(step: Step)
  {
    step.Push? && step.ev.epoch >= 0
  }

  ghost function Events(steps: seq<Step>): set<Event>
  {
    set k | 0 <= k < |steps| && Pushes(steps[k]) :: steps[k].ev
  }

  lemma {:induction false} RunLists(n: nat, tr: seq<State>, steps: seq<Step>, k: nat)
    requires IsRun(n, tr, steps) && k <= |steps|
    ensures ListInv(n, tr[k], Events(steps))
  {
    var es := Events(steps);
    if k == 0 {
      forall r | 0 <= r < n ensures WorkerGenuine(n, tr[0], es, r) {
        assert tr[0].ups[r] == [];
        assert tr[0].workers[r].epoch == 0;
      }
      assert tr[0].logs[0] == [];
    } else {
      RunLists(n, tr, steps, k - 1);
      RunKeepsLogs(n, tr, steps, k - 1);
      var step := steps[k - 1];
      StepLists(n, tr[k - 1], es, step);
    }
  }

  /** A pushed event, or a newer one of its job, is always somewhere. */
  lemma {:induction false} PushedIsSomewhere(n: nat, tr: seq<State>, steps: seq<Step>, j: nat, k: nat)
    returns (p: Place)
    requires IsRun(n, tr, steps) && j < k <= |steps| && Pushes(steps[j])
    ensures Sized(n, tr[k]) && At(n, tr[k], p, steps[j].ev.jobId, steps[j].ev.epoch)
  {
    RunLists(n, tr, steps, k - 1);
    var es := Events(steps);
    RunKeepsLogs(n, tr, steps, k - 1);
    var ev, step := steps[j].ev, steps[k - 1];
    if k == j + 1 {
      PushPlaces(n, tr[j], es, step.rank, ev);
      p := InDiffs(step.rank);
    } else {
      p := PushedIsSomewhere(n, tr, steps, j, k - 1);
      p := StepMoves(n, tr[k - 1], es, step, p, ev.jobId, ev.epoch);
    }
  }

  // ---------------------------------------------------------------------
  // Quiescent states
  // ---------------------------------------------------------------------

  /** No worker has diffs left, and no message is under way. */
  ghost predicate Quiet(n: nat, s: State)
    requires Sized(n, s)
  {
    forall r {:trigger s.workers[r]} {:trigger s.ups[r]} {:trigger s.downs[r]} :: 0 <= r < n ==>
      s.workers[r].diffs.list == [] && s.ups[r] == [] && s.downs[r] == []
  }

  lemma {:induction false} QuietLogs(n: nat, s: State, r: nat)
    requires LogInv(n, s) && Quiet(n, s) && r < n
    ensures s.logs[r] == s.logs[0]
  {
    if r > 0 {
      assert LogOk(n, s, r);
      assert s.downs[r] == [];
      QuietLogs(n, s, ParentOf(r));
    }
  }

  /** In a quiescent state, every worker has digested every pushed event or a newer one. */
  lemma {:induction false} PushedIsDigested(n: nat, tr: seq<State>, steps: seq<Step>, j: nat, k: nat, r: nat)
    requires IsRun(n, tr, steps) && j < k <= |steps| && Pushes(steps[j])
    requires Sized(n, tr[k]) && Quiet(n, tr[k]) && r < n
    ensures exists i :: 0 <= i < |tr[k].logs[r]| && Has(tr[k].logs[r][i].list, steps[j].ev.jobId, steps[j].ev.epoch)
  {
    RunKeepsLogs(n, tr, steps, k);
    QuietLogs(n, tr[k], r);
    var p := PushedIsSomewhere(n, tr, steps, j, k);
    QuietPlace(n, tr[k], p, steps[j].ev.jobId, steps[j].ev.epoch);
    assert Has(tr[k].logs[r][p.pos].list, steps[j].ev.jobId, steps[j].ev.epoch);
  }

  lemma {:induction false} QuietPlace(n: nat, s: State, p: Place, id: int, epoch: nat)
    requires Sized(n, s) && Quiet(n, s) && At(n, s, p, id, epoch)
    ensures p.InLog?
  {
  }

  predicate IsZero(ev: Event)
  {
    ev.demand == 0 && ev.priority <= 0.0
  }

  /** The newest event of its job. */
  ghost predicate IsNewest(ev: Event, es: set<Event>)
  {
    ev in es && forall x :: x in es && x.jobId == ev.jobId && x != ev ==> x.epoch < ev.epoch
  }

  /** Once digested, the newest event of a job stays in the state, unless it is a zero. */
  lemma {:induction false} NewestStays(log: seq<Data>, es: set<Event>, ev: Event, k: nat)
    requires AllGenuine(log, es) && IsNewest(ev, es) && ev.epoch >= 0 && !IsZero(ev)
    requires k < |log| && Has(log[k].list, ev.jobId, ev.epoch)
    ensures Find(StateAfter(log).list, ev.jobId) == Some(ev)
  {
    var m, id := |log| - 1, ev.jobId;
    var _ := KnownWasBroadcast(log[..m], es, id, 0);
    var before := StateAfter(log[..m]).list;
    if k < m { NewestStays(log[..m], es, ev, k); }
    UpdatedByFacts(before, log[m].list, id);
    if Find(log[m].list, id).Some? { var i := FoundAt(log[m].list, id); }
    if Find(before, id).Some? { var i := FoundAt(before, id); }
    WithoutZerosFinds(UpdatedBy(before, log[m].list), id);
  }

  /**
   In every run which has come to rest, every worker's state holds the newest event pushed for a job
   anywhere, unless it is a zero, and holds nothing that has not been pushed.
   */
  lemma {:induction false} RestIsUpToDate(n: nat, tr: seq<State>, steps: seq<Step>, r: nat)
    requires IsRun(n, tr, steps) && Sized(n, tr[|steps|]) && Quiet(n, tr[|steps|]) && r < n
    ensures forall x :: x in tr[|steps|].workers[r].states.list ==> x in Events(steps)
    ensures forall ev :: IsNewest(ev, Events(steps)) && !IsZero(ev) ==>
      Find(tr[|steps|].workers[r].states.list, ev.jobId) == Some(ev)
  {
    var s, es := tr[|steps|], Events(steps);
    RunKeepsLogs(n, tr, steps, |steps|);
    RunLists(n, tr, steps, |steps|);
    QuietLogs(n, s, r);
    assert LogOk(n, s, r);
    var _ := KnownWasBroadcast(s.logs[r], es, 0, 0);
    forall ev | IsNewest(ev, es) && !IsZero(ev) ensures Find(s.workers[r].states.list, ev.jobId) == Some(ev) {
      var j :| 0 <= j < |steps| && Pushes(steps[j]) && steps[j].ev == ev;
      PushedIsDigested(n, tr, steps, j, |steps|, r);
      var k :| 0 <= k < |s.logs[r]| && Has(s.logs[r][k].list, ev.jobId, ev.epoch);
      NewestStays(s.logs[r], es, ev, k);
    }
  }
}
