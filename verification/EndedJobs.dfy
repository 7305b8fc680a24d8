/**
 Jobs which have ended, in the balancer's protocol. A worker's state forgets zeros, so it depends on the order
 of broadcasts whether it forgets the job for good. The order is right if the job's events are pushed with increasing
 epochs, and at another rank only after some worker has digested the event before.
 */
module EndedJobs {
  import opened Options
  import opened JobEvents
  import opened EventMaps
  import opened BalancerTree
  import opened BalancerProtocol

  // ---------------------------------------------------------------------
  // What a sequence of broadcasts leaves of a job
  // ---------------------------------------------------------------------

  /** The last event of a job which was broadcast. */
  function LastOf(log: seq<Data>, id: int): Option<Event>
  {
    if log == [] then None
    else
      var x := Find(log[|log| - 1].list, id);
      if x.Some? then x else LastOf(log[..|log| - 1], id)
  }

  /** The events of a job were broadcast in the order of their epochs. */
  ghost predicate InOrder(log: seq<Data>, id: int)
  {
    && (forall k {:trigger log[k]} :: 0 <= k < |log| ==> Proper(Find(log[k].list, id)))
    && forall i, k {:trigger log[i], log[k]} :: 0 <= i < k < |log| ==>
      var x, y := Find(log[i].list, id), Find(log[k].list, id);
      x.Some? && y.Some? ==> x.value.epoch < y.value.epoch || x == y
  }

  lemma {:induction false} LastWasBroadcast(log: seq<Data>, id: int) returns (k: nat)
    ensures LastOf(log, id).Some? ==> k < |log| && Find(log[k].list, id) == LastOf(log, id)
    ensures forall i :: 0 <= i < |log| && Find(log[i].list, id).Some? ==> LastOf(log, id).Some? && i <= k
  {
    k := 0;
    if log != [] {
      k := |log| - 1;
      if Find(log[k].list, id).None? {
        k := LastWasBroadcast(log[..k], id);
        forall i | 0 <= i < |log| && Find(log[i].list, id).Some? ensures LastOf(log, id).Some? && i <= k {
          assert log[..|log| - 1][i] == log[i];
        }
      }
    }
  }

  /** If so, the state knows exactly the last event, and knows nothing of a job which has ended. */
  lemma {:induction false} StateIsLast(log: seq<Data>, es: set<Event>, id: int)
    requires AllGenuine(log, es) && InOrder(log, id)
    ensures var x := LastOf(log, id); Find(StateAfter(log).list, id) == if x.Some? && IsZero(x.value) then None else x
  {
    if log != [] {
      var m := |log| - 1;
      StateIsLast(log[..m], es, id);
      var k := LastWasBroadcast(log[..m], id);
      var _ := KnownWasBroadcast(log[..m], es, id, 0);
      var before := StateAfter(log[..m]).list;
      UpdatedByFacts(before, log[m].list, id);
      assert LastOf(log[..m], id).Some? ==> log[..m][k] == log[k];
      WithoutZerosFinds(UpdatedBy(before, log[m].list), id);
    }
  }

  /** The newest event of its job, and the only one which is a zero. */
  ghost predicate Ends(z: Event, es: set<Event>)
  {
    && IsNewest(z, es) && IsZero(z)
    && forall x :: x in es && x.jobId == z.jobId ==> x.epoch >= 0 && (IsZero(x) ==> x == z)
  }

  /** One more broadcast: what the state knows of a job afterwards. */
  lemma {:induction false} OneMore(log: seq<Data>, d: Data, es: set<Event>, id: int)
    requires AllGenuine(log, es) && Genuine(d.list, es)
    ensures var x := Updated(Find(StateAfter(log).list, id), Find(d.list, id));
      Find(StateAfter(log + [d]).list, id) == if x.Some? && IsZero(x.value) then None else x
    ensures forall x :: x == Find(StateAfter(log).list, id) && x.Some? ==> x.value in es && x.value.jobId == id
    ensures forall x :: x == Find(d.list, id) && x.Some? ==> x.value in es && x.value.jobId == id
  {
    var _ := KnownWasBroadcast(log, es, id, 0);
    var before := StateAfter(log).list;
    if Find(before, id).Some? { var i := FoundAt(before, id); }
    if Find(d.list, id).Some? { var i := FoundAt(d.list, id); }
    Appended(log, d);
    UpdatedByFacts(before, d.list, id);
    WithoutZerosFinds(UpdatedBy(before, d.list), id);
  }

  lemma {:induction false} NoZeros(log: seq<Data>, es: set<Event>, id: int)
    requires AllGenuine(log, es)
    ensures var x := Find(StateAfter(log).list, id); x.Some? ==> !IsZero(x.value)
  {
    if log != [] {
      var m := |log| - 1;
      assert log == log[..m] + [log[m]];
      OneMore(log[..m], log[m], es, id);
    }
  }

  /** No broadcast after k has an event of the job. */
  ghost predicate SilentAfter(log: seq<Data>, id: int, k: nat)
  {
    forall i {:trigger log[i]} :: k < i < |log| ==> Find(log[i].list, id).None?
  }

  /** The last broadcast of the job's zero. */
  ghost predicate LastHolds(log: seq<Data>, z: Event, k: nat)
  {
    k < |log| && Find(log[k].list, z.jobId) == Some(z)
    && forall i {:trigger log[i]} :: k < i < |log| ==> Find(log[i].list, z.jobId) != Some(z)
  }

  /**
   Exactly when a job which has ended is forgotten: no broadcast after the last one of its zero
   holds another event of the job.
   */
  lemma {:induction false} ForgottenExactly(log: seq<Data>, es: set<Event>, z: Event, k: nat)
    requires AllGenuine(log, es) && Ends(z, es) && LastHolds(log, z, k)
    ensures Find(StateAfter(log).list, z.jobId).None? <==> SilentAfter(log, z.jobId, k)
  {
    var m, id := |log| - 1, z.jobId;
    var before := log[..m];
    assert log == before + [log[m]];
    OneMore(before, log[m], es, id);
    NoZeros(before, es, id);
    if k < m {
      ForgottenExactly(before, es, z, k);
      assert SilentAfter(log, id, k) <==> SilentAfter(before, id, k) && Find(log[m].list, id).None?;
      var x, y := Find(StateAfter(before).list, id), Find(log[m].list, id);
      assert y.Some? ==> y.value.epoch >= 0 && !IsZero(y.value);
      assert Updated(x, y).None? <==> x.None? && y.None?;
    }
  }

  lemma {:induction false} LastHolding(log: seq<Data>, z: Event, i: nat) returns (k: nat)
    requires i < |log| && Find(log[i].list, z.jobId) == Some(z)
    ensures LastHolds(log, z, k)
    decreases |log| - i
  {
    if j :| i < j < |log| && Find(log[j].list, z.jobId) == Some(z) {
      k := LastHolding(log, z, j);
    } else {
      k := i;
    }
  }

  /** In a run which has come to rest: each worker has forgotten the ended job under this very condition. */
  lemma {:induction false} EndedAtRest(n: nat, tr: seq<State>, steps: seq<Step>, z: Event, r: nat) returns (k: nat)
    requires IsRun(n, tr, steps) && Sized(n, tr[|steps|]) && Quiet(n, tr[|steps|]) && r < n
    requires Ends(z, Events(steps))
    ensures LastHolds(tr[|steps|].logs[0], z, k)
    ensures Find(tr[|steps|].workers[r].states.list, z.jobId).None?
       <==> SilentAfter(tr[|steps|].logs[0], z.jobId, k)
  {
    var s, es := tr[|steps|], Events(steps);
    RunKeepsLogs(n, tr, steps, |steps|);
    RunLists(n, tr, steps, |steps|);
    QuietLogs(n, s, r);
    assert LogOk(n, s, r);
    var i := NewestWasBroadcast(n, tr, steps, z);
    k := LastHolding(s.logs[0], z, i);
    ForgottenExactly(s.logs[0], es, z, k);
  }

  lemma {:induction false} NewestWasBroadcast(n: nat, tr: seq<State>, steps: seq<Step>, ev: Event) returns (i: nat)
    requires IsRun(n, tr, steps) && Sized(n, tr[|steps|]) && Quiet(n, tr[|steps|]) && IsNewest(ev, Events(steps))
    ensures i < |tr[|steps|].logs[0]| && Find(tr[|steps|].logs[0][i].list, ev.jobId) == Some(ev)
  {
    var s, es := tr[|steps|], Events(steps);
    RunLists(n, tr, steps, |steps|);
    var j :| 0 <= j < |steps| && Pushes(steps[j]) && steps[j].ev == ev;
    PushedIsDigested(n, tr, steps, j, |steps|, 0);
    i :| 0 <= i < |s.logs[0]| && Has(s.logs[0][i].list, ev.jobId, ev.epoch);
    assert Genuine(s.logs[0][i].list, es);
    var q := FoundAt(s.logs[0][i].list, ev.jobId);
  }

  // ---------------------------------------------------------------------
  // Events which travel from one rank to the root stay in order
  // ---------------------------------------------------------------------

  /** q is on the way from r to the root. */
  predicate OnPath(r: nat, q: nat)
  {
    q == r || (r > 0 && OnPath(ParentOf(r), q))
  }

  lemma {:induction false} PathBelow(r: nat, q: nat)
    requires OnPath(r, q)
    ensures q <= r && (q > 0 ==> OnPath(r, ParentOf(q)))
  {
    if q != r {
      PathBelow(ParentOf(r), q);
    } else if r > 0 {
      assert OnPath(ParentOf(r), ParentOf(r));
    }
  }

  /** Nothing on the way lies between a worker and its parent. */
  lemma {:induction false} PathSteps(r: nat, b: nat, c: nat)
    requires OnPath(r, b) && OnPath(r, c) && c > 0 && b > ParentOf(c)
    ensures b >= c
  {
    PathBelow(r, c);
    PathBelow(r, b);
    if c == r && b != r {
      PathBelow(ParentOf(r), b);
    } else if c != r && b != r {
      PathSteps(ParentOf(r), b, c);
    }
  }

  function EventAt(n: nat, s: State, p: Place, id: int): Option<Event>
    requires Sized(n, s)
  {
    match p
    case InDiffs(r) => if r < n then Find(s.workers[r].diffs.list, id) else None
    case InUp(c, k) => if 0 < c < n && k < |s.ups[c]| then Find(s.ups[c][k].list, id) else None
    case InLog(k) => if k < |s.logs[0]| then Find(s.logs[0][k].list, id) else None
  }

  function RankOf(p: Place): nat
    requires !p.InLog?
  {
    if p.InDiffs? then p.rank else p.child
  }

  /** What is at p is closer to the root's broadcasts, or further back in them, than what is at q. */
  predicate Earlier(p: Place, q: Place)
  {
    if p.InLog? then q.InLog? ==> p.pos < q.pos
    else if q.InLog? then false
    else if RankOf(p) != RankOf(q) then RankOf(p) < RankOf(q)
    else p.InUp? && (q.InUp? ==> p.pos < q.pos)
  }

  predicate Reaches(r: nat, p: Place)
  {
    p.InLog? || OnPath(r, RankOf(p))
  }

  /** The events of the job are on the way from r to the root, each one older than those behind it. */
  ghost predicate Sequenced(n: nat, s: State, id: int, r: nat)
    requires Sized(n, s)
  {
    && (forall p {:trigger Reaches(r, p)} {:trigger EventAt(n, s, p, id)} ::
          EventAt(n, s, p, id).Some? ==> Reaches(r, p))
    && forall p, q {:trigger Earlier(p, q)} :: Earlier(p, q) ==>
      var x, y := EventAt(n, s, p, id), EventAt(n, s, q, id);
      x.Some? && y.Some? ==> x.value.epoch < y.value.epoch
  }

  /** Where an event was before it got to p. */
  ghost predicate Origin(n: nat, s: State, s': State, id: int, r: nat, p: Place, o: Place)
    requires Sized(n, s) && Sized(n, s')
  {
    EventAt(n, s', p, id).Some? ==> EventAt(n, s, o, id) == EventAt(n, s', p, id) && (Reaches(r, o) ==> Reaches(r, p))
  }

  ghost predicate KeepsOrder(n: nat, s': State, id: int, p: Place, q: Place, p0: Place, q0: Place)
    requires Sized(n, s')
  {
    EventAt(n, s', p, id).Some? && EventAt(n, s', q, id).Some? && Earlier(p, q) ==> Earlier(p0, q0)
  }

  /** If every event comes from somewhere, and they do not overtake each other, they stay in sequence. */
  lemma {:induction false} MovesKeep(n: nat, s: State, s': State, id: int, r: nat, f: Place -> Place)
    requires Sized(n, s) && Sized(n, s') && Sequenced(n, s, id, r)
    requires forall p {:trigger f(p)} :: Origin(n, s, s', id, r, p, f(p))
    requires forall p, q {:trigger f(p), f(q)} :: KeepsOrder(n, s', id, p, q, f(p), f(q))
    ensures Sequenced(n, s', id, r)
  {
    forall p | EventAt(n, s', p, id).Some? ensures Reaches(r, p) {
      assert Origin(n, s, s', id, r, p, f(p));
    }
    forall p, q | Earlier(p, q) && EventAt(n, s', p, id).Some? && EventAt(n, s', q, id).Some?
      ensures EventAt(n, s', p, id).value.epoch < EventAt(n, s', q, id).value.epoch
    {
      assert Origin(n, s, s', id, r, p, f(p)) && Origin(n, s, s', id, r, q, f(q));
      assert KeepsOrder(n, s', id, p, q, f(p), f(q));
    }
  }

  /** Nothing of the job is added anywhere. */
  lemma {:induction false} FewerKeep(n: nat, s: State, s': State, id: int, r: nat)
    requires Sized(n, s) && Sized(n, s') && Sequenced(n, s, id, r)
    requires forall p {:trigger EventAt(n, s', p, id)} ::
      EventAt(n, s', p, id).Some? ==> EventAt(n, s, p, id) == EventAt(n, s', p, id)
    ensures Sequenced(n, s', id, r)
  {
    MovesKeep(n, s, s', id, r, p => p);
  }

  ghost predicate NoneNegative(es: set<Event>)
  {
    forall x :: x in es ==> x.epoch >= 0
  }

  /** The events which a worker has in its state and in its diffs. */
  lemma {:induction false} DigestedFinds(n: nat, s: State, es: set<Event>, r: nat, d: Data, id: int)
    requires ListInv(n, s, es) && r < n && Genuine(d.list, es)
    requires s.workers[r].states == StateAfter(s.logs[r])
    requires |s.logs[r]| <= |s.logs[0]| && s.logs[0][..|s.logs[r]|] == s.logs[r]
    requires NoneNegative(es)
    ensures var x, y := Find(s.workers[r].diffs.list, id), Find(Digested(s.workers[r], d).diffs.list, id);
      (y.Some? ==> y == x) && (x == Find(d.list, id) ==> y.None?)
  {
    var w := s.workers[r];
    assert WorkerGenuine(n, s, es, r);
    var _ := KnownWasBroadcast(s.logs[r], es, id, 0);
    if Find(d.list, id).Some? { var i := FoundAt(d.list, id); }
    UpdatedByFacts(w.states.list, d.list, id);
    FilteredFinds(w.diffs.list, Update(w.states, d).list, id);
  }

  lemma {:induction false} DownKeeps(n: nat, s: State, es: set<Event>, r: nat, id: int, r0: nat)
    requires LogInv(n, s) && ListInv(n, s, es) && Enabled(n, s, DeliverDown(r)) && NoneNegative(es)
    requires Sequenced(n, s, id, r0)
    ensures Sequenced(n, Taken(n, s, DeliverDown(r)), id, r0)
  {
    var k := NextBroadcast(n, s, r);
    LogsArePrefixes(n, s, r);
    assert LogOk(n, s, r);
    var d := s.downs[r][0];
    DigestedFinds(n, s, es, r, d, id);
    FewerKeep(n, s, Taken(n, s, DeliverDown(r)), id, r0);
  }

  /** A broadcast of the root takes the place of its diffs. */
  lemma {:induction false} RootSent(n: nat, s: State, es: set<Event>, id: int)
    requires LogInv(n, s) && ListInv(n, s, es) && NoneNegative(es)
    ensures var s', m := Sent(n, s, 0), |s.logs[0]|;
      && EventAt(n, s', InDiffs(0), id).None? && EventAt(n, s', InLog(m), id) == EventAt(n, s, InDiffs(0), id)
      && forall p {:trigger EventAt(n, s', p, id)} :: p != InLog(m) && p != InDiffs(0) ==>
           EventAt(n, s', p, id) == EventAt(n, s, p, id)
  {
    var w := s.workers[0];
    assert LogOk(n, s, 0) && WorkerGenuine(n, s, es, 0);
    var d := w.diffs.(epoch := w.epoch + 1);
    var s1 := s.(workers := s.workers[0 := w.(diffs := d)]);
    ReplacedLists(n, s, es, s1, 0);
    DigestedFinds(n, s1, es, 0, d, id);
  }

  lemma {:induction false} RootSentKeeps(n: nat, s: State, es: set<Event>, id: int, r0: nat)
    requires LogInv(n, s) && ListInv(n, s, es) && NoneNegative(es) && Sequenced(n, s, id, r0)
    ensures Sequenced(n, Sent(n, s, 0), id, r0)
  {
    var s', m := Sent(n, s, 0), |s.logs[0]|;
    RootSent(n, s, es, id);
    MovesKeep(n, s, s', id, r0, p => if p == InLog(m) then InDiffs(0) else p);
  }

  lemma {:induction false} SentKeeps(n: nat, s: State, id: int, r: nat, r0: nat)
    requires Sized(n, s) && 0 < r < n && Sequenced(n, s, id, r0)
    ensures Sequenced(n, Sent(n, s, r), id, r0)
  {
    var s', m := Sent(n, s, r), |s.ups[r]|;
    assert EventAt(n, s', InDiffs(r), id).None?;
    var f := p => if p == InUp(r, m) then InDiffs(r) else p;
    MovesKeep(n, s, s', id, r0, f);
  }

  /** A message arrives: what it has of the job is newer than what the receiver has. */
  lemma {:induction false} UpMoves(n: nat, s: State, es: set<Event>, c: nat, id: int, r0: nat, s': State)
    requires ListInv(n, s, es) && NoneNegative(es) && Sequenced(n, s, id, r0) && 0 < c < n && s.ups[c] != []
    requires s' == Reduced(n, s.(ups := s.ups[c := s.ups[c][1..]]), ParentOf(c), s.ups[c][0])
    ensures var q, x := ParentOf(c), EventAt(n, s, InUp(c, 0), id);
      EventAt(n, s', InDiffs(q), id) == if x.Some? then x else EventAt(n, s, InDiffs(q), id)
    ensures forall p {:trigger EventAt(n, s', p, id)} :: p != InDiffs(ParentOf(c)) ==>
      EventAt(n, s', p, id) == EventAt(n, s, if p.InUp? && p.child == c then InUp(c, p.pos + 1) else p, id)
  {
    var q, d := ParentOf(c), s.ups[c][0];
    assert WorkerGenuine(n, s, es, q) && WorkerGenuine(n, s, es, c);
    UpdatedByFacts(s.workers[q].diffs.list, d.list, id);
    if Find(d.list, id).Some? { var i := FoundAt(d.list, id); }
    assert Earlier(InDiffs(q), InUp(c, 0));
  }

  lemma {:induction false} UpKeeps(n: nat, s: State, es: set<Event>, c: nat, id: int, r0: nat, s': State)
    requires ListInv(n, s, es) && NoneNegative(es) && Sequenced(n, s, id, r0) && 0 < c < n && s.ups[c] != []
    requires s' == Reduced(n, s.(ups := s.ups[c := s.ups[c][1..]]), ParentOf(c), s.ups[c][0])
    ensures Sequenced(n, s', id, r0)
  {
    var q, top := ParentOf(c), EventAt(n, s, InUp(c, 0), id);
    UpMoves(n, s, es, c, id, r0, s');
    var f := p => if p == InDiffs(q) && top.Some? then InUp(c, 0)
                  else if p.InUp? && p.child == c then InUp(c, p.pos + 1) else p;
    if top.Some? {
      assert Reaches(r0, InUp(c, 0));
      PathBelow(r0, c);
      forall b: nat | OnPath(r0, b) && b > q ensures b >= c { PathSteps(r0, b, c); }
    }
    MovesKeep(n, s, s', id, r0, f);
  }

  lemma {:induction false} SendKeeps(n: nat, s: State, es: set<Event>, r: nat, id: int, r0: nat)
    requires LogInv(n, s) && ListInv(n, s, es) && NoneNegative(es) && Sequenced(n, s, id, r0) && r < n
    ensures Sequenced(n, Sent(n, s, r), id, r0)
  {
    if r == 0 { RootSentKeeps(n, s, es, id, r0); } else { SentKeeps(n, s, id, r, r0); }
  }

  lemma {:induction false} DeliverUpKeeps(n: nat, s: State, es: set<Event>, c: nat, ready: bool, id: int, r0: nat)
    requires LogInv(n, s) && ListInv(n, s, es) && NoneNegative(es) && Sequenced(n, s, id, r0)
    requires Enabled(n, s, DeliverUp(c, ready))
    ensures Sequenced(n, Taken(n, s, DeliverUp(c, ready)), id, r0)
  {
    var r, d := ParentOf(c), s.ups[c][0];
    assert WorkerGenuine(n, s, es, r) && WorkerGenuine(n, s, es, c);
    var s1 := Reduced(n, s.(ups := s.ups[c := s.ups[c][1..]]), r, d);
    UpdatedGenuine(s.workers[r].diffs.list, d.list, es);
    ReplacedLists(n, s, es, s1, r);
    QuietKeepsLogs(n, s, s1);
    UpKeeps(n, s, es, c, id, r0, s1);
    SendKeeps(n, s1, es, r, id, r0);
  }

  lemma {:induction false} AdvanceKeeps(n: nat, s: State, es: set<Event>, r: nat, id: int, r0: nat)
    requires LogInv(n, s) && ListInv(n, s, es) && NoneNegative(es) && Sequenced(n, s, id, r0)
    requires Enabled(n, s, Advance(r))
    ensures Sequenced(n, Taken(n, s, Advance(r)), id, r0)
  {
    assert WorkerGenuine(n, s, es, r);
    var w := s.workers[r];
    var cleared := s.(workers := s.workers[r := w.(diffs := w.diffs.(list := []))]);
    var s1 := Reduced(n, cleared, r, w.diffs);
    UpdatedByFacts([], w.diffs.list, id);
    UpdatedGenuine([], w.diffs.list, es);
    ReplacedLists(n, s, es, s1, r);
    QuietKeepsLogs(n, s, s1);
    FewerKeep(n, s, s1, id, r0);
    SendKeeps(n, s1, es, r, id, r0);
  }

  lemma {:induction false} PushMoves(n: nat, s: State, es: set<Event>, ev: Event, id: int, r0: nat)
    requires ListInv(n, s, es) && r0 < n
    requires ev.jobId == id && ev.epoch >= 0 && forall x :: x in es && x.jobId == id ==> x.epoch < ev.epoch
    ensures var s' := Taken(n, s, Push(r0, ev));
      && EventAt(n, s', InDiffs(r0), id) == Some(ev)
      && forall p {:trigger EventAt(n, s', p, id)} :: p != InDiffs(r0) ==> EventAt(n, s', p, id) == EventAt(n, s, p, id)
  {
    assert WorkerGenuine(n, s, es, r0);
    if EventAt(n, s, InDiffs(r0), id).Some? { PlacedIsGenuine(n, s, es, InDiffs(r0), id); }
    InsertedFacts(s.workers[r0].diffs.list, ev, id);
  }

  /** The next event of the job enters behind all the others. */
  lemma {:induction false} PushKeeps(n: nat, s: State, es: set<Event>, ev: Event, id: int, r0: nat)
    requires ListInv(n, s, es) && Sequenced(n, s, id, r0) && r0 < n
    requires ev.jobId == id && ev.epoch >= 0 && forall x :: x in es && x.jobId == id ==> x.epoch < ev.epoch
    ensures Sequenced(n, Taken(n, s, Push(r0, ev)), id, r0)
  {
    var s' := Taken(n, s, Push(r0, ev));
    PushMoves(n, s, es, ev, id, r0);
    forall p | EventAt(n, s', p, id).Some?
      ensures Reaches(r0, p) && !Earlier(InDiffs(r0), p) && (p != InDiffs(r0) ==>
        EventAt(n, s', p, id).value.epoch < ev.epoch)
    {
      if p != InDiffs(r0) {
        PlacedIsGenuine(n, s, es, p, id);
        assert Reaches(r0, p);
        if !p.InLog? { PathBelow(r0, RankOf(p)); }
      }
    }
  }

  lemma {:induction false} PlacedIsGenuine(n: nat, s: State, es: set<Event>, p: Place, id: int)
    requires ListInv(n, s, es) && EventAt(n, s, p, id).Some?
    ensures EventAt(n, s, p, id).value in es && EventAt(n, s, p, id).value.jobId == id
  {
    match p
    case InDiffs(r) =>
      assert WorkerGenuine(n, s, es, r);
      var i := FoundAt(s.workers[r].diffs.list, id);
    case InUp(c, k) =>
      assert WorkerGenuine(n, s, es, c);
      assert Genuine(s.ups[c][k].list, es);
      var i := FoundAt(s.ups[c][k].list, id);
    case InLog(k) =>
      assert Genuine(s.logs[0][k].list, es);
      var i := FoundAt(s.logs[0][k].list, id);
  }

  // ---------------------------------------------------------------------
  // Whole runs
  // ---------------------------------------------------------------------

  predicate PushesFor(step: Step, id: int)
  {
    Pushes(step) && step.ev.jobId == id
  }

  /** The last event which was pushed for a job. */
  function LastPushed(steps: seq<Step>, id: int): Option<Event>
  {
    if steps == [] then None
    else
      var m := |steps| - 1;
      if PushesFor(steps[m], id) then Some(steps[m].ev) else LastPushed(steps[..m], id)
  }

  /** The rank at which it was pushed. */
  function LastPusher(steps: seq<Step>, id: int): nat
  {
    if steps == [] then 0
    else
      var m := |steps| - 1;
      if PushesFor(steps[m], id) then steps[m].rank else LastPusher(steps[..m], id)
  }

  ghost predicate HasDigested(n: nat, s: State, w: nat, ev: Event)
    requires Sized(n, s)
  {
    w < n && exists k {:trigger s.logs[w][k]} :: 0 <= k < |s.logs[w]| && Find(s.logs[w][k].list, ev.jobId) == Some(ev)
  }

  /**
   An event may be pushed after those before: its epoch is larger, and it is pushed at the same rank as the
   event before, or some worker has digested the event before.
   */
  ghost predicate MayFollow(n: nat, s: State, before: seq<Step>, step: Step, id: int)
    requires Sized(n, s) && PushesFor(step, id)
  {
    var x := LastPushed(before, id);
    x.Some? ==>
      && x.value.epoch < step.ev.epoch
      && (step.rank == LastPusher(before, id) || exists w :: HasDigested(n, s, w, x.value))
  }

  /** The events of the job are pushed by one rank at a time. */
  ghost predicate HandedOver(n: nat, tr: seq<State>, steps: seq<Step>, id: int)
    requires IsRun(n, tr, steps)
  {
    forall j {:trigger steps[j]} :: 0 <= j < |steps| && PushesFor(steps[j], id) ==>
      MayFollow(n, tr[j], steps[..j], steps[j], id)
  }

  lemma {:induction false} PrefixLists(n: nat, tr: seq<State>, steps: seq<Step>, k: nat)
    requires IsRun(n, tr, steps) && k <= |steps|
    ensures ListInv(n, tr[k], Events(steps[..k]))
  {
    var tr', steps' := tr[..k + 1], steps[..k];
    forall i | 0 <= i < |steps'|
      ensures Sized(n, tr'[i]) && Enabled(n, tr'[i], steps'[i]) && tr'[i + 1] == Taken(n, tr'[i], steps'[i])
    {
      assert steps'[i] == steps[i] && tr'[i] == tr[i] && tr'[i + 1] == tr[i + 1];
    }
    RunLists(n, tr', steps', k);
  }

  lemma {:induction false} OtherPushKeeps(n: nat, s: State, es: set<Event>, r: nat, ev: Event, id: int, r0: nat)
    requires ListInv(n, s, es) && r < n && Sequenced(n, s, id, r0) && !PushesFor(Push(r, ev), id)
    ensures Sequenced(n, Taken(n, s, Push(r, ev)), id, r0)
  {
    assert WorkerGenuine(n, s, es, r);
    InsertedFacts(s.workers[r].diffs.list, ev, id);
    FewerKeep(n, s, Taken(n, s, Push(r, ev)), id, r0);
  }

  lemma {:induction false} StepSequenced(n: nat, s: State, es: set<Event>, step: Step, id: int, r0: nat)
    requires LogInv(n, s) && ListInv(n, s, es) && NoneNegative(es) && Sequenced(n, s, id, r0) && Enabled(n, s, step)
    requires PushesFor(step, id) ==> step.rank == r0 && forall x :: x in es && x.jobId == id ==> x.epoch < step.ev.epoch
    ensures Sequenced(n, Taken(n, s, step), id, r0)
  {
    match step
    case Push(r, ev) =>
      if PushesFor(step, id) { PushKeeps(n, s, es, ev, id, r0); } else { OtherPushKeeps(n, s, es, r, ev, id, r0); }
    case Advance(r) => AdvanceKeeps(n, s, es, r, id, r0);
    case DeliverUp(c, ready) => DeliverUpKeeps(n, s, es, c, ready, id, r0);
    case DeliverDown(r) => DownKeeps(n, s, es, r, id, r0);
  }

  lemma {:induction false} EventsNext(steps: seq<Step>, k: nat)
    requires k < |steps|
    ensures Events(steps[..k + 1]) == Events(steps[..k]) + if Pushes(steps[k]) then {steps[k].ev} else {}
  {
    var a, b := steps[..k], steps[..k + 1];
    forall x ensures x in Events(b) <==> x in Events(a) || (Pushes(steps[k]) && x == steps[k].ev) {
      if x in Events(b) {
        var i :| 0 <= i < |b| && Pushes(b[i]) && b[i].ev == x;
        assert i < k ==> Pushes(a[i]) && a[i].ev == x;
      }
      if x in Events(a) {
        var i :| 0 <= i < |a| && Pushes(a[i]) && a[i].ev == x;
        assert Pushes(b[i]) && b[i].ev == x;
      }
      if Pushes(steps[k]) { assert b[k] == steps[k]; }
    }
  }

  /** With increasing epochs, the last event pushed is the newest one. */
  ghost predicate LastIsNewest(steps: seq<Step>, id: int)
  {
    var x := LastPushed(steps, id);
    && (x.Some? ==> x.value.jobId == id && IsNewest(x.value, Events(steps)))
    && (x.None? ==> forall e :: e in Events(steps) ==> e.jobId != id)
  }

  lemma {:induction false} NewestSoFar(n: nat, tr: seq<State>, steps: seq<Step>, id: int, k: nat)
    requires IsRun(n, tr, steps) && HandedOver(n, tr, steps, id) && k <= |steps|
    ensures LastIsNewest(steps[..k], id)
  {
    if k > 0 {
      var j := k - 1;
      NewestSoFar(n, tr, steps, id, j);
      EventsNext(steps, j);
      var step := steps[j];
      assert steps[..k][..j] == steps[..j] && steps[..k][j] == step;
      assert PushesFor(step, id) ==> MayFollow(n, tr[j], steps[..j], step, id);
    }
  }

  /** If the newest event of the job has been broadcast, none is on its way, and the next one may come from anywhere. */
  lemma {:induction false} HandsOver(n: nat, s: State, es: set<Event>, x: Event, m: nat, r: nat, r': nat)
    requires ListInv(n, s, es) && Sequenced(n, s, x.jobId, r) && IsNewest(x, es)
    requires EventAt(n, s, InLog(m), x.jobId) == Some(x)
    ensures Sequenced(n, s, x.jobId, r')
  {
    forall p | EventAt(n, s, p, x.jobId).Some? ensures p.InLog? {
      PlacedIsGenuine(n, s, es, p, x.jobId);
      assert !p.InLog? ==> Earlier(InLog(m), p);
    }
  }

  /** What a worker has digested has been broadcast by the root. */
  lemma {:induction false} DigestedWasBroadcast(n: nat, s: State, w: nat, ev: Event) returns (m: nat)
    requires LogInv(n, s) && HasDigested(n, s, w, ev)
    ensures EventAt(n, s, InLog(m), ev.jobId) == Some(ev)
  {
    LogsArePrefixes(n, s, w);
    m :| 0 <= m < |s.logs[w]| && Find(s.logs[w][m].list, ev.jobId) == Some(ev);
    assert s.logs[0][..|s.logs[w]|][m] == s.logs[0][m];
  }

  lemma {:induction false} PusherMayChange(n: nat, s: State, before: seq<Step>, step: Step, id: int)
    requires LogInv(n, s) && ListInv(n, s, Events(before)) && LastIsNewest(before, id)
    requires Sequenced(n, s, id, LastPusher(before, id)) && PushesFor(step, id) && MayFollow(n, s, before, step, id)
    ensures Sequenced(n, s, id, step.rank)
  {
    var x, es, r := LastPushed(before, id), Events(before), LastPusher(before, id);
    if x.None? {
      forall p ensures EventAt(n, s, p, id).None? {
        if EventAt(n, s, p, id).Some? { PlacedIsGenuine(n, s, es, p, id); }
      }
    } else if step.rank != r {
      var w :| HasDigested(n, s, w, x.value);
      var m := DigestedWasBroadcast(n, s, w, x.value);
      HandsOver(n, s, es, x.value, m, r, step.rank);
    }
  }

  lemma {:induction false} RunSequenced(n: nat, tr: seq<State>, steps: seq<Step>, id: int, k: nat)
    requires IsRun(n, tr, steps) && HandedOver(n, tr, steps, id) && k <= |steps|
    ensures Sized(n, tr[k]) && Sequenced(n, tr[k], id, LastPusher(steps[..k], id))
  {
    RunKeepsLogs(n, tr, steps, k);
    if k == 0 {
      forall p ensures EventAt(n, tr[0], p, id).None? { NothingInitially(n, tr[0], p, id); }
    } else {
      var j := k - 1;
      var step, before := steps[j], steps[..j];
      RunSequenced(n, tr, steps, id, j);
      RunKeepsLogs(n, tr, steps, j);
      PrefixLists(n, tr, steps, j);
      NewestSoFar(n, tr, steps, id, j);
      assert steps[..k][..j] == before && steps[..k][j] == step;
      if PushesFor(step, id) { PusherMayChange(n, tr[j], before, step, id); }
      StepSequenced(n, tr[j], Events(before), step, id, LastPusher(steps[..k], id));
    }
  }

  lemma {:induction false} NothingInitially(n: nat, s: State, p: Place, id: int)
    requires Initial(n, s)
    ensures EventAt(n, s, p, id).None?
  {
    match p
    case InDiffs(r) => assert r < n ==> s.workers[r].diffs.list == [];
    case InUp(c, k) => assert 0 < c < n ==> s.ups[c] == [];
    case InLog(k) => assert s.logs[0] == [];
  }

  /** In every run in which a job's events are handed over, they are broadcast in the order of their epochs. */
  lemma {:induction false} HandedOverInOrder(n: nat, tr: seq<State>, steps: seq<Step>, id: int, k: nat)
    requires IsRun(n, tr, steps) && HandedOver(n, tr, steps, id) && k <= |steps|
    ensures Sized(n, tr[k]) && InOrder(tr[k].logs[0], id)
  {
    RunSequenced(n, tr, steps, id, k);
    RunLists(n, tr, steps, k);
    var s := tr[k];
    var log := s.logs[0];
    forall i | 0 <= i < |log| ensures Proper(Find(log[i].list, id)) {
      if Find(log[i].list, id).Some? {
        assert EventAt(n, s, InLog(i), id).Some?;
        PlacedIsGenuine(n, s, Events(steps), InLog(i), id);
      }
    }
    forall i, j | 0 <= i < j < |log| && Find(log[i].list, id).Some? && Find(log[j].list, id).Some?
      ensures Find(log[i].list, id).value.epoch < Find(log[j].list, id).value.epoch
    {
      assert Earlier(InLog(i), InLog(j));
      assert EventAt(n, s, InLog(i), id).Some? && EventAt(n, s, InLog(j), id).Some?;
    }
  }

  /**
   In every run which has come to rest and in which a job's events are handed over, every worker holds the last
   event pushed for this job, or nothing if this event says that the job has ended or there is none.
   */
  lemma {:induction false} HandedOverAtRest(n: nat, tr: seq<State>, steps: seq<Step>, id: int, q: nat)
    requires IsRun(n, tr, steps) && HandedOver(n, tr, steps, id) && q < n
    requires Sized(n, tr[|steps|]) && Quiet(n, tr[|steps|])
    ensures var x := LastPushed(steps, id);
      Find(tr[|steps|].workers[q].states.list, id) == if x.Some? && IsZero(x.value) then None else x
  {
    var s, es := tr[|steps|], Events(steps);
    RunKeepsLogs(n, tr, steps, |steps|);
    RunLists(n, tr, steps, |steps|);
    QuietLogs(n, s, q);
    assert LogOk(n, s, q);
    HandedOverInOrder(n, tr, steps, id, |steps|);
    StateIsLast(s.logs[0], es, id);
    NewestSoFar(n, tr, steps, id, |steps|);
    assert steps[..|steps|] == steps;
    var k := LastWasBroadcast(s.logs[0], id);
    if LastOf(s.logs[0], id).Some? {
      assert EventAt(n, s, InLog(k), id).Some?;
      PlacedIsGenuine(n, s, es, InLog(k), id);
    }
    if LastPushed(steps, id).Some? {
      var i := NewestWasBroadcast(n, tr, steps, LastPushed(steps, id).value);
    }
  }
}
