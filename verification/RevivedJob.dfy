/** A run of two workers which both push events of a job, and in which the job comes back after it has ended. */
module RevivedJob {
  import opened Options
  import opened JobEvents
  import opened EventMaps
  import opened BalancerTree
  import opened BalancerProtocol
  import opened EndedJobs

  /** The root and its only child. */
  function Two(root: Worker, child: Worker, up: seq<Data>, down: seq<Data>, log: seq<Data>, log': seq<Data>): State
  {
    State([root, child], [[], up], [[], down], [log, log'])
  }

  /** A worker which has digested k broadcasts and has nothing to send. */
  function Knows(l: seq<Event>, k: nat): Worker
  {
    Worker(Data([], k), Data(l, k), k)
  }

  lemma {:induction false} Extended(tr: seq<State>, steps: seq<Step>, step: Step, s: State)
    returns (tr': seq<State>, steps': seq<Step>)
    requires IsRun(2, tr, steps) && Sized(2, tr[|steps|]) && Enabled(2, tr[|steps|], step)
    requires s == Taken(2, tr[|steps|], step)
    ensures tr' == tr + [s] && steps' == steps + [step] && IsRun(2, tr', steps')
  {
    tr', steps' := tr + [s], steps + [step];
    var m := |steps|;
    forall k | 0 <= k < |steps'|
      ensures Sized(2, tr'[k]) && Enabled(2, tr'[k], steps'[k]) && tr'[k + 1] == Taken(2, tr'[k], steps'[k])
    {
      if k < m {
        assert steps'[k] == steps[k] && tr'[k] == tr[k] && tr'[k + 1] == tr[k + 1];
      } else {
        assert steps'[k] == step && tr'[k] == tr[m] && tr'[k + 1] == s;
      }
    }
  }

  lemma {:induction false} ChildPushes(w: Worker, c: Worker, up: seq<Data>, down: seq<Data>, l: seq<Data>,
      l': seq<Data>, e: Event)
    requires c.diffs.list == [] && e.epoch >= 0
    ensures Taken(2, Two(w, c, up, down, l, l'), Push(1, e)) ==
      Two(w, c.(diffs := c.diffs.(list := [e])), up, down, l, l')
  {
  }

  lemma {:induction false} RootPushes(w: Worker, c: Worker, up: seq<Data>, down: seq<Data>, l: seq<Data>,
      l': seq<Data>, e: Event)
    requires w.diffs.list == [] && e.epoch >= 0
    ensures Taken(2, Two(w, c, up, down, l, l'), Push(0, e)) ==
      Two(w.(diffs := w.diffs.(list := [e])), c, up, down, l, l')
  {
  }

  /** A list of one event is its own update of an empty list, and is filtered out by itself. */
  lemma {:induction false} Alone(e: Event)
    requires e.epoch >= 0
    ensures UpdatedBy([], [e]) == [e] && WithoutOldZeros([e]) == (if IsZero(e) then [] else [e]) &&
      FilteredBy([e], [e]) == []
  {
    assert [e][..0] == [];
    assert UpdatedBy([], [e][..0]) == [];
  }

  lemma {:induction false} ChildAdvances(w: Worker, c: Worker, up: seq<Data>, down: seq<Data>, l: seq<Data>,
      l': seq<Data>, e: Event)
    requires c.diffs.list == [e] && e.epoch >= 0
    ensures var s := Two(w, c, up, down, l, l');
      Enabled(2, s, Advance(1)) &&
      Taken(2, s, Advance(1)) == Two(w, c.(diffs := c.diffs.(list := [])), up + [c.diffs], down, l, l')
  {
    Alone(e);
  }

  function Kept(e: Event): seq<Event>
  {
    if IsZero(e) then [] else [e]
  }

  lemma {:induction false} Digests(w: Worker, e: Event, k: nat)
    requires w.states == Data([], k) && (w.diffs.list == [] || w.diffs.list == [e]) && w.diffs.epoch <= k + 1 &&
      e.epoch >= 0
    ensures Digested(w, Data([e], k + 1)) == Knows(Kept(e), k + 1)
  {
    Alone(e);
  }

  lemma {:induction false} RootSends(w: Worker, c: Worker, up: seq<Data>, down: seq<Data>, l: seq<Data>,
      l': seq<Data>, e: Event, k: nat)
    requires w.diffs.list == [e] && w.diffs.epoch <= k + 1 && w.states == Data([], k) && w.epoch == k && e.epoch >= 0
    ensures var d := Data([e], k + 1);
      Sent(2, Two(w, c, up, down, l, l'), 0) == Two(Knows(Kept(e), k + 1), c, up, down + [d], l + [d], l')
  {
    var d := Data([e], k + 1);
    Digests(w.(diffs := d), e, k);
    assert ParentOf(1) == 0;
    assert Forwarded(2, [[], down], 0, d) == [[], down + [d]];
  }

  lemma {:induction false} RootAdvances(w: Worker, c: Worker, up: seq<Data>, down: seq<Data>, l: seq<Data>,
      l': seq<Data>, e: Event, k: nat)
    requires w.diffs.list == [e] && w.diffs.epoch <= k + 1 && w.states == Data([], k) && w.epoch == k && e.epoch >= 0
    ensures var d, s := Data([e], k + 1), Two(w, c, up, down, l, l');
      Enabled(2, s, Advance(0)) &&
      Taken(2, s, Advance(0)) == Two(Knows(Kept(e), k + 1), c, up, down + [d], l + [d], l')
  {
    Alone(e);
    RootSends(w, c, up, down, l, l', e, k);
    var s := Two(w, c, up, down, l, l');
    var cleared := s.(workers := s.workers[0 := w.(diffs := w.diffs.(list := []))]);
    assert Reduced(2, cleared, 0, w.diffs) == s;
  }

  /** The child's message arrives at the root, which broadcasts it. */
  lemma {:induction false} RootReceives(k: nat, c: Worker, down: seq<Data>, l: seq<Data>, l': seq<Data>, e: Event)
    requires e.epoch >= 0
    ensures var d, s := Data([e], k + 1), Two(Knows([], k), c, [Data([e], 0)], down, l, l');
      Enabled(2, s, DeliverUp(1, true)) &&
      Taken(2, s, DeliverUp(1, true)) == Two(Knows(Kept(e), k + 1), c, [], down + [d], l + [d], l')
  {
    Alone(e);
    var w := Worker(Data([e], k), Data([], k), k);
    RootSends(w, c, [], down, l, l', e, k);
    assert ParentOf(1) == 0;
    var s := Two(Knows([], k), c, [Data([e], 0)], down, l, l');
    assert [Data([e], 0)][1..] == [];
    assert Update(Data([], k), Data([e], 0)) == Data([e], k);
    assert Reduced(2, s.(ups := s.ups[1 := s.ups[1][1..]]), 0, s.ups[1][0]) == Two(w, c, [], down, l, l');
  }

  lemma {:induction false} ChildReceives(k: nat, w: Worker, up: seq<Data>, down: seq<Data>, l: seq<Data>,
      l': seq<Data>, e: Event)
    requires e.epoch >= 0
    ensures var d := Data([e], k + 1); var s := Two(w, Knows([], k), up, [d] + down, l, l');
      Enabled(2, s, DeliverDown(1)) &&
        Taken(2, s, DeliverDown(1)) == Two(w, Knows(Kept(e), k + 1), up, down, l, l' + [d])
  {
    var d := Data([e], k + 1);
    Digests(Knows([], k), e, k);
    assert ParentOf(1) == 0;
    assert ([d] + down)[1..] == down;
    assert Forwarded(2, [[], down], 1, d) == [[], down];
  }

  /** An older event is pushed at the child and sent. */
  lemma {:induction false} UnderWay(stale: Event) returns (tr: seq<State>, steps: seq<Step>)
    requires stale.epoch >= 0
    ensures IsRun(2, tr, steps) && steps == [Push(1, stale), Advance(1)]
    ensures tr[2] == Two(Knows([], 0), Knows([], 0), [Data([stale], 0)], [], [], [])
  {
    var w, c := Knows([], 0), Knows([], 0).(diffs := Data([stale], 0));
    tr, steps := [Two(w, w, [], [], [], [])], [];
    ChildPushes(w, w, [], [], [], [], stale);
    tr, steps := Extended(tr, steps, Push(1, stale), Two(w, c, [], [], [], []));
    ChildAdvances(w, c, [], [], [], [], stale);
    assert [] + [c.diffs] == [Data([stale], 0)];
    tr, steps := Extended(tr, steps, Advance(1), Two(w, w, [Data([stale], 0)], [], [], []));
  }

  /** The zero is pushed at the root, which broadcasts it. */
  lemma {:induction false} Overtaken(stale: Event, zero: Event) returns (tr: seq<State>, steps: seq<Step>)
    requires stale.epoch >= 0 && zero.epoch >= 0 && IsZero(zero)
    ensures IsRun(2, tr, steps) && steps == [Push(1, stale), Advance(1), Push(0, zero), Advance(0)]
    ensures tr[4] == Two(Knows([], 1), Knows([], 0), [Data([stale], 0)], [Data([zero], 1)], [Data([zero], 1)], [])
  {
    var w, z, up := Knows([], 0), Knows([], 0).(diffs := Data([zero], 0)), [Data([stale], 0)];
    tr, steps := UnderWay(stale);
    RootPushes(w, w, up, [], [], [], zero);
    tr, steps := Extended(tr, steps, Push(0, zero), Two(z, w, up, [], [], []));
    RootAdvances(z, w, up, [], [], [], zero, 0);
    var d := Data([zero], 1);
    assert [] + [d] == [d];
    tr, steps := Extended(tr, steps, Advance(0), Two(Knows([], 1), w, up, [d], [d], []));
  }

  /** Then the older event arrives there. */
  lemma {:induction false} Arrived(stale: Event, zero: Event) returns (tr: seq<State>, steps: seq<Step>)
    requires stale.epoch >= 0 && zero.epoch >= 0 && IsZero(zero) && !IsZero(stale)
    ensures var d, d' := Data([zero], 1), Data([stale], 2);
      && IsRun(2, tr, steps) && |steps| == 6 && steps[4] == DeliverUp(1, true) && steps[5] == DeliverDown(1)
      && steps[..4] == [Push(1, stale), Advance(1), Push(0, zero), Advance(0)]
      && tr[6] == Two(Knows([stale], 2), Knows([], 1), [], [d'], [d] + [d'], [d])
  {
    var d, d' := Data([zero], 1), Data([stale], 2);
    tr, steps := Overtaken(stale, zero);
    RootReceives(1, Knows([], 0), [d], [d], [], stale);
    tr, steps := Extended(tr, steps, DeliverUp(1, true),
      Two(Knows([stale], 2), Knows([], 0), [], [d] + [d'], [d] + [d'], []));
    ChildReceives(0, Knows([stale], 2), [], [d'], [d] + [d'], [], zero);
    assert [] + [d] == [d];
    tr, steps := Extended(tr, steps, DeliverDown(1), Two(Knows([stale], 2), Knows([], 1), [], [d'], [d] + [d'], [d]));
  }

  /**
   A run which comes to rest while every worker holds an older event of a job whose newest event,
   a zero, has been pushed and digested: the zero is pushed elsewhere before anybody has digested the older event.
   */
  lemma {:induction false} ZeroIsForgotten(stale: Event, zero: Event) returns (tr: seq<State>, steps: seq<Step>)
    requires stale.jobId == zero.jobId && 0 <= stale.epoch < zero.epoch && IsZero(zero) && !IsZero(stale)
    ensures IsRun(2, tr, steps) && Sized(2, tr[|steps|]) && Quiet(2, tr[|steps|])
    ensures Ends(zero, Events(steps)) && LastPushed(steps, zero.jobId) == Some(zero)
    ensures forall r :: 0 <= r < 2 ==> tr[|steps|].workers[r].states.list == [stale]
    ensures !HandedOver(2, tr, steps, zero.jobId)
  {
    var d, d' := Data([zero], 1), Data([stale], 2);
    tr, steps := Arrived(stale, zero);
    ChildReceives(1, Knows([stale], 2), [], [], [d] + [d'], [d], stale);
    assert [d'] == [d'] + [];
    var s := Two(Knows([stale], 2), Knows([stale], 2), [], [], [d] + [d'], [d] + [d']);
    tr, steps := Extended(tr, steps, DeliverDown(1), s);
    PushedTwo(steps, stale, zero);
    NotHandedOver(tr, steps, stale, zero);
  }

  lemma {:induction false} NotHandedOver(tr: seq<State>, steps: seq<Step>, stale: Event, zero: Event)
    requires IsRun(2, tr, steps) && Sized(2, tr[|steps|]) && Quiet(2, tr[|steps|]) && stale.jobId == zero.jobId
    requires IsZero(zero) && LastPushed(steps, zero.jobId) == Some(zero)
    requires tr[|steps|].workers[0].states.list == [stale]
    ensures !HandedOver(2, tr, steps, zero.jobId)
  {
    FindAt([stale], 0);
    if HandedOver(2, tr, steps, zero.jobId) {
      HandedOverAtRest(2, tr, steps, zero.jobId, 0);
      assert false;
    }
  }

  lemma {:induction false} PushedTwo(steps: seq<Step>, stale: Event, zero: Event)
    requires stale.jobId == zero.jobId && 0 <= stale.epoch < zero.epoch && IsZero(zero) && !IsZero(stale)
    requires |steps| == 7 && steps[..4] == [Push(1, stale), Advance(1), Push(0, zero), Advance(0)]
    requires forall i {:trigger steps[i]} :: 4 <= i < 7 ==> !steps[i].Push?
    ensures Ends(zero, Events(steps)) && LastPushed(steps, zero.jobId) == Some(zero)
  {
    assert steps[0] == steps[..4][0] && steps[1] == steps[..4][1] && steps[2] == steps[..4][2] &&
      steps[3] == steps[..4][3];
    assert Pushes(steps[0]) && Pushes(steps[2]);
    assert Events(steps) == {stale, zero};
    assert steps[..6][..5] == steps[..5] && steps[..5][..4] == steps[..4] && steps[..4][..3] == steps[..3];
    assert LastPushed(steps[..3], zero.jobId) == Some(zero);
    assert LastPushed(steps[..5], zero.jobId) == LastPushed(steps[..4], zero.jobId) == Some(zero);
  }
}
