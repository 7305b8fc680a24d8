/**
 The assignment of volumes to all jobs (the constructor of VolumeCalculator, and computeBalancingResult in
 src/balancing/event_driven_balancer.cpp).
 */
module BalancingResult {
  import opened Sums
  import opened JobEvents
  import opened BalancingEntries
  import opened Assignments
  import opened FairShares
  import opened VolumeCalculators

  /** The events of all jobs which have a demand, or of all those which have none. */
  function Select(events: seq<Event>, active: bool): (a: seq<Event>)
  {
    if events == [] then []
    else
      var n := |events| - 1;
      var rest := Select(events[..n], active);
      if (events[n].demand != 0) == active then rest + [events[n]] else rest
  }

  lemma {:induction false} Selected(events: seq<Event>, active: bool)
    ensures forall e :: e in Select(events, active) <==> e in events && (e.demand != 0) == active
  {
    if events != [] {
      var n := |events| - 1;
      Selected(events[..n], active);
      assert events == events[..n] + [events[n]];
    }
  }

  lemma {:induction false} ValidAppend(events: seq<Event>, e: Event)
    requires ValidEvents(events) && e.demand >= 0 && (e.demand > 0 ==> e.priority > 0.0)
    requires forall x :: x in events ==> x.jobId != e.jobId
    ensures ValidEvents(events + [e])
  {
  }

  lemma {:induction false} NoOtherEvent(events: seq<Event>, e: Event)
    requires ValidEvents(events) && events != [] && e in events[..|events| - 1]
    ensures e.jobId != events[|events| - 1].jobId
  {
    var k :| 0 <= k < |events| - 1 && events[k] == e;
  }

  lemma {:induction false} SelectIsValid(events: seq<Event>, active: bool)
    requires ValidEvents(events)
    ensures ValidEvents(Select(events, active))
  {
    if events != [] {
      var n := |events| - 1;
      var before, e := events[..n], events[n];
      SelectIsValid(before, active);
      Selected(before, active);
      forall x | x in Select(before, active) ensures x.jobId != e.jobId {
        NoOtherEvent(events, x);
      }
      if (e.demand != 0) == active { ValidAppend(Select(before, active), e); }
    }
  }

  lemma {:induction false} SelectFacts(events: seq<Event>, active: bool)
    ensures forall e :: e in Select(events, active) <==> e in events && (e.demand != 0) == active
    ensures ValidEvents(events) ==> ValidEvents(Select(events, active))
  {
    Selected(events, active);
    if ValidEvents(events) { SelectIsValid(events, active); }
  }

  /** What the constructor asserts, and one event per job. */
  ghost predicate ValidEvents(events: seq<Event>)
  {
    && (forall k {:trigger events[k]} :: 0 <= k < |events| ==>
          events[k].demand >= 0 && (events[k].demand > 0 ==> events[k].priority > 0.0))
    && (forall i, k :: 0 <= i < k < |events| ==> events[i].jobId != events[k].jobId)
  }

  function EntryOf(e: Event): Entry
  {
    NewEntry(e.jobId, e.demand, e.priority)
  }

  ghost predicate EntriesOf(events: seq<Event>, s: seq<Entry>)
  {
    |s| == |events| && forall k {:trigger s[k]} {:trigger events[k]} :: 0 <= k < |s| ==> s[k] == EntryOf(events[k])
  }

  method CollectEntries(events: seq<Event>) returns (entries: seq<Entry>, zero: seq<Entry>, sumOfPriorities: real)
    ensures EntriesOf(Select(events, true), entries) && EntriesOf(Select(events, false), zero)
    ensures sumOfPriorities == RealSum(Priorities(Jobs(entries)))
  {
    entries, zero, sumOfPriorities := [], [], 0.0;
    var i := 0;
    while i < |events|
      invariant 0 <= i <= |events|
      invariant EntriesOf(Select(events[..i], true), entries) && EntriesOf(Select(events[..i], false), zero)
      invariant sumOfPriorities == RealSum(Priorities(Jobs(entries)))
    {
      assert events[..i + 1][..i] == events[..i];
      var e := EntryOf(events[i]);
      if events[i].demand == 0 {
        zero := zero + [e];
      } else {
        OneMorePriority(entries, e);
        entries := entries + [e];
        sumOfPriorities := sumOfPriorities + e.priority;
      }
      i := i + 1;
    }
    assert events[..i] == events;
  }

  lemma {:induction false} OneMorePriority(s: seq<Entry>, e: Entry)
    ensures RealSum(Priorities(Jobs(s + [e]))) == RealSum(Priorities(Jobs(s))) + e.priority
  {
    var ps := Priorities(Jobs(s + [e]));
    assert ps[..|s|] == Priorities(Jobs(s));
  }

  // ---------------------------------------------------------------------
  // From entries to a map
  // ---------------------------------------------------------------------

  ghost function Ids(js: seq<Job>): (ids: seq<int>)
    ensures |ids| == |js|
    ensures forall k {:trigger ids[k]} :: 0 <= k < |js| ==> ids[k] == js[k].jobId
  {
    seq(|js|, k requires 0 <= k < |js| => js[k].jobId)
  }

  lemma {:induction false} IdsPermute(js: seq<Job>, js': seq<Job>)
    requires multiset(js) == multiset(js')
    ensures multiset(Ids(js)) == multiset(Ids(js'))
    decreases |js|
  {
    if js == [] {
      PermutationOfEmpty(js, js');
    } else {
      var k, js'' := RemoveLast(js, js');
      IdsPermute(js[..|js| - 1], js'');
      IdsRemove(js, |js| - 1);
      IdsRemove(js', k);
      assert js[..|js| - 1] + js[|js|..] == js[..|js| - 1];
    }
  }

  lemma {:induction false} IdsRemove(js: seq<Job>, k: nat)
    requires k < |js|
    ensures multiset(Ids(js)) == multiset(Ids(js[..k] + js[k + 1..])) + multiset{js[k].jobId}
  {
    var ids := Ids(js);
    assert ids == ids[..k] + [ids[k]] + ids[k + 1..];
    assert Ids(js[..k] + js[k + 1..]) == ids[..k] + ids[k + 1..];
  }

  ghost predicate Distinct(a: seq<int>)
  {
    forall i, k :: 0 <= i < k < |a| ==> a[i] != a[k]
  }

  lemma {:induction false} DistinctPermutes(a: seq<int>, b: seq<int>)
    requires multiset(a) == multiset(b) && Distinct(a)
    ensures Distinct(b)
    decreases |a|
  {
    if a == [] {
      PermutationOfEmpty(a, b);
    } else {
      var k, b' := RemoveLast(a, b);
      var x := b[k];
      DistinctPermutes(a[..|a| - 1], b');
      forall i | 0 <= i < |b'| ensures b'[i] != x {
        assert b'[i] in multiset(b');
        assert b'[i] in a[..|a| - 1];
      }
      InsertDistinct(b, k);
    }
  }

  lemma {:induction false} InsertDistinct(b: seq<int>, k: nat)
    requires k < |b| && Distinct(b[..k] + b[k + 1..]) && b[k] !in b[..k] + b[k + 1..]
    ensures Distinct(b)
  {
    var b' := b[..k] + b[k + 1..];
    forall i, j | 0 <= i < j < |b| ensures b[i] != b[j] {
      assert i < k ==> b[i] == b'[i];
      assert i > k ==> b[i] == b'[i - 1];
      assert j < k ==> b[j] == b'[j];
      assert j > k ==> b[j] == b'[j - 1];
    }
  }

  /** The values of the given keys. */
  function Lookup(ids: seq<int>, volumes: map<int, int>): (vs: seq<int>)
    requires forall k :: 0 <= k < |ids| ==> ids[k] in volumes
    ensures |vs| == |ids|
    ensures forall k {:trigger vs[k]} :: 0 <= k < |ids| ==> vs[k] == volumes[ids[k]]
  {
    seq(|ids|, k requires 0 <= k < |ids| => volumes[ids[k]])
  }

  lemma {:induction false} LookupSum(a: seq<int>, b: seq<int>, volumes: map<int, int>)
    requires multiset(a) == multiset(b) && forall k :: 0 <= k < |a| ==> a[k] in volumes
    ensures forall k :: 0 <= k < |b| ==> b[k] in volumes
    ensures Sum(Lookup(a, volumes)) == Sum(Lookup(b, volumes))
    decreases |a|
  {
    forall k | 0 <= k < |b| ensures b[k] in volumes {
      assert b[k] in multiset(b);
      assert b[k] in a;
    }
    if a == [] {
      PermutationOfEmpty(a, b);
    } else {
      var k, b' := RemoveLast(a, b);
      LookupSum(a[..|a| - 1], b', volumes);
      var va, vb := Lookup(a, volumes), Lookup(b, volumes);
      assert va[..|a| - 1] == Lookup(a[..|a| - 1], volumes);
      assert vb == vb[..k] + [vb[k]] + vb[k + 1..];
      assert Lookup(b', volumes) == vb[..k] + vb[k + 1..];
      SumConcat(vb[..k], [vb[k]]);
      SumConcat(vb[..k] + [vb[k]], vb[k + 1..]);
      SumConcat(vb[..k], vb[k + 1..]);
    }
  }

  /** volumes holds exactly the volumes of the entries. */
  ghost predicate Recorded(s: seq<Entry>, volumes: map<int, int>)
  {
    && (forall k {:trigger s[k]} :: 0 <= k < |s| ==> s[k].jobId in volumes && volumes[s[k].jobId] == s[k].volume)
    && (forall id {:trigger HasEntry(s, id)} :: id in volumes ==> HasEntry(s, id))
  }

  ghost predicate HasEntry(s: seq<Entry>, id: int)
  {
    exists k {:trigger s[k]} :: 0 <= k < |s| && s[k].jobId == id
  }

  method RecordVolumes(s: seq<Entry>) returns (volumes: map<int, int>)
    requires Distinct(Ids(Jobs(s)))
    ensures Recorded(s, volumes)
  {
    volumes := map[];
    ghost var ids := Ids(Jobs(s));
    var i := 0;
    while i < |s|
      invariant 0 <= i <= |s|
      invariant forall k :: 0 <= k < i ==> s[k].jobId in volumes && volumes[s[k].jobId] == s[k].volume
      invariant forall id :: id in volumes ==> exists k :: 0 <= k < i && s[k].jobId == id
    {
      assert forall k :: 0 <= k < i ==> ids[k] != ids[i];
      assert forall k :: 0 <= k < i ==> s[k].jobId == ids[k];
      volumes := volumes[s[i].jobId := s[i].volume];
      i := i + 1;
    }
  }

  // ---------------------------------------------------------------------
  // The result in terms of the events
  // ---------------------------------------------------------------------

  function EventIds(events: seq<Event>): (ids: seq<int>)
    ensures |ids| == |events|
    ensures forall k {:trigger ids[k]} {:trigger events[k]} :: 0 <= k < |events| ==> ids[k] == events[k].jobId
  {
    seq(|events|, k requires 0 <= k < |events| => events[k].jobId)
  }

  function EventDemands(events: seq<Event>): (ds: seq<int>)
    ensures |ds| == |events|
    ensures forall k {:trigger ds[k]} :: 0 <= k < |events| ==> ds[k] == events[k].demand
  {
    seq(|events|, k requires 0 <= k < |events| => events[k].demand)
  }

  /** Exactly the given jobs have a volume, which is between one and the demand. */
  ghost predicate VolumesFit(active: seq<Event>, volumes: map<int, int>)
  {
    && (forall k {:trigger active[k]} :: 0 <= k < |active| ==>
          active[k].jobId in volumes && 1 <= volumes[active[k].jobId] <= active[k].demand)
    && (forall id {:trigger HasEvent(active, id)} :: id in volumes ==> HasEvent(active, id))
  }

  ghost predicate HasEvent(active: seq<Event>, id: int)
  {
    exists k {:trigger active[k]} :: 0 <= k < |active| && active[k].jobId == id
  }

  /** A job with at least the demand of another one, and at least its priority, or more if n is zero. */
  predicate NotBelow(a: Event, b: Event, n: nat)
  {
    a.demand >= b.demand && if n == 0 then a.priority > b.priority else a.priority >= b.priority
  }

  /**
   A job of strictly higher priority and with at least the same demand does not receive less. Among equal priorities,
   a job with at least the same demand receives less by one worker at most.
   */
  ghost predicate VolumesFair(active: seq<Event>, volumes: map<int, int>)
    requires VolumesFit(active, volumes)
  {
    forall i, k, n: nat :: 0 <= i < |active| && 0 <= k < |active| && n <= 1 && NotBelow(active[i], active[k], n) ==>
      volumes[active[i].jobId] + n >= volumes[active[k].jobId]
  }

  /** What a job of this priority and demand receives at a multiplier, if no job can receive more than the cap. */
  function PriorityVolume(e: Event, cap: int, x: real): int
  {
    var d, f := Min(e.demand, cap), (x * e.priority).Floor;
    if f < 1 then 1 else if f > d then d else f
  }

  /** The volume is the one at either of two multipliers, between which it changes by one at most. */
  predicate PaidBetween(e: Event, volume: int, cap: int, l: real, r: real)
  {
    var a, b := PriorityVolume(e, cap, l), PriorityVolume(e, cap, r);
    (volume == a || volume == b) && a <= b <= a + 1
  }

  /** Whoever receives the larger volume has no smaller priority than whoever does not. */
  predicate PaidFirst(a: Event, v: int, b: Event, w: int, cap: int, l: real, r: real)
  {
    v > PriorityVolume(a, cap, l) && w < PriorityVolume(b, cap, r) ==> a.priority >= b.priority
  }

  ghost predicate ProportionalAt(active: seq<Event>, volumes: map<int, int>, cap: int, l: real, r: real)
    requires VolumesFit(active, volumes)
  {
    && 0.0 < l <= r
    && (forall k {:trigger active[k]} :: 0 <= k < |active| ==>
          PaidBetween(active[k], volumes[active[k].jobId], cap, l, r))
    && forall i, k {:trigger active[i], active[k]} :: 0 <= i < |active| && 0 <= k < |active| ==>
         PaidFirst(active[i], volumes[active[i].jobId], active[k], volumes[active[k].jobId], cap, l, r)
  }

  /**
   The volumes are proportional to the priorities: rounded down, within one and the demand, and up to one
   additional worker each for jobs of highest priority.
   */
  ghost predicate VolumesProportional(active: seq<Event>, volumes: map<int, int>, cap: int)
    requires VolumesFit(active, volumes)
  {
    exists l, r :: ProportionalAt(active, volumes, cap, l, r)
  }

  /** The entry which belongs to an event. */
  lemma {:induction false} EntryFor(active: seq<Event>, s0: seq<Entry>, s: seq<Entry>, sum: real, available: nat,
      k: nat) returns (i: nat)
    requires EntriesOf(active, s0) && k < |active| && sum > 0.0
    requires multiset(Jobs(s)) == multiset(FairJobs(s0, sum, available))
    ensures i < |s| && s[i].jobId == active[k].jobId && s[i].priority == active[k].priority
    ensures s[i].fairShare == Share(active[k].priority, sum, available)
    ensures s[i].demand == Min(active[k].demand, available - |active| + 1)
  {
    i := FromPermutation(Jobs(s), FairJobs(s0, sum, available), k);
    FairEntriesAt(s0, sum, available, |s0|, k);
  }

  lemma {:induction false} IdsMatch(active: seq<Event>, s0: seq<Entry>, s: seq<Entry>, sum: real, available: nat)
    requires EntriesOf(active, s0) && (s0 == [] || sum > 0.0)
    requires multiset(Jobs(s)) == multiset(FairJobs(s0, sum, available))
    ensures multiset(Ids(Jobs(s))) == multiset(EventIds(active))
  {
    IdsPermute(Jobs(s), FairJobs(s0, sum, available));
    var js := FairJobs(s0, sum, available);
    forall k | 0 <= k < |js| ensures Ids(js)[k] == EventIds(active)[k] {
      FairEntriesAt(s0, sum, available, |s0|, k);
    }
    assert Ids(js) == EventIds(active);
  }

  /** A multiplier of shares is a multiplier of priorities. */
  lemma {:induction false} Rescaled(m: real, p: real, sum: real, available: nat)
    requires sum > 0.0
    ensures m * Share(p, sum, available) == m * available as real / sum * p
  {
    var q, a := p / sum, available as real;
    var x := m * a / sum;
    assert q * sum == p && x * sum == m * a;
    assert x * p == x * (sum * q) == x * sum * q == m * a * q == m * (q * a);
  }

  lemma {:induction false} ScalePositive(l: real, r: real, sum: real, available: nat)
    requires sum > 0.0 && available > 0 && 0.0 < l <= r
    ensures 0.0 < l * available as real / sum <= r * available as real / sum
  {
    var a := available as real;
    assert 0.0 < l * a <= r * a;
    QuotientMonotone(l * a, r * a, sum);
  }

  lemma {:induction false} QuotientMonotone(a: real, b: real, c: real)
    requires c > 0.0 && 0.0 < a <= b
    ensures 0.0 < a / c <= b / c
  {
  }

  lemma {:induction false} VolumeByPriority(e: Event, j: Job, m: real, sum: real, available: nat, cap: int)
    requires m > 0.0 && sum > 0.0 && j.priority == e.priority && j.demand == Min(e.demand, cap) >= 1
    requires j.fairShare == Share(e.priority, sum, available) && e.priority > 0.0 && available > 0
    ensures Volume(j, m) == PriorityVolume(e, cap, m * available as real / sum)
  {
    ShareIsPositive(e.priority, sum, available);
    Rescaled(m, e.priority, sum, available);
    VolumeIsClamped(j, m);
  }

  lemma {:induction false} ShareIsPositive(p: real, sum: real, available: nat)
    requires p > 0.0 && sum > 0.0 && available > 0
    ensures Share(p, sum, available) > 0.0
  {
    assert p / sum > 0.0;
  }

  lemma {:induction false} DistributedProportional(
    active: seq<Event>, s0: seq<Entry>, s: seq<Entry>, sum: real, available: nat, volumes: map<int, int>)
    requires EntriesOf(active, s0) && Fresh(s0) && (s0 == [] || sum > 0.0) && Distributed(s0, s, sum, available)
    requires Recorded(s, volumes) && VolumesFit(active, volumes) && |active| < available
    ensures VolumesProportional(active, volumes, available - |active| + 1)
  {
    var cap := available - |active| + 1;
    if active == [] {
      assert ProportionalAt(active, volumes, cap, 1.0, 1.0);
    } else {
      var l, r :| UniformAt(s, l, r);
      var x, y := l * available as real / sum, r * available as real / sum;
      ScalePositive(l, r, sum, available);
      forall k | 0 <= k < |active|
        ensures PaidBetween(active[k], volumes[active[k].jobId], cap, x, y)
      {
        var i := ServedLike(active, s0, s, sum, available, volumes, l, r, k);
        assert Between(s[i], l, r);
      }
      forall i, k | 0 <= i < |active| && 0 <= k < |active|
        ensures PaidFirst(active[i], volumes[active[i].jobId], active[k], volumes[active[k].jobId], cap, x, y)
      {
        var i' := ServedLike(active, s0, s, sum, available, volumes, l, r, i);
        var k' := ServedLike(active, s0, s, sum, available, volumes, l, r, k);
        assert ServedFirst(s[i'], s[k'], l, r);
      }
      assert ProportionalAt(active, volumes, cap, x, y);
    }
  }

  /** The entry of a job has its volumes at both multipliers. */
  lemma {:induction false} ServedLike(
    active: seq<Event>, s0: seq<Entry>, s: seq<Entry>, sum: real, available: nat, volumes: map<int, int>,
      l: real, r: real, k: nat)
    returns (i: nat)
    requires EntriesOf(active, s0) && Fresh(s0) && sum > 0.0 &&
      multiset(Jobs(s)) == multiset(FairJobs(s0, sum, available))
    requires Recorded(s, volumes) && VolumesFit(active, volumes) && k < |active| < available && 0.0 < l <= r
    ensures i < |s| && s[i].priority == active[k].priority && s[i].volume == volumes[active[k].jobId]
    ensures var cap, a := available - |active| + 1, available as real;
      && Volume(JobOf(s[i]), l) == PriorityVolume(active[k], cap, l * a / sum)
      && Volume(JobOf(s[i]), r) == PriorityVolume(active[k], cap, r * a / sum)
  {
    i := EntryFor(active, s0, s, sum, available, k);
    var cap := available - |active| + 1;
    assert s0[k] == EntryOf(active[k]);
    VolumeByPriority(active[k], JobOf(s[i]), l, sum, available, cap);
    VolumeByPriority(active[k], JobOf(s[i]), r, sum, available, cap);
  }

  lemma {:induction false} DistributedVolumes(
    active: seq<Event>, s0: seq<Entry>, s: seq<Entry>, sum: real, available: nat, volumes: map<int, int>)
    requires EntriesOf(active, s0) && (s0 == [] || sum > 0.0) && Distributed(s0, s, sum, available) &&
      Recorded(s, volumes)
    ensures VolumesFit(active, volumes) && VolumesFair(active, volumes)
    ensures Sum(Lookup(EventIds(active), volumes)) == Min(available, Sum(EventDemands(active)))
  {
    IdsMatch(active, s0, s, sum, available);
    DistributedFit(active, s0, s, sum, available, volumes);
    forall i, k, n: nat | 0 <= i < |active| && 0 <= k < |active| && n <= 1 && NotBelow(active[i], active[k], n)
      ensures volumes[active[i].jobId] + n >= volumes[active[k].jobId]
    {
      DistributedFair(active, s0, s, sum, available, volumes, i, k, n);
    }
    DistributedSum(active, s0, s, available, volumes);
  }

  lemma {:induction false} DistributedFair(
    active: seq<Event>, s0: seq<Entry>, s: seq<Entry>, sum: real, available: nat, volumes: map<int, int>, i: nat,
      k: nat, n: nat)
    requires EntriesOf(active, s0) && sum > 0.0 && Distributed(s0, s, sum, available) && Recorded(s, volumes)
    requires VolumesFit(active, volumes) && i < |active| && k < |active| && n <= 1 && NotBelow(active[i], active[k], n)
    ensures volumes[active[i].jobId] + n >= volumes[active[k].jobId]
  {
    var i' := EntryFor(active, s0, s, sum, available, i);
    var k' := EntryFor(active, s0, s, sum, available, k);
    assert FairPair(s[i'], s[k']);
  }

  lemma {:induction false} DistributedSum(active: seq<Event>, s0: seq<Entry>, s: seq<Entry>, available: nat,
      volumes: map<int, int>)
    requires EntriesOf(active, s0) && Recorded(s, volumes) && VolumesFit(active, volumes)
    requires multiset(Ids(Jobs(s))) == multiset(EventIds(active))
    requires Sum(Assigned(s)) == Min(available, Sum(Demands(Jobs(s0))))
    ensures Sum(Lookup(EventIds(active), volumes)) == Min(available, Sum(EventDemands(active)))
  {
    var ids := Ids(Jobs(s));
    forall k | 0 <= k < |ids| ensures ids[k] in volumes && volumes[ids[k]] == s[k].volume {}
    LookupSum(ids, EventIds(active), volumes);
    assert Lookup(ids, volumes) == Assigned(s);
    assert EventDemands(active) == Demands(Jobs(s0));
  }

  lemma {:induction false} DistributedFit(
    active: seq<Event>, s0: seq<Entry>, s: seq<Entry>, sum: real, available: nat, volumes: map<int, int>)
    requires EntriesOf(active, s0) && (s0 == [] || sum > 0.0) && Distributed(s0, s, sum, available) &&
      Recorded(s, volumes)
    requires multiset(Ids(Jobs(s))) == multiset(EventIds(active))
    ensures VolumesFit(active, volumes)
  {
    forall k | 0 <= k < |active| ensures active[k].jobId in volumes &&
      1 <= volumes[active[k].jobId] <= active[k].demand {
      var i := EntryFor(active, s0, s, sum, available, k);
      assert Bounded(s[i]);
    }
    forall id | id in volumes ensures HasEvent(active, id) {
      assert HasEntry(s, id);
      var i :| 0 <= i < |s| && s[i].jobId == id;
      assert Ids(Jobs(s))[i] in multiset(Ids(Jobs(s)));
      assert id in EventIds(active);
      var k :| 0 <= k < |active| && EventIds(active)[k] == id;
    }
  }

  lemma {:induction false} CollectedIsFresh(active: seq<Event>, s: seq<Entry>)
    requires EntriesOf(active, s) && ValidEvents(active) && forall k :: 0 <= k < |active| ==> active[k].demand != 0
    ensures Fresh(s) && Distinct(EventIds(active))
    ensures s == [] || RealSum(Priorities(Jobs(s))) > 0.0
  {
    if s != [] { RealSummand(Priorities(Jobs(s)), 0); }
  }

  lemma {:induction false} UnitVolumes(active: seq<Event>, s: seq<Entry>, volumes: map<int, int>)
    requires EntriesOf(active, s) && Fresh(s) && Recorded(s, volumes)
    ensures VolumesFit(active, volumes) && VolumesFair(active, volumes)
    ensures forall k :: 0 <= k < |active| ==> volumes[active[k].jobId] == 1
  {
    forall k | 0 <= k < |active| ensures active[k].jobId in volumes &&
      volumes[active[k].jobId] == 1 <= active[k].demand {
      UnitVolume(active, s, volumes, k);
    }
    forall id | id in volumes ensures HasEvent(active, id) {
      var k := JobOfVolume(active, s, volumes, id);
    }
    UnitsFit(active, volumes);
  }

  lemma {:induction false} UnitsFit(active: seq<Event>, volumes: map<int, int>)
    requires forall k {:trigger active[k]} :: 0 <= k < |active| ==>
      active[k].jobId in volumes && volumes[active[k].jobId] == 1 <= active[k].demand
    requires forall id {:trigger HasEvent(active, id)} :: id in volumes ==> HasEvent(active, id)
    ensures VolumesFit(active, volumes) && VolumesFair(active, volumes)
  {
  }

  lemma {:induction false} UnitVolume(active: seq<Event>, s: seq<Entry>, volumes: map<int, int>, k: nat)
    requires EntriesOf(active, s) && Fresh(s) && Recorded(s, volumes) && k < |active|
    ensures active[k].jobId in volumes && volumes[active[k].jobId] == 1 <= active[k].demand
  {
    assert s[k] == EntryOf(active[k]);
  }

  lemma {:induction false} JobOfVolume(active: seq<Event>, s: seq<Entry>, volumes: map<int, int>, id: int)
    returns (k: nat)
    requires EntriesOf(active, s) && Recorded(s, volumes) && id in volumes
    ensures k < |active| && active[k].jobId == id
  {
    assert HasEntry(s, id);
    k :| 0 <= k < |s| && s[k].jobId == id;
    assert s[k] == EntryOf(active[k]);
  }

  /** What calculateResult leaves of the entries. */
  ghost predicate Calculated(s: seq<Entry>, t: seq<Entry>, sum: real, available: nat)
    requires s == [] || sum > 0.0
  {
    if available <= |s| then t == s else Distributed(s, t, sum, available)
  }

  lemma {:induction false} JobsAreDistinct(
    active: seq<Event>, s: seq<Entry>, t: seq<Entry>, sum: real, available: nat)
    requires EntriesOf(active, s) && (s == [] || sum > 0.0) && Distinct(EventIds(active))
    requires Calculated(s, t, sum, available)
    ensures Distinct(Ids(Jobs(t)))
  {
    if available <= |s| {
      assert Ids(Jobs(s)) == EventIds(active);
    } else {
      IdsMatch(active, s, t, sum, available);
      DistinctPermutes(EventIds(active), Ids(Jobs(t)));
    }
  }

  /** All workers that are demanded are assigned, in proportion to the priorities; or else each job has one. */
  ghost predicate VolumesSplit(active: seq<Event>, volumes: map<int, int>, available: nat)
    requires VolumesFit(active, volumes)
  {
    if available <= |active| then forall k :: 0 <= k < |active| ==> volumes[active[k].jobId] == 1
    else
      && Sum(Lookup(EventIds(active), volumes)) == Min(available, Sum(EventDemands(active)))
      && VolumesProportional(active, volumes, available - |active| + 1)
  }

  lemma {:induction false} CalculatedVolumes(
    active: seq<Event>, s: seq<Entry>, t: seq<Entry>, sum: real, available: nat, volumes: map<int, int>)
    requires EntriesOf(active, s) && Fresh(s) && (s == [] || sum > 0.0)
    requires Calculated(s, t, sum, available) && Recorded(t, volumes)
    ensures VolumesFit(active, volumes) && VolumesFair(active, volumes) && VolumesSplit(active, volumes, available)
  {
    if available <= |s| {
      UnitVolumes(active, s, volumes);
    } else {
      DistributedVolumes(active, s, t, sum, available, volumes);
      DistributedProportional(active, s, t, sum, available, volumes);
    }
  }

  lemma {:induction false} ActiveEntries(events: seq<Event>, s: seq<Entry>)
    requires ValidEvents(events) && EntriesOf(Select(events, true), s)
    ensures Fresh(s) && Distinct(EventIds(Select(events, true)))
    ensures s == [] || RealSum(Priorities(Jobs(s))) > 0.0
  {
    SelectFacts(events, true);
    CollectedIsFresh(Select(events, true), s);
  }

  /** computeBalancingResult, for the given available volume. */
  method ComputeVolumes(hash: int -> int, available: nat, events: seq<Event>) returns (volumes: map<int, int>)
    requires ValidEvents(events)
    ensures VolumesFit(Select(events, true), volumes) && VolumesFair(Select(events, true), volumes)
    ensures VolumesSplit(Select(events, true), volumes, available)
  {
    var s, zero, sum := CollectEntries(events);
    ActiveEntries(events, s);
    var entries := new Entry[|s|](i requires 0 <= i < |s| => s[i]);
    assert entries[..] == s;
    var calculator := new VolumeCalculator(hash, available, sum, entries);
    calculator.CalculateResult();
    assert Calculated(s, entries[..], sum, available);
    JobsAreDistinct(Select(events, true), s, entries[..], sum, available);
    volumes := RecordVolumes(entries[..]);
    CalculatedVolumes(Select(events, true), s, entries[..], sum, available, volumes);
  }
}
