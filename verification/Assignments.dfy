/** What the final assignment of volumes amounts to. */
module Assignments {
  import opened Sums
  import opened BalancingEntries

  predicate ShareFollows(a: Job, b: Job)
  {
    a.priority >= b.priority ==> a.fairShare >= b.fairShare
  }

  /** Jobs of no smaller priority have no smaller fair share. */
  ghost predicate SharesFollowPriorities(js: seq<Job>)
  {
    forall i, k {:trigger ShareFollows(js[i], js[k])} :: 0 <= i < |js| && 0 <= k < |js| ==> ShareFollows(js[i], js[k])
  }

  /**
   No job receives less than a job of lower priority and at most the same demand, and no job receives less by more
   than one than a job of at most the same priority and demand.
   */
  ghost predicate Fair(s: seq<Entry>)
  {
    forall i, k {:trigger FairPair(s[i], s[k])} :: 0 <= i < |s| && 0 <= k < |s| ==> FairPair(s[i], s[k])
  }

  predicate FairPair(a: Entry, b: Entry)
  {
    && (a.priority > b.priority && a.demand >= b.demand ==> a.volume >= b.volume)
    && (a.priority >= b.priority && a.demand >= b.demand ==> a.volume + 1 >= b.volume)
  }

  /** The volume is the one at either of two multipliers, between which it changes by one at most. */
  predicate Between(e: Entry, l: real, r: real)
  {
    var a, b := Volume(JobOf(e), l), Volume(JobOf(e), r);
    (e.volume == a || e.volume == b) && a <= b <= a + 1
  }

  /** Whoever receives the larger volume has no smaller priority than whoever does not. */
  predicate ServedFirst(a: Entry, b: Entry, l: real, r: real)
  {
    a.volume > Volume(JobOf(a), l) && b.volume < Volume(JobOf(b), r) ==> a.priority >= b.priority
  }

  ghost predicate UniformAt(s: seq<Entry>, l: real, r: real)
  {
    && 0.0 < l <= r
    && (forall k {:trigger Between(s[k], l, r)} :: 0 <= k < |s| ==> Between(s[k], l, r))
    && forall i, k {:trigger ServedFirst(s[i], s[k], l, r)} ::
         0 <= i < |s| && 0 <= k < |s| ==> ServedFirst(s[i], s[k], l, r)
  }

  /** All jobs are served at the same multiplier, up to one worker each. */
  ghost predicate Uniform(s: seq<Entry>)
  {
    exists l, r :: UniformAt(s, l, r)
  }

  predicate Bounded(e: Entry)
  {
    1 <= e.volume <= e.demand
  }

  ghost predicate InBounds(s: seq<Entry>)
  {
    forall k {:trigger Bounded(s[k])} :: 0 <= k < |s| ==> Bounded(s[k])
  }

  /** Exactly the available volume has been assigned, within all demands and in a fair way. */
  ghost predicate Balanced(s: seq<Entry>, available: int)
  {
    InBounds(s) && Fair(s) && Uniform(s) && Sum(Assigned(s)) == available
  }

  /** All volumes belong to the same multiplier. */
  lemma {:induction false} UniformIsBalanced(s: seq<Entry>, m: real, available: int)
    requires m > 0.0 && AllSane(Jobs(s)) && SharesFollowPriorities(Jobs(s))
    requires forall k :: 0 <= k < |s| ==> s[k].volume == Volume(JobOf(s[k]), m)
    requires Total(Jobs(s), m) == available
    ensures Balanced(s, available)
  {
    var js := Jobs(s);
    assert Assigned(s) == Volumes(js, m);
    forall k | 0 <= k < |s| ensures Bounded(s[k]) {
      assert Sane(js[k]);
      VolumeBounds(js[k], m);
    }
    forall i, k | 0 <= i < |s| && 0 <= k < |s| ensures FairPair(s[i], s[k]) {
      assert Sane(js[i]) && Sane(js[k]) && ShareFollows(js[i], js[k]);
      if s[i].priority >= s[k].priority && s[i].demand >= s[k].demand {
        VolumeIsFair(js[i], js[k], m);
      }
    }
    assert UniformAt(s, m, m);
  }

  /**
   The volumes are those at the lower multiplier, and one more for each of the entries from d to c,
   which are among the entries of highest priority whose volume at the upper multiplier is larger by one.
   */
  ghost predicate OneMore(s: seq<Entry>, d: nat, c: nat, l: real, r: real)
  {
    && d <= c <= |s|
    && (forall k :: 0 <= k < d ==> s[k].volume == Volume(JobOf(s[k]), l) == Volume(JobOf(s[k]), r))
    && (forall k :: d <= k < |s| ==>
          Volume(JobOf(s[k]), r) == Volume(JobOf(s[k]), l) + 1
          && s[k].volume == Volume(JobOf(s[k]), l) + if k < c then 1 else 0)
    && (forall i, k :: d <= i < k < |s| ==> s[i].priority >= s[k].priority)
  }

  lemma {:induction false} OneMoreSum(s: seq<Entry>, d: nat, c: nat, l: real, r: real, n: nat)
    requires OneMore(s, d, c, l, r) && n <= |s|
    ensures Sum(Assigned(s)[..n]) == Total(Jobs(s)[..n], l) + if n <= d then 0 else if n <= c then n - d else c - d
  {
    if n > 0 {
      OneMoreSum(s, d, c, l, r, n - 1);
      SumNext(Assigned(s), n - 1);
      TotalNext(Jobs(s), l, n - 1);
    }
  }

  lemma {:induction false} OneMoreIsFair(s: seq<Entry>, d: nat, c: nat, l: real, r: real, i: nat, k: nat)
    requires OneMore(s, d, c, l, r) && 0.0 < l < r && AllSane(Jobs(s)) && SharesFollowPriorities(Jobs(s))
    requires i < |s| && k < |s|
    ensures FairPair(s[i], s[k])
  {
    var js := Jobs(s);
    assert Sane(js[i]) && Sane(js[k]) && ShareFollows(js[i], js[k]);
    if s[i].priority >= s[k].priority && s[i].demand >= s[k].demand {
      VolumeIsFair(js[i], js[k], l);
      VolumeIsFair(js[i], js[k], r);
    }
  }

  lemma {:induction false} OneMoreIsUniform(s: seq<Entry>, d: nat, c: nat, l: real, r: real)
    requires OneMore(s, d, c, l, r) && 0.0 < l < r
    ensures UniformAt(s, l, r)
  {
    forall i, k | 0 <= i < |s| && 0 <= k < |s| ensures ServedFirst(s[i], s[k], l, r) {
      assert s[i].volume > Volume(JobOf(s[i]), l) ==> d <= i < c;
      assert s[k].volume < Volume(JobOf(s[k]), r) ==> c <= k;
    }
  }

  lemma {:induction false} OneMoreIsBalanced(s: seq<Entry>, d: nat, c: nat, l: real, r: real, available: int)
    requires OneMore(s, d, c, l, r) && 0.0 < l < r && AllSane(Jobs(s)) && SharesFollowPriorities(Jobs(s))
    requires Total(Jobs(s), l) == available - (c - d)
    ensures Balanced(s, available)
  {
    OneMoreSum(s, d, c, l, r, |s|);
    assert Assigned(s)[..|s|] == Assigned(s) && Jobs(s)[..|s|] == Jobs(s);
    forall k | 0 <= k < |s| ensures Bounded(s[k]) {
      assert Sane(Jobs(s)[k]);
      VolumeBounds(Jobs(s)[k], l);
      VolumeBounds(Jobs(s)[k], r);
    }
    forall i, k | 0 <= i < |s| && 0 <= k < |s| ensures FairPair(s[i], s[k]) {
      OneMoreIsFair(s, d, c, l, r, i, k);
    }
    OneMoreIsUniform(s, d, c, l, r);
  }

  /** The open jobs make up the difference between the totals at the bounds. */
  lemma {:induction false} OpenJobsCount(js: seq<Job>, d: nat, l: real, r: real, n: nat)
    requires n <= |js| && d <= |js|
    requires forall k :: 0 <= k < d ==> Volume(js[k], r) == Volume(js[k], l)
    requires forall k :: d <= k < |js| ==> Volume(js[k], r) == Volume(js[k], l) + 1
    ensures Total(js[..n], r) == Total(js[..n], l) + if n <= d then 0 else n - d
  {
    if n > 0 {
      OpenJobsCount(js, d, l, r, n - 1);
      TotalNext(js, l, n - 1);
      TotalNext(js, r, n - 1);
    }
  }
}
