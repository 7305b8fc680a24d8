/** The entries of the volume calculation (BalancingEntry in src/balancing/balancing_entry.hpp). */
module BalancingEntries {
  import opened Sums

  datatype Entry = Entry(
    jobId: int, demand: int, originalDemand: int, priority: real, fairShare: real,
    volumeLower: int, volume: int, volumeUpper: int)

  /** The fields of an entry which describe its job. */
  datatype Job = Job(jobId: int, demand: int, priority: real, fairShare: real)

  function NewEntry(jobId: int, demand: int, priority: real): Entry
  {
    Entry(jobId, demand, demand, priority, 0.0, 1, 1, 1)
  }

  function JobOf(e: Entry): Job
  {
    Job(e.jobId, e.demand, e.priority, e.fairShare)
  }

  predicate Sane(j: Job)
  {
    j.demand >= 1 && j.fairShare > 0.0
  }

  /** getVolume, including its protection against overflows. */
  function Volume(j: Job, multiplier: real): int
  {
    var fair :=
      if multiplier >= j.demand as real && j.fairShare >= 1.0 then j.demand
      else if multiplier >= 1.0 && j.fairShare >= j.demand as real then j.demand
      else (multiplier * j.fairShare).Floor;
    if j.demand < fair then (if j.demand < 1 then 1 else j.demand)
    else if fair < 1 then 1 else fair
  }

  lemma {:induction false} ProductMonotone(a: real, b: real, c: real, d: real)
    requires 0.0 <= a <= b && 0.0 <= c <= d
    ensures a * c <= b * d
  {
    assert a * c <= b * c;
    assert b * c <= b * d;
  }

  lemma {:induction false} FloorMonotone(a: real, b: real)
    requires a <= b
    ensures a.Floor <= b.Floor
  {
  }

  /** The overflow protection does not change the result. */
  lemma {:induction false} VolumeIsClamped(j: Job, m: real)
    requires Sane(j) && m > 0.0
    ensures var f := (m * j.fairShare).Floor;
      Volume(j, m) == if f < 1 then 1 else if f > j.demand then j.demand else f
  {
    var d := j.demand as real;
    if m >= d && j.fairShare >= 1.0 {
      ProductMonotone(d, m, 1.0, j.fairShare);
      FloorMonotone(d, m * j.fairShare);
    } else if m >= 1.0 && j.fairShare >= d {
      ProductMonotone(1.0, m, d, j.fairShare);
      FloorMonotone(d, m * j.fairShare);
    }
  }

  lemma {:induction false} VolumeBounds(j: Job, m: real)
    requires Sane(j) && m > 0.0
    ensures 1 <= Volume(j, m) <= j.demand
  {
    VolumeIsClamped(j, m);
  }

  lemma {:induction false} VolumeMonotone(j: Job, m: real, m': real)
    requires Sane(j) && 0.0 < m <= m'
    ensures Volume(j, m) <= Volume(j, m')
  {
    VolumeIsClamped(j, m);
    VolumeIsClamped(j, m');
    ProductMonotone(m, m', j.fairShare, j.fairShare);
    FloorMonotone(m * j.fairShare, m' * j.fairShare);
  }

  /** A job with at least the same fair share and demand does not receive less. */
  lemma {:induction false} VolumeIsFair(a: Job, b: Job, m: real)
    requires Sane(a) && Sane(b) && m > 0.0 && a.fairShare >= b.fairShare && a.demand >= b.demand
    ensures Volume(a, m) >= Volume(b, m)
  {
    var x, y := m * a.fairShare, m * b.fairShare;
    assert y.Floor <= x.Floor by {
      ProductMonotone(m, m, b.fairShare, a.fairShare);
      FloorMonotone(y, x);
    }
    VolumeIsClamped(a, m);
    VolumeIsClamped(b, m);
  }

  lemma {:induction false} VolumeAtLowest(j: Job, m: real)
    requires Sane(j) && m > 0.0 && m * j.fairShare <= 1.0
    ensures Volume(j, m) == 1
  {
    VolumeIsClamped(j, m);
  }

  lemma {:induction false} VolumeAtHighest(j: Job, m: real)
    requires Sane(j) && m > 0.0 && m * j.fairShare >= j.demand as real
    ensures Volume(j, m) == j.demand
  {
    VolumeIsClamped(j, m);
  }

  /** If the volume differs by more than one, the multipliers are far apart. */
  lemma {:induction false} VolumeSpread(j: Job, m: real, m': real, share: real)
    requires Sane(j) && 0.0 < m <= m' && j.fairShare <= share
    requires Volume(j, m') - Volume(j, m) >= 2
    ensures (m' - m) * share > 1.0
  {
    VolumeIsClamped(j, m);
    VolumeIsClamped(j, m');
    assert m' * j.fairShare - m * j.fairShare > 1.0;
    assert m' * j.fairShare - m * j.fairShare == (m' - m) * j.fairShare;
    ProductMonotone(m' - m, m' - m, j.fairShare, share);
  }

  ghost function Jobs(s: seq<Entry>): (js: seq<Job>)
    ensures |js| == |s|
    ensures forall k {:trigger js[k]} :: 0 <= k < |s| ==> js[k] == JobOf(s[k])
  {
    seq(|s|, k requires 0 <= k < |s| => JobOf(s[k]))
  }

  lemma {:induction false} JobsPermute(s: seq<Entry>, t: seq<Entry>)
    requires multiset(s) == multiset(t)
    ensures multiset(Jobs(s)) == multiset(Jobs(t))
    decreases |s|
  {
    if s == [] {
      PermutationOfEmpty(s, t);
    } else {
      var k, t' := RemoveLast(s, t);
      JobsPermute(s[..|s| - 1], t');
      var j := JobOf(t[k]);
      assert Jobs(s) == Jobs(s[..|s| - 1]) + [j];
      assert Jobs(t) == Jobs(t[..k]) + [j] + Jobs(t[k + 1..]);
      assert Jobs(t') == Jobs(t[..k]) + Jobs(t[k + 1..]);
    }
  }

  /** The volumes of all jobs for a certain multiplier. */
  ghost function Volumes(js: seq<Job>, m: real): (vs: seq<int>)
    ensures |vs| == |js|
    ensures forall k {:trigger vs[k]} :: 0 <= k < |js| ==> vs[k] == Volume(js[k], m)
  {
    seq(|js|, k requires 0 <= k < |js| => Volume(js[k], m))
  }

  ghost function Total(js: seq<Job>, m: real): int
  {
    Sum(Volumes(js, m))
  }

  lemma {:induction false} TotalNext(js: seq<Job>, m: real, i: nat)
    requires i < |js|
    ensures Total(js[..i + 1], m) == Total(js[..i], m) + Volume(js[i], m)
  {
    var vs := Volumes(js, m);
    SumNext(vs, i);
    assert Volumes(js[..i + 1], m) == vs[..i + 1] && Volumes(js[..i], m) == vs[..i];
  }

  lemma {:induction false} TotalSwapped(js: seq<Job>, m: real, i: nat, k: nat)
    requires i < |js| && k < |js|
    ensures Total(Swapped(js, i, k), m) == Total(js, m)
  {
    SumSwapped(Volumes(js, m), i, k);
    assert Volumes(Swapped(js, i, k), m) == Swapped(Volumes(js, m), i, k);
  }

  lemma {:induction false} VolumesPermute(js: seq<Job>, js': seq<Job>, m: real)
    requires multiset(js) == multiset(js')
    ensures multiset(Volumes(js, m)) == multiset(Volumes(js', m))
    decreases |js|
  {
    if js == [] {
      PermutationOfEmpty(js, js');
    } else {
      var k, js'' := RemoveLast(js, js');
      VolumesPermute(js[..|js| - 1], js'', m);
      VolumesRemove(js, |js| - 1, m);
      VolumesRemove(js', k, m);
      assert js[..|js| - 1] + js[|js|..] == js[..|js| - 1];
    }
  }

  lemma {:induction false} VolumesRemove(js: seq<Job>, k: nat, m: real)
    requires k < |js|
    ensures multiset(Volumes(js, m)) == multiset(Volumes(js[..k] + js[k + 1..], m)) + multiset{Volume(js[k], m)}
  {
    var vs := Volumes(js, m);
    assert vs == vs[..k] + [vs[k]] + vs[k + 1..];
    assert Volumes(js[..k] + js[k + 1..], m) == vs[..k] + vs[k + 1..];
  }

  lemma {:induction false} TotalPermutation(js: seq<Job>, js': seq<Job>, m: real)
    requires multiset(js) == multiset(js')
    ensures Total(js, m) == Total(js', m)
  {
    VolumesPermute(js, js', m);
    SumPermutation(Volumes(js, m), Volumes(js', m));
  }

  /** The volumes which have been assigned. */
  function Assigned(s: seq<Entry>): (vs: seq<int>)
    ensures |vs| == |s|
    ensures forall k {:trigger vs[k]} :: 0 <= k < |s| ==> vs[k] == s[k].volume
  {
    seq(|s|, k requires 0 <= k < |s| => s[k].volume)
  }

  ghost predicate AllSane(js: seq<Job>)
  {
    forall k {:trigger Sane(js[k])} :: 0 <= k < |js| ==> Sane(js[k])
  }

  /** dismissAndSwapWith: the entries of the dismissed job and of the other job, after the swap. */
  function Dismissed(e: Entry, other: Entry): (r: (Entry, Entry))
    ensures JobOf(r.0) == JobOf(other) && JobOf(r.1) == JobOf(e)
    ensures r.0.volume == other.volume && r.0.volumeLower == other.volumeLower && r.0.volumeUpper == other.volumeUpper
    ensures r.1.volume == e.volume && r.1.volumeLower == other.volumeLower && r.1.volumeUpper == other.volumeUpper
    ensures r.0.originalDemand == e.originalDemand && r.1.originalDemand == other.originalDemand
  {
    (e.(jobId := other.jobId, demand := other.demand, priority := other.priority, fairShare := other.fairShare,
        volume := other.volume, volumeLower := other.volumeLower, volumeUpper := other.volumeUpper),
     other.(jobId := e.jobId, demand := e.demand, priority := e.priority, fairShare := e.fairShare, volume := e.volume))
  }
}
