/**
 One evaluation of the volume calculation's objective function, as calculateExcessVolumeOrNegative in
 src/balancing/volume_calculator.hpp performs it on its vector of entries.
 */
module ExcessCalculation {
  import opened Sums
  import opened BalancingEntries

  /** Both ends of the range assign the same volume to the job. */
  ghost predicate Settled(e: Entry, l: real, r: real, m: real)
  {
    var j := JobOf(e);
    Volume(j, l) == Volume(j, r) && e.volume == Volume(j, m)
  }

  /** The job's cached volumes are right, and the volumes at the bounds differ. */
  ghost predicate Open(e: Entry, l: real, r: real, m: real)
  {
    var j := JobOf(e);
    && Volume(j, l) != Volume(j, r)
    && e.volumeLower == Volume(j, l) && e.volume == Volume(j, m) && e.volumeUpper == Volume(j, r)
  }

  /** The first d entries are settled, the others are open. */
  ghost predicate Searched(s: seq<Entry>, d: nat, l: real, r: real, m: real)
  {
    && d <= |s|
    && (forall k {:trigger Settled(s[k], l, r, m)} :: 0 <= k < d ==> Settled(s[k], l, r, m))
    && (forall k {:trigger Open(s[k], l, r, m)} :: d <= k < |s| ==> Open(s[k], l, r, m))
  }

  /** The entry with the volumes at the bounds taken from the last evaluation. */
  function Cached(e: Entry, leftHalf: bool, rightHalf: bool): Entry
  {
    var e1 := if leftHalf then e.(volumeUpper := e.volume) else e;
    if rightHalf then e1.(volumeLower := e1.volume) else e1
  }

  /** The cached volumes of e are those at the bounds. */
  ghost predicate Ready(e: Entry, leftHalf: bool, rightHalf: bool, l: real, r: real)
  {
    var c := Cached(e, leftHalf, rightHalf);
    c.volumeLower == Volume(JobOf(e), l) && c.volumeUpper == Volume(JobOf(e), r)
  }

  /** Settled jobs stay settled in any smaller range. */
  lemma {:induction false} SettledInHalf(e: Entry, l: real, r: real, m: real, l': real, r': real, m': real)
    requires Sane(JobOf(e)) && 0.0 < l <= l' < m' < r' <= r && l <= m <= r && Settled(e, l, r, m)
    ensures Settled(e, l', r', m')
  {
    var j := JobOf(e);
    VolumeMonotone(j, l, l');
    VolumeMonotone(j, l', m');
    VolumeMonotone(j, m', r');
    VolumeMonotone(j, r', r);
    VolumeMonotone(j, l, m);
    VolumeMonotone(j, m, r);
  }

  /** The state of the loop over all entries, before entry i is considered. */
  ghost predicate Passed(s0: seq<Entry>, s: seq<Entry>, d: nat, i: nat, l: real, r: real, m: real)
  {
    && |s| == |s0| && d <= i <= |s|
    && (forall k {:trigger Settled(s[k], l, r, m)} :: 0 <= k < d ==> Settled(s[k], l, r, m))
    && (forall k {:trigger Open(s[k], l, r, m)} :: d <= k < i ==> Open(s[k], l, r, m))
    && s[i..] == s0[i..]
    && multiset(Jobs(s)) == multiset(Jobs(s0))
  }

  /** The utilization counter is right unless it exceeds the available volume. */
  predicate Counts(util: int, total: int, available: int)
  {
    if total <= available then util == total else util > available
  }

  ghost predicate Utilized(s: seq<Entry>, d: nat, i: nat, m: real, base: int, util: int, available: int)
  {
    && d <= i <= |s|
    && base == Total(Jobs(s)[..d], m)
    && Counts(util, Total(Jobs(s)[..i], m), available)
  }

  /** How much the volume of a job differs between the bounds. */
  function Width(j: Job, l: real, r: real): int
  {
    Volume(j, r) - Volume(j, l)
  }

  /** The largest difference among the open jobs so far. */
  ghost predicate LargestDifference(s: seq<Entry>, d: nat, i: nat, l: real, r: real, diff: int)
    requires i <= |s|
  {
    && diff >= 0
    && (forall k {:trigger Width(JobOf(s[k]), l, r)} :: d <= k < i ==> Width(JobOf(s[k]), l, r) <= diff)
    && (diff > 0 ==> exists k {:trigger Width(JobOf(s[k]), l, r)} :: d <= k < i && Width(JobOf(s[k]), l, r) == diff)
  }

  // ---------------------------------------------------------------------
  // One entry is dismissed
  // ---------------------------------------------------------------------

  function AfterDismissal(s: seq<Entry>, d: nat, i: nat, e: Entry): seq<Entry>
    requires d <= i < |s|
  {
    var s1 := s[i := e];
    s1[i := Dismissed(e, s1[d]).0][d := Dismissed(e, s1[d]).1]
  }

  lemma {:induction false} SwapPermutes<X>(a: seq<X>, i: nat, k: nat)
    requires i < |a| && k < |a|
    ensures multiset(Swapped(a, i, k)) == multiset(a)
  {
  }

  lemma {:induction false} DismissalSwaps(s: seq<Entry>, d: nat, i: nat, e: Entry)
    requires d <= i < |s| && JobOf(e) == JobOf(s[i])
    ensures Jobs(AfterDismissal(s, d, i, e)) == Swapped(Jobs(s), i, d)
  {
  }

  lemma {:induction false} DismissalPasses(s0: seq<Entry>, s: seq<Entry>, d: nat, i: nat, e: Entry, l: real, r: real,
      m: real)
    requires Passed(s0, s, d, i, l, r, m) && i < |s|
    requires JobOf(e) == JobOf(s[i]) && Settled(e, l, r, m)
    ensures Passed(s0, AfterDismissal(s, d, i, e), d + 1, i + 1, l, r, m)
  {
    DismissalSwaps(s, d, i, e);
    SwapPermutes(Jobs(s), i, d);
    var s' := AfterDismissal(s, d, i, e);
    forall k | d + 1 <= k < i + 1 ensures Open(s'[k], l, r, m) {
      assert Open(s[if k == i then d else k], l, r, m);
    }
    forall k | 0 <= k < d + 1 ensures Settled(s'[k], l, r, m) {
      assert k < d ==> Settled(s[k], l, r, m);
    }
    assert s'[i + 1..] == s[i..][1..] == s0[i + 1..];
  }

  lemma {:induction false} DismissalCounts(s: seq<Entry>, d: nat, i: nat, e: Entry, m: real, base: int, util: int,
      available: int)
    requires d <= i < |s| && Utilized(s, d, i, m, base, util, available)
    requires JobOf(e) == JobOf(s[i]) && Volume(JobOf(e), m) >= 0
    ensures Utilized(AfterDismissal(s, d, i, e), d + 1, i + 1, m,
                     base + Volume(JobOf(e), m), util + Volume(JobOf(e), m), available)
  {
    var js, js' := Jobs(s), Jobs(AfterDismissal(s, d, i, e));
    DismissalSwaps(s, d, i, e);
    TotalNext(js', m, d);
    assert js'[..d] == js[..d];
    TotalNext(js, m, i);
    TotalSwapped(js[..i + 1], m, i, d);
    assert js'[..i + 1] == Swapped(js[..i + 1], i, d);
  }

  // ---------------------------------------------------------------------
  // One entry is evaluated
  // ---------------------------------------------------------------------

  lemma {:induction false} EvaluationPasses(s0: seq<Entry>, s: seq<Entry>, d: nat, i: nat, e: Entry, l: real, r: real,
      m: real)
    requires Passed(s0, s, d, i, l, r, m) && i < |s|
    requires JobOf(e) == JobOf(s[i]) && Open(e, l, r, m)
    ensures Passed(s0, s[i := e], d, i + 1, l, r, m)
  {
    var s' := s[i := e];
    assert Jobs(s') == Jobs(s);
    forall k | d <= k < i + 1 ensures Open(s'[k], l, r, m) {
      assert k < i ==> Open(s[k], l, r, m);
    }
    forall k | 0 <= k < d ensures Settled(s'[k], l, r, m) {
      assert Settled(s[k], l, r, m);
    }
    assert s'[i + 1..] == s[i..][1..] == s0[i + 1..];
  }

  lemma {:induction false} EvaluationCounts(s: seq<Entry>, d: nat, i: nat, e: Entry, m: real, base: int, util: int,
      available: int)
    requires d <= i < |s| && Utilized(s, d, i, m, base, util, available)
    requires JobOf(e) == JobOf(s[i]) && Volume(JobOf(e), m) >= 0
    ensures Utilized(s[i := e], d, i + 1, m, base,
                     if util <= available then util + Volume(JobOf(e), m) else util, available)
  {
    assert Jobs(s[i := e]) == Jobs(s);
    TotalNext(Jobs(s), m, i);
  }

  lemma {:induction false} EvaluationDiffers(s: seq<Entry>, d: nat, i: nat, e: Entry, l: real, r: real, diff: int)
    requires d <= i < |s| && LargestDifference(s, d, i, l, r, diff)
    requires JobOf(e) == JobOf(s[i])
    ensures var x := Width(JobOf(e), l, r);
      LargestDifference(s[i := e], d, i + 1, l, r, if diff < x then x else diff)
  {
    var x := Width(JobOf(e), l, r);
    var s' := s[i := e];
    if diff < x {
      assert Width(JobOf(s'[i]), l, r) == x;
    } else if diff > 0 {
      var k :| d <= k < i && Width(JobOf(s[k]), l, r) == diff;
      assert Width(JobOf(s'[k]), l, r) == diff;
    }
  }

  /** Dismissing entry i moves the first open entry to position i. */
  lemma {:induction false} DismissalDiffers(s: seq<Entry>, d: nat, i: nat, e: Entry, l: real, r: real, diff: int)
    requires d <= i < |s| && LargestDifference(s, d, i, l, r, diff)
    requires JobOf(e) == JobOf(s[i])
    ensures LargestDifference(AfterDismissal(s, d, i, e), d + 1, i + 1, l, r, diff)
  {
    DismissalSwaps(s, d, i, e);
    var s' := AfterDismissal(s, d, i, e);
    assert forall k :: d + 1 <= k < i + 1 ==> JobOf(s'[k]) == JobOf(s[if k == i then d else k]);
    if diff > 0 {
      var k :| d <= k < i && Width(JobOf(s[k]), l, r) == diff;
      var k' := if k == d then i else k;
      assert Width(JobOf(s'[k']), l, r) == diff;
    }
  }

  // ---------------------------------------------------------------------
  // One pass over the entries
  // ---------------------------------------------------------------------

  datatype Counters = Counters(dismissed: nat, base: int, utilization: int, diff: int)

  /** Where the pass is: the bounds, the multiplier, and which bound the last evaluation was at. */
  datatype Range = Range(l: real, r: real, m: real, leftHalf: bool, rightHalf: bool)

  /** The effect of considering entry i. */
  function Considered(s: seq<Entry>, i: nat, g: Range, c: Counters, available: int): (seq<Entry>, Counters)
    requires c.dismissed <= i < |s|
  {
    var e := Cached(s[i], g.leftHalf, g.rightHalf);
    if e.volumeLower == e.volumeUpper then
      (AfterDismissal(s, c.dismissed, i, e.(volume := e.volumeLower)),
       Counters(c.dismissed + 1, c.base + e.volumeLower, c.utilization + e.volumeLower, c.diff))
    else
      var v, x := Volume(JobOf(e), g.m), e.volumeUpper - e.volumeLower;
      (s[i := e.(volume := v)],
       c.(utilization := if c.utilization <= available then c.utilization + v else c.utilization,
          diff := if c.diff < x then x else c.diff))
  }

  ghost predicate Waiting(s0: seq<Entry>, i: nat, g: Range)
  {
    && 0.0 < g.l < g.m < g.r && AllSane(Jobs(s0))
    && forall k {:trigger Ready(s0[k], g.leftHalf, g.rightHalf, g.l, g.r)} ::
         i <= k < |s0| ==> Ready(s0[k], g.leftHalf, g.rightHalf, g.l, g.r)
  }

  ghost predicate Progress(s0: seq<Entry>, s: seq<Entry>, i: nat, g: Range, c: Counters, available: int)
  {
    && Waiting(s0, i, g)
    && Passed(s0, s, c.dismissed, i, g.l, g.r, g.m)
    && Utilized(s, c.dismissed, i, g.m, c.base, c.utilization, available)
    && LargestDifference(s, c.dismissed, i, g.l, g.r, c.diff)
  }

  lemma {:induction false} DismissalKeeps(s0: seq<Entry>, s: seq<Entry>, i: nat, g: Range, c: Counters, available: int,
      e: Entry)
    requires Progress(s0, s, i, g, c, available) && i < |s|
    requires JobOf(e) == JobOf(s[i]) && Settled(e, g.l, g.r, g.m) && Volume(JobOf(e), g.m) == e.volume >= 0
    ensures Progress(s0, AfterDismissal(s, c.dismissed, i, e), i + 1, g,
      Counters(c.dismissed + 1, c.base + e.volume, c.utilization + e.volume, c.diff), available)
  {
    DismissalCounts(s, c.dismissed, i, e, g.m, c.base, c.utilization, available);
    DismissalPasses(s0, s, c.dismissed, i, e, g.l, g.r, g.m);
    DismissalDiffers(s, c.dismissed, i, e, g.l, g.r, c.diff);
  }

  lemma {:induction false} EvaluationKeeps(s0: seq<Entry>, s: seq<Entry>, i: nat, g: Range, c: Counters, available: int,
      e: Entry, v: int, x: int)
    requires Progress(s0, s, i, g, c, available) && i < |s|
    requires JobOf(e) == JobOf(s[i]) && Open(e, g.l, g.r, g.m) && v == Volume(JobOf(e), g.m) >= 0
    requires x == Width(JobOf(e), g.l, g.r)
    ensures Progress(s0, s[i := e], i + 1, g,
      c.(utilization := if c.utilization <= available then c.utilization + v else c.utilization,
         diff := if c.diff < x then x else c.diff), available)
  {
    EvaluationCounts(s, c.dismissed, i, e, g.m, c.base, c.utilization, available);
    EvaluationPasses(s0, s, c.dismissed, i, e, g.l, g.r, g.m);
    EvaluationDiffers(s, c.dismissed, i, e, g.l, g.r, c.diff);
  }

  /** The next entry, with its volumes at both ends of the range. */
  lemma {:induction false} NextEntry(s0: seq<Entry>, s: seq<Entry>, i: nat, g: Range, c: Counters, available: int)
    returns (e: Entry)
    requires Progress(s0, s, i, g, c, available) && i < |s|
    ensures e == Cached(s[i], g.leftHalf, g.rightHalf) && JobOf(e) == JobOf(s[i]) && Volume(JobOf(e), g.m) >= 1
    ensures e.volumeLower == e.volumeUpper ==>
      e.volumeLower == Volume(JobOf(e), g.m) && Settled(e.(volume := e.volumeLower), g.l, g.r, g.m)
    ensures e.volumeLower != e.volumeUpper ==>
      Open(e.(volume := Volume(JobOf(e), g.m)), g.l, g.r, g.m)
      && e.volumeUpper - e.volumeLower == Width(JobOf(e), g.l, g.r)
  {
    assert s[i] == s[i..][0] == s0[i];
    assert Sane(Jobs(s0)[i]) && Ready(s0[i], g.leftHalf, g.rightHalf, g.l, g.r);
    e := Cached(s[i], g.leftHalf, g.rightHalf);
    CachedIsRight(e, g.l, g.r, g.m);
  }

  lemma {:induction false} ConsideredKeeps(s0: seq<Entry>, s: seq<Entry>, i: nat, g: Range, c: Counters, available: int)
    requires Progress(s0, s, i, g, c, available) && i < |s|
    ensures var (s', c') := Considered(s, i, g, c, available); Progress(s0, s', i + 1, g, c', available)
  {
    var e := NextEntry(s0, s, i, g, c, available);
    if e.volumeLower == e.volumeUpper {
      DismissalKeeps(s0, s, i, g, c, available, e.(volume := e.volumeLower));
    } else {
      var v, x := Volume(JobOf(e), g.m), e.volumeUpper - e.volumeLower;
      EvaluationKeeps(s0, s, i, g, c, available, e.(volume := v), v, x);
    }
  }

  lemma {:induction false} CachedIsRight(e: Entry, l: real, r: real, m: real)
    requires Sane(JobOf(e)) && 0.0 < l < m < r
    requires e.volumeLower == Volume(JobOf(e), l) && e.volumeUpper == Volume(JobOf(e), r)
    ensures Volume(JobOf(e), m) >= 1
    ensures e.volumeLower == e.volumeUpper ==> Settled(e.(volume := e.volumeLower), l, r, m)
    ensures e.volumeLower != e.volumeUpper ==> Open(e.(volume := Volume(JobOf(e), m)), l, r, m)
    ensures e.volumeLower == e.volumeUpper ==> e.volumeLower == Volume(JobOf(e), m)
  {
    VolumeBounds(JobOf(e), m);
    VolumeMonotone(JobOf(e), l, m);
    VolumeMonotone(JobOf(e), m, r);
  }

  /** The results of the last evaluation, seen from one half of its range. */
  lemma {:induction false} HalfIsReady(s: seq<Entry>, d: nat, lb: real, ub: real, mid: real, g: Range, base: int,
      available: int)
    requires 0.0 < lb < mid < ub && 0.0 < g.l < g.m < g.r && Searched(s, d, lb, ub, mid) && AllSane(Jobs(s))
    requires (g.l == lb && g.r == mid) || (g.l == mid && g.r == ub)
    requires g.leftHalf == (g.l == lb) && g.rightHalf == (g.r == ub)
    requires base == Total(Jobs(s)[..d], mid)
    ensures Progress(s, s, d, g, Counters(d, base, base, 0), available)
  {
    var js := Jobs(s);
    forall k | 0 <= k < d ensures Settled(s[k], g.l, g.r, g.m) {
      assert Sane(js[k]);
      assert Settled(s[k], lb, ub, mid);
      SettledInHalf(s[k], lb, ub, mid, g.l, g.r, g.m);
    }
    forall k | d <= k < |s| ensures Ready(s[k], g.leftHalf, g.rightHalf, g.l, g.r) {
      assert Open(s[k], lb, ub, mid);
    }
    SettledSum(s, d, lb, ub, mid, g);
  }

  lemma {:induction false} SettledSum(s: seq<Entry>, d: nat, lb: real, ub: real, mid: real, g: Range)
    requires Searched(s, d, lb, ub, mid)
    requires forall k {:trigger Settled(s[k], g.l, g.r, g.m)} :: 0 <= k < d ==> Settled(s[k], g.l, g.r, g.m)
    ensures Total(Jobs(s)[..d], g.m) == Total(Jobs(s)[..d], mid)
  {
    var js := Jobs(s)[..d];
    forall k | 0 <= k < d ensures Volume(js[k], g.m) == Volume(js[k], mid) {
      assert js[k] == Jobs(s)[k];
      assert Settled(s[k], lb, ub, mid) && Settled(s[k], g.l, g.r, g.m);
    }
    assert Volumes(js, g.m) == Volumes(js, mid);
  }

  /** The first evaluation, with the volumes at the bounds just computed. */
  lemma {:induction false} FirstIsReady(s: seq<Entry>, js: seq<Job>, g: Range, available: int)
    requires 0.0 < g.l < g.m < g.r && AllSane(js) && !g.leftHalf && !g.rightHalf && |js| == |s|
    requires forall k :: 0 <= k < |s| ==>
      JobOf(s[k]) == js[k] && s[k].volumeLower == Volume(js[k], g.l) && s[k].volumeUpper == Volume(js[k], g.r)
    ensures Jobs(s) == js && Progress(s, s, 0, g, Counters(0, 0, 0, 0), available)
  {
    assert Jobs(s) == js;
    assert js[..0] == [];
    assert Counts(0, 0, available);
  }

  /** After the pass. */
  lemma {:induction false} PassedAll(s0: seq<Entry>, s: seq<Entry>, g: Range, c: Counters, available: int)
    requires Progress(s0, s, |s|, g, c, available)
    ensures Searched(s, c.dismissed, g.l, g.r, g.m) && multiset(Jobs(s)) == multiset(Jobs(s0))
    ensures Counts(c.utilization, Total(Jobs(s), g.m), available)
    ensures c.base == Total(Jobs(s)[..c.dismissed], g.m)
  {
    assert Jobs(s)[..|s|] == Jobs(s);
  }
}
