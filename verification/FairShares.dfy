/** The fair shares and the range of multipliers (computeFairShares in src/balancing/volume_calculator.hpp). */
module FairShares {
  import opened Sums
  import opened BalancingEntries
  import opened Assignments

  const EPSILON: real := 0.000001
  const INT32_MAX: real := 2147483647.0

  /** The share of a job with this priority. */
  function Share(priority: real, sumOfPriorities: real, available: nat): real
    requires sumOfPriorities > 0.0
  {
    priority / sumOfPriorities * available as real
  }

  function Min(a: int, b: int): int { if b < a then b else a }

  /** The entry with its fair share, and with its demand capped at the largest reachable volume. */
  function FairEntry(e: Entry, sumOfPriorities: real, available: nat, n: nat): Entry
    requires sumOfPriorities > 0.0
  {
    e.(fairShare := Share(e.priority, sumOfPriorities, available), demand := Min(e.demand, available - n + 1))
  }

  /** getFairShareMultiplierLowerBound and getFairShareMultiplierUpperBound */
  function LowerBound(j: Job): real
    requires Sane(j)
  {
    1.0 / j.fairShare
  }

  function UpperBound(j: Job): real
    requires Sane(j)
  {
    j.demand as real / j.fairShare
  }

  // ---------------------------------------------------------------------
  // The bounds of one job
  // ---------------------------------------------------------------------

  lemma {:induction false} BoundFacts(j: Job)
    requires Sane(j)
    ensures LowerBound(j) * j.fairShare == 1.0 && UpperBound(j) * j.fairShare == j.demand as real
    ensures 0.0 < LowerBound(j) <= UpperBound(j)
  {
    var f, d := j.fairShare, j.demand as real;
    assert 1.0 / f * f == 1.0;
    assert d / f * f == d;
  }

  /** Every multiplier up to the lower bound yields the volume one: the first assertion of the loop. */
  lemma {:induction false} LowestVolume(j: Job, m: real)
    requires Sane(j) && 0.0 < m <= LowerBound(j)
    ensures Volume(j, m) == 1
  {
    BoundFacts(j);
    ProductMonotone(m, LowerBound(j), j.fairShare, j.fairShare);
    VolumeAtLowest(j, m);
  }

  /** Every multiplier from the upper bound on yields the full demand: the second assertion of the loop. */
  lemma {:induction false} HighestVolume(j: Job, m: real)
    requires Sane(j) && UpperBound(j) <= m
    ensures Volume(j, m) == j.demand
  {
    BoundFacts(j);
    ProductMonotone(UpperBound(j), m, j.fairShare, j.fairShare);
    VolumeAtHighest(j, m);
  }

  lemma {:induction false} BigShareLowersBound(j: Job)
    requires Sane(j)
    ensures j.fairShare > 1.0 ==> LowerBound(j) < 1.0
    ensures j.demand as real > j.fairShare ==> UpperBound(j) > 1.0
  {
    BoundFacts(j);
    var l, u := LowerBound(j), UpperBound(j);
    if l >= 1.0 { ProductMonotone(1.0, l, j.fairShare, j.fairShare); }
    if u <= 1.0 { ProductMonotone(u, 1.0, j.fairShare, j.fairShare); }
  }

  // ---------------------------------------------------------------------
  // The range of multipliers of all jobs
  // ---------------------------------------------------------------------

  lemma {:induction false} SanePrefix(js: seq<Job>, k: nat)
    requires AllSane(js) && k <= |js|
    ensures AllSane(js[..k]) && (k < |js| ==> Sane(js[k]))
  {
    forall i | 0 <= i < k ensures Sane(js[..k][i]) {
      assert Sane(js[i]);
    }
  }

  function LowestMultiplier(js: seq<Job>): real
    requires AllSane(js)
  {
    if js == [] then INT32_MAX
    else
      SanePrefix(js, |js| - 1);
      var rest, lb := LowestMultiplier(js[..|js| - 1]), LowerBound(js[|js| - 1]);
      if lb < rest then lb else rest
  }

  function HighestMultiplier(js: seq<Job>): real
    requires AllSane(js)
  {
    if js == [] then 0.0
    else
      SanePrefix(js, |js| - 1);
      var rest, ub := HighestMultiplier(js[..|js| - 1]), UpperBound(js[|js| - 1]);
      if rest < ub then ub else rest
  }

  /** The middles of the jobs' ranges of multipliers. */
  ghost function Centers(js: seq<Job>): (cs: seq<real>)
    requires AllSane(js)
    ensures |cs| == |js|
    ensures forall k {:trigger cs[k]} :: 0 <= k < |js| ==>
      Sane(js[k]) && cs[k] == (LowerBound(js[k]) + UpperBound(js[k])) / 2.0
  {
    seq(|js|, k requires 0 <= k < |js| => assert Sane(js[k]); (LowerBound(js[k]) + UpperBound(js[k])) / 2.0)
  }

  ghost function Shares(js: seq<Job>): (xs: seq<real>)
    ensures |xs| == |js|
    ensures forall k {:trigger xs[k]} :: 0 <= k < |js| ==> xs[k] == js[k].fairShare
  {
    seq(|js|, k requires 0 <= k < |js| => js[k].fairShare)
  }

  ghost function Demands(js: seq<Job>): (ds: seq<int>)
    ensures |ds| == |js|
    ensures forall k {:trigger ds[k]} :: 0 <= k < |js| ==> ds[k] == js[k].demand
  {
    seq(|js|, k requires 0 <= k < |js| => js[k].demand)
  }

  ghost function Priorities(js: seq<Job>): (ps: seq<real>)
    ensures |ps| == |js|
    ensures forall k {:trigger ps[k]} :: 0 <= k < |js| ==> ps[k] == js[k].priority
  {
    seq(|js|, k requires 0 <= k < |js| => js[k].priority)
  }

  ghost predicate NoneBelow(js: seq<Job>, l: real)
  {
    forall k {:trigger Sane(js[k])} :: 0 <= k < |js| ==> Sane(js[k]) && l <= LowerBound(js[k])
  }

  ghost predicate NoneAbove(js: seq<Job>, h: real)
  {
    forall k {:trigger Sane(js[k])} :: 0 <= k < |js| ==> Sane(js[k]) && UpperBound(js[k]) <= h
  }

  lemma {:induction false} NoneAboveMore(js: seq<Job>, h: real, h': real)
    requires NoneAbove(js, h) && h <= h'
    ensures NoneAbove(js, h')
  {
    forall k | 0 <= k < |js| ensures Sane(js[k]) && UpperBound(js[k]) <= h' {
      assert Sane(js[k]);
    }
  }

  lemma {:induction false} LowestFacts(js: seq<Job>)
    requires AllSane(js)
    ensures LowestMultiplier(js) > 0.0
    ensures NoneBelow(js, LowestMultiplier(js))
  {
    if js != [] {
      var n := |js| - 1;
      SanePrefix(js, n);
      LowestFacts(js[..n]);
      BoundFacts(js[n]);
      forall k | 0 <= k < |js| ensures Sane(js[k]) && LowestMultiplier(js) <= LowerBound(js[k]) {
        assert k < n ==> Sane(js[..n][k]);
      }
    }
  }

  lemma {:induction false} HighestFacts(js: seq<Job>)
    requires AllSane(js)
    ensures NoneAbove(js, HighestMultiplier(js))
  {
    if js != [] {
      var n := |js| - 1;
      SanePrefix(js, n);
      HighestFacts(js[..n]);
      forall k | 0 <= k < |js| ensures Sane(js[k]) && UpperBound(js[k]) <= HighestMultiplier(js) {
        assert k < n ==> Sane(js[..n][k]);
      }
    }
  }

  /** One more job extends the range and the sums. */
  lemma {:induction false} RangeNext(js: seq<Job>, i: nat)
    requires AllSane(js) && i < |js|
    ensures Sane(js[i]) && AllSane(js[..i]) && AllSane(js[..i + 1])
    ensures var l, lb := LowestMultiplier(js[..i]), LowerBound(js[i]);
      LowestMultiplier(js[..i + 1]) == if lb < l then lb else l
    ensures var h, ub := HighestMultiplier(js[..i]), UpperBound(js[i]);
      HighestMultiplier(js[..i + 1]) == if h < ub then ub else h
    ensures RealSum(Centers(js[..i + 1])) == RealSum(Centers(js[..i])) + (LowerBound(js[i]) + UpperBound(js[i])) / 2.0
    ensures Sum(Demands(js[..i + 1])) == Sum(Demands(js[..i])) + js[i].demand
  {
    SanePrefix(js, i);
    SanePrefix(js, i + 1);
    assert js[..i + 1][..i] == js[..i];
    CentersNext(js, i);
    SumNext(Demands(js), i);
    assert Demands(js[..i + 1]) == Demands(js)[..i + 1] && Demands(js[..i]) == Demands(js)[..i];
  }

  /** What the loop over all entries computes. */
  ghost predicate RangeOf(js: seq<Job>, lowest: real, highest: real, center: real, demands: int)
  {
    && AllSane(js) && lowest == LowestMultiplier(js) && highest == HighestMultiplier(js)
    && center == RealSum(Centers(js)) && demands == Sum(Demands(js))
  }

  lemma {:induction false} RangeStep(js: seq<Job>, i: nat, lowest: real, highest: real, center: real, demands: int)
    requires AllSane(js) && i < |js| && RangeOf(js[..i], lowest, highest, center, demands)
    ensures Sane(js[i])
    ensures var lb, ub := LowerBound(js[i]), UpperBound(js[i]);
      RangeOf(js[..i + 1], if lb < lowest then lb else lowest, if highest < ub then ub else highest,
              center + (lb + ub) / 2.0, demands + js[i].demand)
  {
    RangeNext(js, i);
  }

  lemma {:induction false} CentersNext(js: seq<Job>, i: nat)
    requires AllSane(js) && i < |js| && AllSane(js[..i]) && AllSane(js[..i + 1]) && Sane(js[i])
    ensures RealSum(Centers(js[..i + 1])) == RealSum(Centers(js[..i])) + (LowerBound(js[i]) + UpperBound(js[i])) / 2.0
  {
    var cs := Centers(js[..i + 1]);
    RealSumNext(cs, i);
    assert Centers(js[..i]) == cs[..i];
    assert cs[..i + 1] == cs;
  }

  // ---------------------------------------------------------------------
  // The shares of all jobs
  // ---------------------------------------------------------------------

  lemma {:induction false} ShareFacts(p: real, q: real, sum: real, available: nat)
    requires 0.0 < q <= p <= sum && available > 0
    ensures 0.0 < Share(q, sum, available) <= Share(p, sum, available) <= available as real
  {
    QuotientFacts(q, p, sum);
    QuotientFacts(p, sum, sum);
    var a := available as real;
    ProductMonotone(q / sum, p / sum, a, a);
    ProductMonotone(p / sum, 1.0, a, a);
  }

  lemma {:induction false} QuotientFacts(p: real, q: real, sum: real)
    requires 0.0 < p <= q <= sum
    ensures 0.0 < p / sum <= q / sum <= 1.0
  {
  }

  lemma {:induction false} SharesAdd(p: real, q: real, sum: real, available: nat)
    requires sum > 0.0
    ensures Share(p, sum, available) + Share(q, sum, available) == Share(p + q, sum, available)
  {
    assert p / sum + q / sum == (p + q) / sum;
  }

  ghost predicate HasShares(js: seq<Job>, sum: real, available: nat)
  {
    sum > 0.0 && forall k {:trigger js[k]} :: 0 <= k < |js| ==> js[k].fairShare == Share(js[k].priority, sum, available)
  }

  lemma {:induction false} SharesAddUp(ps: seq<real>, xs: seq<real>, sum: real, available: nat)
    requires sum > 0.0 && |ps| == |xs| && forall k :: 0 <= k < |ps| ==> xs[k] == Share(ps[k], sum, available)
    ensures RealSum(xs) == Share(RealSum(ps), sum, available)
  {
    if ps != [] {
      var n := |ps| - 1;
      SharesAddUp(ps[..n], xs[..n], sum, available);
      SharesAdd(RealSum(ps[..n]), ps[n], sum, available);
    }
  }

  lemma {:induction false} AllShares(js: seq<Job>, sum: real, available: nat)
    requires HasShares(js, sum, available) && sum == RealSum(Priorities(js))
    ensures RealSum(Shares(js)) == available as real
  {
    SharesAddUp(Priorities(js), Shares(js), sum, available);
    assert sum / sum == 1.0;
  }

  /** What the search starts from if there are more workers than jobs but not enough for all demands. */
  lemma {:induction false} SearchRange(js: seq<Job>, available: nat)
    requires AllSane(js) && RealSum(Shares(js)) == available as real && |js| < available < Sum(Demands(js))
    ensures var n, l, h := |js|, LowestMultiplier(js), HighestMultiplier(js) + EPSILON;
      && n > 0 && 0.0 < l < 1.0 < h
      && l < RealSum(Centers(js)) / n as real < h
      && Total(js, l) == n && Total(js, h) == Sum(Demands(js))
  {
    var l, h := LowestMultiplier(js), HighestMultiplier(js);
    LowestFacts(js);
    HighestFacts(js);
    var i, k := SomeBigJobs(js, available);
    AroundOne(js, l, h, i, k);
    CenterOfMass(js, l, h, k);
    NoneAboveMore(js, h, h + EPSILON);
    ExtremeTotals(js, l, h + EPSILON);
  }

  /** The multiplier at which volumes equal the fair shares lies in between. */
  lemma {:induction false} AroundOne(js: seq<Job>, l: real, h: real, i: nat, k: nat)
    requires i < |js| && js[i].fairShare > 1.0 && k < |js| && js[k].demand as real > js[k].fairShare && AllSane(js)
    requires NoneBelow(js, l) && NoneAbove(js, h)
    ensures l < 1.0 < h && Sane(js[k]) && UpperBound(js[k]) > 1.0
  {
    assert Sane(js[i]) && Sane(js[k]);
    BigShareLowersBound(js[i]);
    BigShareLowersBound(js[k]);
  }

  lemma {:induction false} ExtremeTotals(js: seq<Job>, l: real, h: real)
    requires l > 0.0 && AllSane(js)
    requires NoneBelow(js, l) && NoneAbove(js, h)
    ensures Total(js, l) == |js| && Total(js, h) == Sum(Demands(js))
  {
    forall q | 0 <= q < |js| ensures Volume(js[q], l) == 1 && Volume(js[q], h) == js[q].demand {
      assert Sane(js[q]);
      LowestVolume(js[q], l);
      HighestVolume(js[q], h);
    }
    SumOfOnes(Volumes(js, l));
    assert Volumes(js, h) == Demands(js);
  }

  /** Some job has a share above one, and some job has a demand above its share. */
  lemma {:induction false} SomeBigJobs(js: seq<Job>, available: nat) returns (i: nat, k: nat)
    requires RealSum(Shares(js)) == available as real && |js| < available < Sum(Demands(js))
    ensures i < |js| && js[i].fairShare > 1.0
    ensures k < |js| && js[k].demand as real > js[k].fairShare
  {
    if forall q :: 0 <= q < |js| ==> js[q].fairShare <= 1.0 {
      RealSumUpTo(Shares(js), 1.0);
      TimesIsProduct(|js|, 1.0);
    }
    if forall q :: 0 <= q < |js| ==> js[q].demand as real <= js[q].fairShare {
      RealSumBelow(Demands(js), Shares(js));
    }
    i :| 0 <= i < |js| && js[i].fairShare > 1.0;
    k :| 0 <= k < |js| && js[k].demand as real > js[k].fairShare;
  }

  lemma {:induction false} CenterOfMass(js: seq<Job>, lo: real, hi: real, above: nat)
    requires AllSane(js) && above < |js| && Sane(js[above]) && UpperBound(js[above]) > lo
    requires NoneBelow(js, lo) && NoneAbove(js, hi)
    ensures lo < RealSum(Centers(js)) / |js| as real <= hi
  {
    var cs := Centers(js);
    forall k | 0 <= k < |js| ensures lo <= cs[k] <= hi {
      assert Sane(js[k]);
      CenterInRange(js[k], lo, hi);
    }
    CenterInRange(js[above], lo, hi);
    RealSumRange(cs, lo, hi, above);
    MeanInRange(RealSum(cs), |js|, lo, hi);
  }

  lemma {:induction false} CenterInRange(j: Job, lo: real, hi: real)
    requires Sane(j) && lo <= LowerBound(j) && UpperBound(j) <= hi
    ensures var c := (LowerBound(j) + UpperBound(j)) / 2.0; lo <= c <= hi && (UpperBound(j) > lo ==> c > lo)
  {
    BoundFacts(j);
  }

  lemma {:induction false} MeanInRange(sum: real, n: nat, lo: real, hi: real)
    requires n > 0 && Times(n, lo) < sum <= Times(n, hi)
    ensures lo < sum / n as real <= hi
  {
    TimesIsProduct(n, lo);
    TimesIsProduct(n, hi);
    var x, m := sum / n as real, n as real;
    assert x * m == sum;
    assert x <= lo ==> x * m <= lo * m;
    assert x > hi ==> x * m > hi * m;
  }

  // ---------------------------------------------------------------------
  // The jobs with their shares
  // ---------------------------------------------------------------------

  /** The entries as they are created from the events. */
  ghost predicate Fresh(s: seq<Entry>)
  {
    forall k {:trigger s[k]} :: 0 <= k < |s| ==> s[k].demand >= 1 && s[k].priority > 0.0 && s[k].volume == 1
  }

  /** The entries s, which are among n ones, after computeFairShares. */
  function FairEntries(s: seq<Entry>, sum: real, available: nat, n: nat): (t: seq<Entry>)
    requires s == [] || sum > 0.0
    ensures |t| == |s|
  {
    if s == [] then []
    else FairEntries(s[..|s| - 1], sum, available, n) + [FairEntry(s[|s| - 1], sum, available, n)]
  }

  lemma {:induction false} FairEntriesAt(s: seq<Entry>, sum: real, available: nat, n: nat, k: nat)
    requires sum > 0.0 && k < |s|
    ensures FairEntries(s, sum, available, n)[k] == FairEntry(s[k], sum, available, n)
  {
    if k < |s| - 1 {
      FairEntriesAt(s[..|s| - 1], sum, available, n, k);
    }
  }

  lemma {:induction false} FairEntriesConcat(a: seq<Entry>, b: seq<Entry>, sum: real, available: nat, n: nat)
    requires sum > 0.0
    ensures FairEntries(a + b, sum, available, n) ==
      FairEntries(a, sum, available, n) + FairEntries(b, sum, available, n)
    decreases |b|
  {
    if b == [] {
      assert a + b == a;
    } else {
      var k := |b| - 1;
      FairEntriesConcat(a, b[..k], sum, available, n);
      assert (a + b)[..|a + b| - 1] == a + b[..k];
    }
  }

  lemma {:induction false} FairEntriesPermute(s: seq<Entry>, t: seq<Entry>, sum: real, available: nat, n: nat)
    requires multiset(s) == multiset(t) && (s == [] || sum > 0.0) && (t == [] || sum > 0.0)
    ensures multiset(FairEntries(s, sum, available, n)) == multiset(FairEntries(t, sum, available, n))
    decreases |s|
  {
    if s == [] {
      PermutationOfEmpty(s, t);
    } else {
      var k, t' := RemoveLast(s, t);
      FairEntriesPermute(s[..|s| - 1], t', sum, available, n);
      FairEntriesConcat(t[..k], [t[k]], sum, available, n);
      FairEntriesConcat(t[..k] + [t[k]], t[k + 1..], sum, available, n);
      FairEntriesConcat(t[..k], t[k + 1..], sum, available, n);
      assert [t[k]][..0] == [];
      var e := FairEntry(t[k], sum, available, n);
      assert FairEntries([t[k]], sum, available, n) == [e];
    }
  }

  /** The jobs of the entries s after computeFairShares. */
  ghost function FairJobs(s: seq<Entry>, sum: real, available: nat): (js: seq<Job>)
    requires s == [] || sum > 0.0
    ensures |js| == |s|
  {
    Jobs(FairEntries(s, sum, available, |s|))
  }

  lemma {:induction false} FairJobIsSane(s: seq<Entry>, sum: real, available: nat, k: nat)
    requires Fresh(s) && sum == RealSum(Priorities(Jobs(s))) > 0.0 && k < |s| < available
    ensures var j := FairJobs(s, sum, available)[k];
      Sane(j) && j.fairShare <= available as real && j.fairShare == Share(j.priority, sum, available)
  {
    FairEntriesAt(s, sum, available, |s|, k);
    RealSummand(Priorities(Jobs(s)), k);
    ShareFacts(s[k].priority, s[k].priority, sum, available);
  }

  lemma {:induction false} FairSharesFollow(s: seq<Entry>, sum: real, available: nat, i: nat, k: nat)
    requires Fresh(s) && sum == RealSum(Priorities(Jobs(s))) > 0.0 && i < |s| < available && k < |s|
    ensures var js := FairJobs(s, sum, available); ShareFollows(js[i], js[k])
  {
    FairEntriesAt(s, sum, available, |s|, i);
    FairEntriesAt(s, sum, available, |s|, k);
    RealSummand(Priorities(Jobs(s)), i);
    if s[i].priority > s[k].priority {
      ShareFacts(s[i].priority, s[k].priority, sum, available);
    }
  }

  ghost predicate SharesFit(js: seq<Job>, available: nat)
  {
    forall k {:trigger Sane(js[k])} :: 0 <= k < |js| ==> js[k].fairShare <= available as real
  }

  lemma {:induction false} FairJobsFacts(s: seq<Entry>, sum: real, available: nat)
    requires Fresh(s) && sum == RealSum(Priorities(Jobs(s))) > 0.0 && |s| < available
    ensures var js := FairJobs(s, sum, available);
      AllSane(js) && SharesFollowPriorities(js) && HasShares(js, sum, available)
      && SharesFit(js, available)
  {
    var js := FairJobs(s, sum, available);
    forall k | 0 <= k < |s|
      ensures Sane(js[k]) && js[k].fairShare <= available as real &&
        js[k].fairShare == Share(js[k].priority, sum, available)
    {
      FairJobIsSane(s, sum, available, k);
    }
    forall i, k | 0 <= i < |s| && 0 <= k < |s| ensures ShareFollows(js[i], js[k]) {
      FairSharesFollow(s, sum, available, i, k);
    }
  }

  lemma {:induction false} FairJobsShareAll(s: seq<Entry>, sum: real, available: nat)
    requires Fresh(s) && sum == RealSum(Priorities(Jobs(s))) > 0.0 && |s| < available
    ensures RealSum(Shares(FairJobs(s, sum, available))) == available as real
  {
    var js := FairJobs(s, sum, available);
    FairJobsFacts(s, sum, available);
    var ps, qs := Priorities(js), Priorities(Jobs(s));
    forall k | 0 <= k < |s| ensures ps[k] == qs[k] {
      FairEntriesAt(s, sum, available, |s|, k);
    }
    assert ps == qs;
    AllShares(js, sum, available);
  }

  /** Capping demands does not change how much of the available volume can be used. */
  lemma {:induction false} CappingIsHarmless(s: seq<Entry>, sum: real, available: nat)
    requires Fresh(s) && (s == [] || sum > 0.0) && |s| < available
    ensures Min(available, Sum(Demands(FairJobs(s, sum, available)))) == Min(available, Sum(Demands(Jobs(s))))
  {
    var cap := available - |s| + 1;
    var ds, cs := Demands(Jobs(s)), Demands(FairJobs(s, sum, available));
    forall k | 0 <= k < |s| ensures cs[k] == Min(ds[k], cap) && ds[k] >= 1 {
      FairEntriesAt(s, sum, available, |s|, k);
    }
    SumBelow(cs, ds);
    if k :| 0 <= k < |s| && ds[k] > cap {
      SumAtLeast(cs, k);
    } else {
      assert cs == ds;
    }
  }

  lemma {:induction false} SharesPermute(js: seq<Job>, js': seq<Job>)
    requires multiset(js) == multiset(js')
    ensures multiset(Shares(js)) == multiset(Shares(js')) && multiset(Demands(js)) == multiset(Demands(js'))
    ensures multiset(Priorities(js)) == multiset(Priorities(js'))
    decreases |js|
  {
    if js == [] {
      PermutationOfEmpty(js, js');
    } else {
      var k, js'' := RemoveLast(js, js');
      SharesPermute(js[..|js| - 1], js'');
      SharesRemove(js, |js| - 1);
      SharesRemove(js', k);
      assert js[..|js| - 1] + js[|js|..] == js[..|js| - 1];
    }
  }

  lemma {:induction false} SharesRemove(js: seq<Job>, k: nat)
    requires k < |js|
    ensures multiset(Shares(js)) == multiset(Shares(js[..k] + js[k + 1..])) + multiset{js[k].fairShare}
    ensures multiset(Demands(js)) == multiset(Demands(js[..k] + js[k + 1..])) + multiset{js[k].demand}
    ensures multiset(Priorities(js)) == multiset(Priorities(js[..k] + js[k + 1..])) + multiset{js[k].priority}
  {
    var ps := Priorities(js);
    assert ps == ps[..k] + [ps[k]] + ps[k + 1..];
    assert Priorities(js[..k] + js[k + 1..]) == ps[..k] + ps[k + 1..];
    var xs, ds := Shares(js), Demands(js);
    assert xs == xs[..k] + [xs[k]] + xs[k + 1..];
    assert Shares(js[..k] + js[k + 1..]) == xs[..k] + xs[k + 1..];
    assert ds == ds[..k] + [ds[k]] + ds[k + 1..];
    assert Demands(js[..k] + js[k + 1..]) == ds[..k] + ds[k + 1..];
  }
}
