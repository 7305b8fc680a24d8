/**
 The volume calculation (VolumeCalculator in src/balancing/volume_calculator.hpp): a root search over
 the multiplier of all jobs' fair shares, on an array of entries which is updated in place.
 */
module VolumeCalculators {
  import opened Sums
  import opened BalancingEntries
  import opened ExcessCalculation
  import opened EntryOrder
  import opened Assignments
  import opened FairShares

  class VolumeCalculator {
    const hash: int -> int
    const available: nat
    const sumOfPriorities: real
    const entries: array<Entry>

    var minMultiplier: real
    var maxMultiplier: real
    var centerOfMass: real
    var sumOfDemands: int

    var prevLb: real
    var prevUb: real
    var numDismissed: nat
    var baseUtilization: int
    var maxDiff: int

    constructor (hash: int -> int, available: nat, sumOfPriorities: real, entries: array<Entry>)
      ensures this.hash == hash && this.available == available && this.entries == entries
      ensures this.sumOfPriorities == sumOfPriorities && numDismissed == 0
    {
      this.hash, this.available, this.sumOfPriorities, this.entries := hash, available, sumOfPriorities, entries;
      minMultiplier, maxMultiplier, centerOfMass, sumOfDemands := 0.0, 0.0, 0.0, 0;
      prevLb, prevUb, numDismissed, baseUtilization, maxDiff := 0.0, 0.0, 0, 0, 0;
    }

    /** computeFairShares */
    method ComputeFairShares()
      requires entries.Length == 0 || sumOfPriorities > 0.0
      requires AllSane(FairJobs(entries[..], sumOfPriorities, available))
      modifies this`minMultiplier, this`maxMultiplier, this`centerOfMass, this`sumOfDemands, entries
      ensures entries[..] == FairEntries(old(entries[..]), sumOfPriorities, available, entries.Length)
      ensures AllSane(Jobs(entries[..]))
      ensures var js := Jobs(entries[..]);
        && minMultiplier == LowestMultiplier(js) && maxMultiplier == HighestMultiplier(js) + EPSILON
        && (js != [] ==> centerOfMass == RealSum(Centers(js)) / |js| as real)
        && sumOfDemands == Sum(Demands(js))
    {
      var n := entries.Length;
      ghost var target := FairEntries(entries[..], sumOfPriorities, available, n);
      ghost var js := Jobs(target);
      var lowest, highest, center, demands := INT32_MAX, 0.0, 0.0, 0;
      assert js[..0] == [];
      var i := 0;
      while i < n
        invariant 0 <= i <= n && RangeOf(js[..i], lowest, highest, center, demands)
        invariant forall k :: 0 <= k < i ==> entries[k] == target[k]
        invariant forall k :: i <= k < n ==> entries[k] == old(entries[k])
      {
        RangeStep(js, i, lowest, highest, center, demands);
        FairEntriesAt(old(entries[..]), sumOfPriorities, available, n, i);
        entries[i] := FairEntry(entries[i], sumOfPriorities, available, n);
        var job := JobOf(entries[i]);
        assert job == js[i];
        var lb, ub := LowerBound(job), UpperBound(job);
        center := center + (lb + ub) / 2.0;
        lowest := if lb < lowest then lb else lowest;
        highest := if highest < ub then ub else highest;
        demands := demands + job.demand;
        i := i + 1;
      }
      assert js[..n] == js && entries[..] == target;
      minMultiplier, maxMultiplier, sumOfDemands := lowest, highest + EPSILON, demands;
      centerOfMass := if n > 0 then center / n as real else center;
    }

    /** What an evaluation leaves behind for the next one. */
    ghost predicate Cache(m: real)
      reads this, entries
    {
      && 0.0 < prevLb < m < prevUb
      && numDismissed <= entries.Length
      && Searched(entries[..], numDismissed, prevLb, prevUb, m)
      && baseUtilization == Total(Jobs(entries[..])[..numDismissed], m)
    }

    method EvaluateBounds(left: real, right: real)
      modifies entries
      ensures forall k :: 0 <= k < entries.Length ==>
        var e := old(entries[k]);
        entries[k] == e.(volumeLower := Volume(JobOf(e), left), volumeUpper := Volume(JobOf(e), right))
    {
      var i := 0;
      while i < entries.Length
        invariant 0 <= i <= entries.Length
        invariant forall k :: 0 <= k < i ==>
          var e := old(entries[k]);
          entries[k] == e.(volumeLower := Volume(JobOf(e), left), volumeUpper := Volume(JobOf(e), right))
        invariant forall k :: i <= k < entries.Length ==> entries[k] == old(entries[k])
      {
        var e := entries[i];
        entries[i] := e.(volumeLower := Volume(JobOf(e), left), volumeUpper := Volume(JobOf(e), right));
        i := i + 1;
      }
    }

    /** calculateExcessVolumeOrNegative */
    method CalculateExcess(multiplier: real, left: real, right: real, ghost prevMid: real) returns (excess: int)
      requires 0.0 < left < multiplier < right && AllSane(Jobs(entries[..]))
      requires prevLb == -1.0 ==> prevUb == -1.0 && numDismissed == 0 && baseUtilization == 0
      requires prevLb != -1.0 ==>
        Cache(prevMid) && ((left == prevLb && right == prevMid) || (left == prevMid && right == prevUb))
      modifies this`prevLb, this`prevUb, this`numDismissed, this`baseUtilization, this`maxDiff, entries
      ensures prevLb == left && prevUb == right && Cache(multiplier)
      ensures multiset(Jobs(entries[..])) == old(multiset(Jobs(entries[..])))
      ensures LargestDifference(entries[..], numDismissed, entries.Length, left, right, maxDiff)
      ensures Counts(available - excess, Total(Jobs(entries[..]), multiplier), available)
    {
      ghost var js := Jobs(entries[..]);
      var leftHalf, rightHalf := left == prevLb, right == prevUb;
      ghost var g := Range(left, right, multiplier, leftHalf, rightHalf);
      if prevLb == -1.0 {
        EvaluateBounds(left, right);
        FirstIsReady(entries[..], js, g, available);
      } else {
        HalfIsReady(entries[..], numDismissed, prevLb, prevUb, prevMid, g, baseUtilization, available);
      }
      var utilization := ConsiderEntries(multiplier, leftHalf, rightHalf, g);
      prevLb, prevUb := left, right;
      excess := available - utilization;
    }

    /** The loop over all entries which have not been dismissed yet. */
    method ConsiderEntries(multiplier: real, leftHalf: bool, rightHalf: bool, ghost g: Range) returns (utilization: int)
      requires g.m == multiplier && g.leftHalf == leftHalf && g.rightHalf == rightHalf
      requires Progress(entries[..], entries[..], numDismissed, g,
        Counters(numDismissed, baseUtilization, baseUtilization, 0), available)
      modifies this`numDismissed, this`baseUtilization, this`maxDiff, entries
      ensures numDismissed <= entries.Length && Searched(entries[..], numDismissed, g.l, g.r, g.m)
      ensures multiset(Jobs(entries[..])) == old(multiset(Jobs(entries[..])))
      ensures Counts(utilization, Total(Jobs(entries[..]), g.m), available)
      ensures baseUtilization == Total(Jobs(entries[..])[..numDismissed], g.m)
      ensures LargestDifference(entries[..], numDismissed, entries.Length, g.l, g.r, maxDiff)
    {
      utilization := baseUtilization;
      maxDiff := 0;
      ghost var s0 := entries[..];
      var i := numDismissed;
      while i < entries.Length
        invariant numDismissed <= i <= entries.Length
        invariant Progress(s0, entries[..], i, g, Counters(numDismissed, baseUtilization, utilization, maxDiff),
          available)
      {
        ghost var s, c := entries[..], Counters(numDismissed, baseUtilization, utilization, maxDiff);
        utilization := ConsiderEntry(i, multiplier, leftHalf, rightHalf, utilization, g);
        ghost var s', c' := entries[..], Counters(numDismissed, baseUtilization, utilization, maxDiff);
        assert (s', c') == Considered(s, i, g, c, available);
        ConsideredKeeps(s0, s, i, g, c, available);
        i := i + 1;
        assert Progress(s0, s', i, g, c', available);
      }
      PassedAll(s0, entries[..], g, Counters(numDismissed, baseUtilization, utilization, maxDiff), available);
    }

    /** The body of the loop over all entries. */
    method ConsiderEntry(i: nat, multiplier: real, leftHalf: bool, rightHalf: bool, util: int, ghost g: Range)
      returns (utilization: int)
      requires numDismissed <= i < entries.Length
      requires g.m == multiplier && g.leftHalf == leftHalf && g.rightHalf == rightHalf
      modifies this`numDismissed, this`baseUtilization, this`maxDiff, entries
      ensures (entries[..], Counters(numDismissed, baseUtilization, utilization, maxDiff))
        == old(Considered(entries[..], i, g, Counters(numDismissed, baseUtilization, util, maxDiff), available))
      ensures numDismissed <= i + 1
    {
      ghost var s, d := entries[..], numDismissed;
      utilization := util;
      entries[i] := Cached(entries[i], leftHalf, rightHalf);
      var e := entries[i];
      if e.volumeLower == e.volumeUpper {
        e := e.(volume := e.volumeLower);
        entries[i] := e;
        utilization := utilization + e.volumeLower;
        baseUtilization := baseUtilization + e.volumeLower;
        var r := Dismissed(e, entries[numDismissed]);
        entries[i] := r.0;
        entries[numDismissed] := r.1;
        numDismissed := numDismissed + 1;
        assert entries[..] == AfterDismissal(s, d, i, e);
      } else {
        entries[i] := e.(volume := Volume(JobOf(e), multiplier));
        if utilization <= available {
          utilization := utilization + entries[i].volume;
        }
        if maxDiff < e.volumeUpper - e.volumeLower {
          maxDiff := e.volumeUpper - e.volumeLower;
        }
        assert entries[..] == s[i := e.(volume := Volume(JobOf(e), multiplier))];
      }
    }

    /** sortRemainingEntries */
    method SortRemaining()
      requires numDismissed <= entries.Length
      modifies entries
      ensures entries[..] == old(entries[..])[..numDismissed] + Sorted(hash, old(entries[..])[numDismissed..])
    {
      var d := numDismissed;
      var sorted := Sorted(hash, entries[d..]);
      assert entries[d..] == entries[..][d..];
      var i := d;
      while i < entries.Length
        invariant d <= i <= entries.Length
        invariant forall k :: 0 <= k < d ==> entries[k] == old(entries[k])
        invariant forall k :: d <= k < i ==> entries[k] == sorted[k - d]
      {
        entries[i] := sorted[i - d];
        i := i + 1;
      }
    }

    /** One additional worker for each of the first remaining jobs. */
    method AssignRest(excess: nat)
      requires numDismissed + excess <= entries.Length
      modifies entries
      ensures forall k :: 0 <= k < numDismissed ==> entries[k] == old(entries[k])
      ensures forall k :: numDismissed <= k < entries.Length ==>
        entries[k] == old(entries[k].(volume := entries[k].volumeLower + if k < numDismissed + excess then 1 else 0))
    {
      var stillAvailable := excess;
      var i := numDismissed;
      while i < entries.Length
        invariant numDismissed <= i <= entries.Length
        invariant stillAvailable == if i < numDismissed + excess then numDismissed + excess - i else 0
        invariant forall k :: 0 <= k < numDismissed ==> entries[k] == old(entries[k])
        invariant forall k :: i <= k < entries.Length ==> entries[k] == old(entries[k])
        invariant forall k :: numDismissed <= k < i ==>
          entries[k] == old(entries[k].(volume := entries[k].volumeLower + if k < numDismissed + excess then 1 else 0))
      {
        entries[i] := entries[i].(volume := entries[i].volumeLower);
        if stillAvailable > 0 {
          entries[i] := entries[i].(volume := entries[i].volume + 1);
          stillAvailable := stillAvailable - 1;
        }
        i := i + 1;
      }
      assert stillAvailable == 0;
    }

    /**
     The base case of the search: the volume of every remaining job differs by one between the bounds.
     The jobs of highest priority receive one additional worker each.
     */
    method FinishSearch(excess: nat)
      requires numDismissed + excess < entries.Length
      modifies entries
      ensures var s := old(entries[..]);
        entries[..] == Raised(s[..numDismissed] + Sorted(hash, s[numDismissed..]), numDismissed, excess)
    {
      assert entries.Length - numDismissed > 0;
      SortRemaining();
      ghost var s1 := entries[..];
      AssignRest(excess);
      assert entries[..] == Raised(s1, numDismissed, excess);
    }

    method FinishBalanced(excess: int, ghost lower: real, ghost upper: real, ghost mid: real)
      requires Finishing(entries[..], numDismissed, lower, upper, mid, maxDiff, excess, available)
      modifies entries
      ensures Balanced(entries[..], available)
      ensures multiset(Jobs(entries[..])) == old(multiset(Jobs(entries[..])))
    {
      FinishIsBalanced(hash, entries[..], numDismissed, lower, upper, mid, maxDiff, excess, available);
      FinishSearch(excess);
    }

    /** One evaluation, and what it means for the search. */
    method Evaluate(mid: real, lower: real, upper: real, ghost prevMid: real, ghost js: seq<Job>,
        ghost excessAtLeft: int,
                    ghost measure: (real, real) -> int)
      returns (excess: int)
      requires Halves(measure, available)
      requires 0.0 < lower < mid < upper && Shared(js, available) &&
        Bracketed(js, lower, upper, excessAtLeft, available)
      requires multiset(Jobs(entries[..])) == multiset(js)
      requires prevLb == -1.0 ==> prevUb == -1.0 && numDismissed == 0 && baseUtilization == 0
      requires prevLb != -1.0 ==>
        Cache(prevMid) && ((lower == prevLb && upper == prevMid) || (lower == prevMid && upper == prevUb))
      modifies this`prevLb, this`prevUb, this`numDismissed, this`baseUtilization, this`maxDiff, entries
      ensures prevLb == lower && prevUb == upper && Cache(mid) && multiset(Jobs(entries[..])) == multiset(js)
      ensures excess == 0 ==> Balanced(entries[..], available)
      ensures excess > 0 ==> Bracketed(js, mid, upper, excess, available)
      ensures excess < 0 ==> Bracketed(js, lower, mid, excessAtLeft, available)
      ensures maxDiff <= 1 ==> Finishing(entries[..], numDismissed, lower, upper, mid, maxDiff, excessAtLeft, available)
      ensures maxDiff > 1 ==> Narrows(measure, lower, upper)
    {
      PermutationSane(js, Jobs(entries[..]));
      excess := CalculateExcess(mid, lower, upper, prevMid);
      Evaluated(js, entries[..], numDismissed, lower, upper, mid, maxDiff, excess, excessAtLeft, available, measure);
    }

    /** What the search needs to know about the range of multipliers for the given jobs. */
    ghost predicate Searchable(js: seq<Job>)
      reads this
    {
      && 0.0 < minMultiplier < 1.0 < maxMultiplier && minMultiplier < centerOfMass < maxMultiplier
      && Shared(js, available) && Bracketed(js, minMultiplier, maxMultiplier, available - |js|, available)
    }

    /** The state of the search before an iteration. */
    ghost predicate Searching(js: seq<Job>, v: Search)
      reads this, entries
    {
      && 0.0 < v.lower < v.mid < v.upper && 0 <= v.phase <= 2 && v.bestExcess != 0
      && multiset(Jobs(entries[..])) == multiset(js) && Shared(js, available)
      && Bracketed(js, v.lower, v.upper, v.excessAtLeft, available)
      && (if v.phase == 2 then
            v.lower < centerOfMass < v.upper && v.mid == 1.0
            && prevLb == -1.0 && prevUb == -1.0 && numDismissed == 0 && baseUtilization == 0
          else
            (v.lower >= 1.0 || v.upper <= 1.0) && Cache(v.prevMid)
            && ((v.lower == prevLb && v.upper == v.prevMid) || (v.lower == v.prevMid && v.upper == prevUb)))
      && (v.phase == 0 ==> v.mid == (v.lower + v.upper) / 2.0)
    }

    /** The state of the search after an evaluation which does not end it. */
    ghost predicate Narrowing(js: seq<Job>, v: Search, excess: int)
      reads this, entries
    {
      && multiset(Jobs(entries[..])) == multiset(js) && Shared(js, available)
      && prevLb == v.lower && prevUb == v.upper && Cache(v.mid) && excess != 0
      && (if excess > 0 then Bracketed(js, v.mid, v.upper, excess, available)
          else Bracketed(js, v.lower, v.mid, v.excessAtLeft, available))
    }

    /** The first part of an iteration: evaluate the multiplier, and finish if possible. */
    method TryFinish(v: Search, ghost js: seq<Job>, ghost measure: (real, real) -> int)
      returns (done: bool, excess: int, v': Search)
      requires Searching(js, v) && Halves(measure, available)
      modifies this`prevLb, this`prevUb, this`numDismissed, this`baseUtilization, this`maxDiff, entries
      ensures done ==> Balanced(entries[..], available) && multiset(Jobs(entries[..])) == multiset(js)
      ensures !done ==> Narrowing(js, v, excess)
      ensures !done ==> Narrows(measure, v.lower, v.upper)
      ensures !done ==> v'.bestExcess != 0 && v' == v.(bestExcess := v'.bestExcess)
    {
      v' := v;
      excess := Evaluate(v.mid, v.lower, v.upper, v.prevMid, js, v.excessAtLeft, measure);
      if v.bestExcess == -1 || Abs(excess) < Abs(v.bestExcess) {
        v' := v'.(bestExcess := excess);
        if excess == 0 {
          return true, excess, v';
        }
      }
      if maxDiff <= 1 {
        FinishBalanced(v.excessAtLeft, v.lower, v.upper, v.mid);
        return true, excess, v';
      }
      done := false;
    }

    /** One iteration of the search. */
    method Iterate(v: Search, ghost js: seq<Job>, ghost measure: (real, real) -> int) returns (done: bool, v': Search)
      requires Searching(js, v) && Halves(measure, available)
      modifies this`prevLb, this`prevUb, this`numDismissed, this`baseUtilization, this`maxDiff, entries
      ensures done ==> Balanced(entries[..], available) && multiset(Jobs(entries[..])) == multiset(js)
      ensures !done ==> Searching(js, v') && v'.phase <= v.phase
      ensures !done && v'.phase == v.phase ==>
        0 <= measure(v.lower, v.upper) && measure(v'.lower, v'.upper) < measure(v.lower, v.upper)
    {
      var excess;
      done, excess, v' := TryFinish(v, js, measure);
      if !done {
        v' := ChooseNext(excess, v', measure);
      }
    }

    /** calculateFunctionOptimizationAssignments */
    method SearchMultiplier()
      requires Searchable(Jobs(entries[..]))
      modifies this`prevLb, this`prevUb, this`numDismissed, this`baseUtilization, this`maxDiff, entries
      ensures Balanced(entries[..], available)
      ensures multiset(Jobs(entries[..])) == old(multiset(Jobs(entries[..])))
    {
      ghost var js := Jobs(entries[..]);
      prevLb, prevUb, numDismissed, baseUtilization, maxDiff := -1.0, -1.0, 0, 0, 0;
      var v := Search(minMultiplier, maxMultiplier, 1.0, 0.0, -1, available - entries.Length, 2);
      ghost var measure := RangeMeasure(available);
      var done := false;
      while !done
        invariant if done then Balanced(entries[..], available) && multiset(Jobs(entries[..])) == multiset(js)
                  else Searching(js, v)
        decreases !done, v.phase, measure(v.lower, v.upper)
      {
        done, v := Iterate(v, js, measure);
      }
    }

    /** calculateResult */
    method CalculateResult()
      requires Fresh(entries[..]) && numDismissed == 0 && sumOfPriorities == RealSum(Priorities(Jobs(entries[..])))
      requires entries.Length == 0 || sumOfPriorities > 0.0
      modifies this, entries
      ensures available <= entries.Length ==> entries[..] == old(entries[..])
      ensures available > entries.Length ==> Distributed(old(entries[..]), entries[..], sumOfPriorities, available)
    {
      if available <= entries.Length {
        return;
      }
      ghost var s0 := entries[..];
      SortRemaining();
      assert s0[0..] == s0 && entries[..] == Sorted(hash, s0);
      SortedIsFresh(hash, s0, sumOfPriorities, available);
      AssignVolumes();
      DistributedBySorting(hash, s0, entries[..], sumOfPriorities, available);
    }

    /** The calculation for sorted entries. */
    method AssignVolumes()
      requires entries.Length < available && (entries.Length == 0 || sumOfPriorities > 0.0)
      requires Shared(FairJobs(entries[..], sumOfPriorities, available), available)
      requires entries.Length != 0 ==>
        RealSum(Shares(FairJobs(entries[..], sumOfPriorities, available))) == available as real
      modifies this, entries
      ensures multiset(Jobs(entries[..])) == old(multiset(FairJobs(entries[..], sumOfPriorities, available)))
      ensures InBounds(entries[..]) && Fair(entries[..]) && Uniform(entries[..])
      ensures Sum(Assigned(entries[..])) ==
        Min(available, old(Sum(Demands(FairJobs(entries[..], sumOfPriorities, available)))))
    {
      ComputeFairShares();
      if sumOfDemands <= available {
        ghost var s := entries[..];
        AssignDemands();
        FullDemands(s, entries[..]);
      } else {
        SearchRange(Jobs(entries[..]), available);
        SearchMultiplier();
      }
    }

    /** Enough workers for all demands. */
    method AssignDemands()
      modifies entries
      ensures forall k :: 0 <= k < entries.Length ==> entries[k] == old(entries[k].(volume := entries[k].demand))
    {
      var i := 0;
      while i < entries.Length
        invariant 0 <= i <= entries.Length
        invariant forall k :: 0 <= k < i ==> entries[k] == old(entries[k].(volume := entries[k].demand))
        invariant forall k :: i <= k < entries.Length ==> entries[k] == old(entries[k])
      {
        entries[i] := entries[i].(volume := entries[i].demand);
        i := i + 1;
      }
    }

    /** The next range and the next multiplier to evaluate. */
    method ChooseNext(excess: int, v: Search, ghost measure: (real, real) -> int) returns (v': Search)
      requires Narrows(measure, v.lower, v.upper)
      requires excess != 0 && 0.0 < v.lower < v.mid < v.upper && 0 <= v.phase <= 2
      requires if v.phase == 2 then v.mid == 1.0 && v.lower < centerOfMass < v.upper
               else v.lower >= 1.0 || v.upper <= 1.0
      requires v.phase == 0 ==> v.mid == (v.lower + v.upper) / 2.0
      ensures v'.lower == (if excess > 0 then v.mid else v.lower) && v'.upper == (if excess > 0 then v.upper else v.mid)
      ensures v'.excessAtLeft == (if excess > 0 then excess else v.excessAtLeft)
      ensures v'.prevMid == v.mid && v'.bestExcess == v.bestExcess
      ensures 0.0 < v'.lower < v'.mid < v'.upper && (v'.lower >= 1.0 || v'.upper <= 1.0)
      ensures 0 <= v'.phase <= 1 && v'.phase <= v.phase
      ensures v'.phase == v.phase ==> measure(v'.lower, v'.upper) < measure(v.lower, v.upper)
      ensures v'.phase == 0 ==> v'.mid == (v'.lower + v'.upper) / 2.0
    {
      var lower, upper, mid, excessAtLeft := v.lower, v.upper, v.mid, v.excessAtLeft;
      var phase := 0;
      if excess > 0 {
        lower := mid;
        excessAtLeft := excess;
      }
      if excess < 0 {
        upper := mid;
      }
      if mid == 1.0 && excess > 0 && centerOfMass > mid {
        mid := centerOfMass;
        phase := 1;
      } else if mid == 1.0 && excess < 0 && centerOfMass < mid {
        mid := centerOfMass;
        phase := 1;
      } else {
        mid := (lower + upper) / 2.0;
      }
      v' := Search(lower, upper, mid, v.mid, v.bestExcess, excessAtLeft, phase);
    }
  }

  /** The result of the calculation for the entries s0 if there are more workers than jobs. */
  ghost predicate Distributed(s0: seq<Entry>, s: seq<Entry>, sum: real, available: nat)
    requires s0 == [] || sum > 0.0
  {
    && multiset(Jobs(s)) == multiset(FairJobs(s0, sum, available))
    && InBounds(s) && Fair(s) && Uniform(s) && Sum(Assigned(s)) == Min(available, Sum(Demands(Jobs(s0))))
  }

  lemma {:induction false} SortedIsFresh(hash: int -> int, s: seq<Entry>, sum: real, available: nat)
    requires Fresh(s) && sum == RealSum(Priorities(Jobs(s))) && |s| < available && (s == [] || sum > 0.0)
    ensures var t := Sorted(hash, s);
      && |t| == |s| && Fresh(t)
      && Shared(FairJobs(t, sum, available), available)
      && (t != [] ==> RealSum(Shares(FairJobs(t, sum, available))) == available as real)
  {
    var t := Sorted(hash, s);
    SortedPriorities(hash, s);
    if t != [] {
      SharedFairly(t, sum, available);
      FairJobsShareAll(t, sum, available);
    }
  }

  lemma {:induction false} SharedFairly(s: seq<Entry>, sum: real, available: nat)
    requires Fresh(s) && sum == RealSum(Priorities(Jobs(s))) > 0.0 && |s| < available
    ensures Shared(FairJobs(s, sum, available), available)
  {
    FairJobsFacts(s, sum, available);
  }

  lemma {:induction false} SortedPriorities(hash: int -> int, s: seq<Entry>)
    requires Fresh(s)
    ensures var t := Sorted(hash, s); Fresh(t) && RealSum(Priorities(Jobs(t))) == RealSum(Priorities(Jobs(s)))
  {
    var t := Sorted(hash, s);
    SortedFacts(hash, s);
    forall k | 0 <= k < |t| ensures t[k].demand >= 1 && t[k].priority > 0.0 && t[k].volume == 1 {
      ElementOf(t, s, k);
    }
    JobsPermute(t, s);
    SharesPermute(Jobs(t), Jobs(s));
    RealSumPermutation(Priorities(Jobs(t)), Priorities(Jobs(s)));
  }

  lemma {:induction false} FullDemands(s: seq<Entry>, t: seq<Entry>)
    requires AllSane(Jobs(s)) && |t| == |s| && forall k :: 0 <= k < |s| ==> t[k] == s[k].(volume := s[k].demand)
    ensures Jobs(t) == Jobs(s) && InBounds(t) && Fair(t) && Uniform(t) && Sum(Assigned(t)) == Sum(Demands(Jobs(s)))
  {
    assert Jobs(t) == Jobs(s);
    assert Assigned(t) == Demands(Jobs(s));
    forall k | 0 <= k < |t| ensures Bounded(t[k]) {
      assert Sane(Jobs(s)[k]);
    }
    DemandsAreUniform(t);
  }

  /** A multiplier which is large enough gives every job its full demand. */
  lemma {:induction false} DemandsAreUniform(t: seq<Entry>)
    requires AllSane(Jobs(t)) && forall k :: 0 <= k < |t| ==> t[k].volume == t[k].demand
    ensures Uniform(t)
  {
    var js := Jobs(t);
    var h := HighestMultiplier(js);
    HighestFacts(js);
    var m := if h > 0.0 then h else 1.0;
    forall k | 0 <= k < |t| ensures Volume(JobOf(t[k]), m) == t[k].demand {
      assert Sane(js[k]);
      HighestVolume(js[k], m);
    }
    assert UniformAt(t, m, m);
  }

  lemma {:induction false} DistributedBySorting(hash: int -> int, s0: seq<Entry>, s: seq<Entry>, sum: real,
      available: nat)
    requires Fresh(s0) && Fresh(Sorted(hash, s0)) && (s0 == [] || sum > 0.0) && |s0| < available
    requires multiset(Jobs(s)) == multiset(FairJobs(Sorted(hash, s0), sum, available))
    requires InBounds(s) && Fair(s) && Uniform(s)
    requires Sum(Assigned(s)) == Min(available, Sum(Demands(FairJobs(Sorted(hash, s0), sum, available))))
    ensures Distributed(s0, s, sum, available)
  {
    var s1 := Sorted(hash, s0);
    SortedFacts(hash, s0);
    FairEntriesPermute(s1, s0, sum, available, |s0|);
    JobsPermute(FairEntries(s1, sum, available, |s0|), FairEntries(s0, sum, available, |s0|));
    JobsPermute(s1, s0);
    SharesPermute(Jobs(s1), Jobs(s0));
    SumPermutation(Demands(Jobs(s1)), Demands(Jobs(s0)));
    CappingIsHarmless(s1, sum, available);
  }

  /**
   The variables of the search. The phase tells how the multiplier has been chosen: 2 for the initial
   one, 1 for the centre of mass, 0 for the middle of the range.
   */
  datatype Search = Search(
    lower: real, upper: real, mid: real, prevMid: real, bestExcess: int, excessAtLeft: int, phase: int)

  /** The jobs have fair shares of the available volume. */
  ghost predicate Shared(js: seq<Job>, available: nat)
  {
    && AllSane(js) && SharesFollowPriorities(js)
    && SharesFit(js, available)
  }

  /** Too little is assigned at the lower multiplier, and too much at the upper one. */
  ghost predicate Bracketed(js: seq<Job>, l: real, r: real, excessAtLeft: int, available: nat)
  {
    excessAtLeft == available - Total(js, l) > 0 && Total(js, r) > available
  }

  lemma {:induction false} Evaluated(js: seq<Job>, s: seq<Entry>, d: nat, l: real, r: real, m: real, diff: int,
      excess: int, excessAtLeft: int, available: nat,
                  measure: (real, real) -> int)
    requires 0.0 < l < m < r && multiset(Jobs(s)) == multiset(js) && Shared(js, available)
    requires Bracketed(js, l, r, excessAtLeft, available)
    requires Searched(s, d, l, r, m) && LargestDifference(s, d, |s|, l, r, diff) && Halves(measure, available)
    requires Counts(available - excess, Total(Jobs(s), m), available)
    ensures excess == 0 ==> Balanced(s, available)
    ensures excess > 0 ==> Bracketed(js, m, r, excess, available)
    ensures excess < 0 ==> Bracketed(js, l, m, excessAtLeft, available)
    ensures diff <= 1 ==> Finishing(s, d, l, r, m, diff, excessAtLeft, available)
    ensures diff > 1 ==> Narrows(measure, l, r)
  {
    TotalPermutation(js, Jobs(s), l);
    TotalPermutation(js, Jobs(s), m);
    TotalPermutation(js, Jobs(s), r);
    if excess == 0 || diff <= 1 { PermutationSane(js, Jobs(s)); }
    if excess == 0 { SearchedIsBalanced(s, d, l, r, m, available); }
    if diff > 1 { WideRange(js, s, d, l, r, diff, available, measure); }
  }

  lemma {:induction false} SearchedIsBalanced(s: seq<Entry>, d: nat, l: real, r: real, m: real, available: int)
    requires m > 0.0 && Searched(s, d, l, r, m) && AllSane(Jobs(s)) && SharesFollowPriorities(Jobs(s))
    requires Total(Jobs(s), m) == available
    ensures Balanced(s, available)
  {
    forall k | 0 <= k < |s| ensures s[k].volume == Volume(JobOf(s[k]), m) {
      assert k < d ==> Settled(s[k], l, r, m);
      assert k >= d ==> Open(s[k], l, r, m);
    }
    UniformIsBalanced(s, m, available);
  }

  /** Both halves of the range have a smaller measure. */
  ghost predicate Narrows(measure: (real, real) -> int, l: real, r: real)
  {
    0 <= measure(l, r) && measure(l, (l + r) / 2.0) < measure(l, r) && measure((l + r) / 2.0, r) < measure(l, r)
  }

  /** The measure becomes smaller when a range is halved in which some job's volume varies. */
  ghost predicate HalvesFor(measure: (real, real) -> int, available: nat, j: Job, l: real, r: real)
  {
    Sane(j) && 0.0 < l < r && j.fairShare <= available as real && Width(j, l, r) >= 2 ==> Narrows(measure, l, r)
  }

  ghost predicate Halves(measure: (real, real) -> int, available: nat)
  {
    forall j, l, r {:trigger HalvesFor(measure, available, j, l, r)} :: HalvesFor(measure, available, j, l, r)
  }

  /** Such a measure: the number of workers by which volumes can differ at most, floor((r - l) * available). */
  lemma {:induction false} RangeMeasure(available: nat) returns (measure: (real, real) -> int)
    ensures Halves(measure, available)
  {
    measure := (l: real, r: real) => Workers(l, r, available);
    forall j, l, r ensures HalvesFor(measure, available, j, l, r) {
      if Sane(j) && 0.0 < l < r && j.fairShare <= available as real && Width(j, l, r) >= 2 {
        WideJob(j, l, r, available);
      }
    }
  }

  ghost function Workers(l: real, r: real, available: nat): int
  {
    Spread(r - l, available as real).Floor
  }

  /** The workers which a range of multipliers of this width stands for. */
  ghost function Spread(width: real, a: real): real
  {
    width * a
  }

  function Abs(x: int): int
  {
    if x < 0 then -x else x
  }

  /** As long as some volume differs by more than one, halving the range makes progress. */
  lemma {:induction false} WideRange(js: seq<Job>, s: seq<Entry>, d: nat, l: real, r: real, diff: int, available: nat,
      measure: (real, real) -> int)
    requires multiset(js) == multiset(Jobs(s)) && AllSane(js) && 0.0 < l < r && Halves(measure, available)
    requires SharesFit(js, available)
    requires d <= |s| && LargestDifference(s, d, |s|, l, r, diff) && diff > 1
    ensures Narrows(measure, l, r)
  {
    var k :| d <= k < |s| && Width(JobOf(s[k]), l, r) == diff;
    var i := FromPermutation(js, Jobs(s), k);
    assert Sane(js[i]) && HalvesFor(measure, available, js[i], l, r);
  }

  lemma {:induction false} WideJob(j: Job, l: real, r: real, available: nat)
    requires Sane(j) && 0.0 < l < r && j.fairShare <= available as real && Width(j, l, r) >= 2
    ensures 0 <= Workers(l, r, available)
    ensures var m := (l + r) / 2.0;
      Workers(l, m, available) < Workers(l, r, available) && Workers(m, r, available) < Workers(l, r, available)
  {
    VolumeSpread(j, l, r, available as real);
    HalfTheWorkers(l, r, available);
  }

  lemma {:induction false} HalfTheWorkers(l: real, r: real, available: nat)
    requires (r - l) * available as real > 1.0
    ensures 0 <= Workers(l, r, available)
    ensures var m := (l + r) / 2.0;
      Workers(l, m, available) < Workers(l, r, available) && Workers(m, r, available) < Workers(l, r, available)
  {
    var a, m := available as real, (l + r) / 2.0;
    HalfSpread(r - l, m - l, a);
    HalfSpread(r - l, r - m, a);
  }

  lemma {:induction false} HalfSpread(width: real, half: real, a: real)
    requires Spread(width, a) > 1.0 && half == width / 2.0
    ensures 0 <= Spread(width, a).Floor && Spread(half, a).Floor < Spread(width, a).Floor
  {
    HalfProduct(half, width, a);
    Halving(Spread(width, a), Spread(half, a));
  }

  lemma {:induction false} HalfProduct(y: real, x: real, a: real)
    requires y == x / 2.0
    ensures y * a == x * a / 2.0
  {
  }

  lemma {:induction false} Halving(x: real, h: real)
    requires x > 1.0 && h == x / 2.0
    ensures 0 <= x.Floor && h.Floor < x.Floor
  {
    FloorBounds(h);
    FloorBounds(x);
  }

  lemma {:induction false} FloorBounds(x: real)
    ensures x.Floor as real <= x < x.Floor as real + 1.0
  {
  }

  /** The situation in which the base case of the search has been met. */
  ghost predicate Finishing(s: seq<Entry>, d: nat, l: real, r: real, m: real, diff: int, excess: int, available: int)
  {
    && 0.0 < l < m < r && Searched(s, d, l, r, m) && AllSane(Jobs(s)) && SharesFollowPriorities(Jobs(s))
    && LargestDifference(s, d, |s|, l, r, diff) && diff <= 1
    && excess > 0 && excess == available - Total(Jobs(s), l) && Total(Jobs(s), r) > available
  }

  /** The entries after one worker each has been given to the first remaining ones. */
  ghost function Raised(s: seq<Entry>, d: nat, excess: nat): (t: seq<Entry>)
    ensures |t| == |s|
    ensures forall k {:trigger t[k]} :: 0 <= k < |s| ==>
      t[k] == if k < d then s[k] else s[k].(volume := s[k].volumeLower + if k < d + excess then 1 else 0)
  {
    seq(|s|, k requires 0 <= k < |s| =>
      if k < d then s[k] else s[k].(volume := s[k].volumeLower + if k < d + excess then 1 else 0))
  }

  lemma {:induction false} FinishIsBalanced(hash: int -> int, s: seq<Entry>, d: nat, l: real, r: real, m: real,
      diff: int, excess: int, available: int)
    requires Finishing(s, d, l, r, m, diff, excess, available)
    ensures 0 <= excess && d + excess < |s|
    ensures var t := Raised(s[..d] + Sorted(hash, s[d..]), d, excess);
      Balanced(t, available) && multiset(Jobs(t)) == multiset(Jobs(s))
  {
    RestIsEnough(s, d, l, r, m, diff, excess, available);
    var s1 := s[..d] + Sorted(hash, s[d..]);
    SortingKeeps(hash, s, d, l, r, m);
    RestIsBalanced(Jobs(s), s1, Raised(s1, d, excess), d, l, r, m, excess, available);
  }

  lemma {:induction false} RestIsEnough(s: seq<Entry>, d: nat, l: real, r: real, m: real, diff: int, excess: int,
      available: int)
    requires 0.0 < l < m < r && Searched(s, d, l, r, m) && AllSane(Jobs(s))
    requires LargestDifference(s, d, |s|, l, r, diff) && diff <= 1
    requires excess == available - Total(Jobs(s), l) && Total(Jobs(s), r) > available
    ensures d + excess < |s|
    ensures forall k :: 0 <= k < |s| ==>
      Volume(Jobs(s)[k], r) == Volume(Jobs(s)[k], l) || Volume(Jobs(s)[k], r) == Volume(Jobs(s)[k], l) + 1
  {
    OpenDifferByOne(s, d, l, r, m, diff);
    OpenJobsCount(Jobs(s), d, l, r, |s|);
    assert Jobs(s)[..|s|] == Jobs(s);
  }

  /** The final volumes, given the sorted remaining entries. */
  lemma {:induction false} RestIsBalanced(js: seq<Job>, s: seq<Entry>, t: seq<Entry>, d: nat, l: real, r: real,
      m: real, excess: nat, available: int)
    requires 0.0 < l < m < r && Searched(s, d, l, r, m) && multiset(js) == multiset(Jobs(s)) && |t| == |s|
    requires AllSane(js) && SharesFollowPriorities(js)
    requires forall k :: 0 <= k < |js| ==>
      Volume(js[k], r) == Volume(js[k], l) || Volume(js[k], r) == Volume(js[k], l) + 1
    requires forall i, k :: d <= i < k < |s| ==> s[i].priority >= s[k].priority
    requires forall k :: 0 <= k < d ==> t[k] == s[k]
    requires d + excess <= |s| && forall k :: d <= k < |s| ==>
      t[k] == s[k].(volume := s[k].volumeLower + if k < d + excess then 1 else 0)
    requires excess == available - Total(js, l)
    ensures Balanced(t, available) && Jobs(t) == Jobs(s)
  {
    assert Jobs(t) == Jobs(s);
    PermutationKeeps(js, Jobs(s), l, r);
    forall k | 0 <= k < d ensures t[k].volume == Volume(JobOf(t[k]), l) == Volume(JobOf(t[k]), r) {
      assert Settled(s[k], l, r, m);
      VolumeMonotone(Jobs(s)[k], l, m);
      VolumeMonotone(Jobs(s)[k], m, r);
    }
    forall k | d <= k < |s|
      ensures Volume(JobOf(t[k]), r) == Volume(JobOf(t[k]), l) + 1
      ensures t[k].volume == Volume(JobOf(t[k]), l) + if k < d + excess then 1 else 0
    {
      assert Open(s[k], l, r, m);
      assert Volume(Jobs(s)[k], r) == Volume(Jobs(s)[k], l) || Volume(Jobs(s)[k], r) == Volume(Jobs(s)[k], l) + 1;
    }
    TotalPermutation(js, Jobs(s), l);
    OneMoreIsBalanced(t, d, d + excess, l, r, available);
  }

  lemma {:induction false} FromPermutation(js: seq<Job>, js': seq<Job>, k: nat) returns (i: nat)
    requires multiset(js) == multiset(js') && k < |js'|
    ensures i < |js| && js[i] == js'[k]
  {
    assert js'[k] in multiset(js');
    assert js'[k] in js;
    i :| 0 <= i < |js| && js[i] == js'[k];
  }

  lemma {:induction false} PermutationKeeps(js: seq<Job>, js': seq<Job>, l: real, r: real)
    requires multiset(js) == multiset(js') && AllSane(js) && SharesFollowPriorities(js)
    requires forall k :: 0 <= k < |js| ==>
      Volume(js[k], r) == Volume(js[k], l) || Volume(js[k], r) == Volume(js[k], l) + 1
    ensures AllSane(js') && SharesFollowPriorities(js')
    ensures forall k :: 0 <= k < |js'| ==>
      Volume(js'[k], r) == Volume(js'[k], l) || Volume(js'[k], r) == Volume(js'[k], l) + 1
  {
    PermutationSane(js, js');
    forall k | 0 <= k < |js'|
      ensures Volume(js'[k], r) == Volume(js'[k], l) || Volume(js'[k], r) == Volume(js'[k], l) + 1
    {
      var i := FromPermutation(js, js', k);
    }
  }

  lemma {:induction false} PermutationSane(js: seq<Job>, js': seq<Job>)
    requires multiset(js) == multiset(js') && AllSane(js) && SharesFollowPriorities(js)
    ensures AllSane(js') && SharesFollowPriorities(js')
  {
    forall k | 0 <= k < |js'| ensures Sane(js'[k]) {
      var i := FromPermutation(js, js', k);
      assert Sane(js[i]);
    }
    forall i, k | 0 <= i < |js'| && 0 <= k < |js'| ensures ShareFollows(js'[i], js'[k]) {
      var a := FromPermutation(js, js', i);
      var b := FromPermutation(js, js', k);
      assert ShareFollows(js[a], js[b]);
    }
  }

  lemma {:induction false} OpenDifferByOne(s: seq<Entry>, d: nat, l: real, r: real, m: real, diff: int)
    requires 0.0 < l < m < r && Searched(s, d, l, r, m) && AllSane(Jobs(s))
    requires LargestDifference(s, d, |s|, l, r, diff) && diff <= 1
    ensures forall k :: 0 <= k < d ==> Volume(Jobs(s)[k], r) == Volume(Jobs(s)[k], l)
    ensures forall k :: d <= k < |s| ==> Volume(Jobs(s)[k], r) == Volume(Jobs(s)[k], l) + 1
  {
    var js := Jobs(s);
    forall k | d <= k < |s| ensures Volume(js[k], r) == Volume(js[k], l) + 1 {
      assert Sane(js[k]) && Open(s[k], l, r, m) && Width(JobOf(s[k]), l, r) <= diff;
      VolumeMonotone(js[k], l, r);
    }
    forall k | 0 <= k < d ensures Volume(js[k], r) == Volume(js[k], l) {
      assert Settled(s[k], l, r, m);
    }
  }

  lemma {:induction false} SortingKeeps(hash: int -> int, s: seq<Entry>, d: nat, l: real, r: real, m: real)
    requires Searched(s, d, l, r, m)
    ensures var t := s[..d] + Sorted(hash, s[d..]);
      && multiset(Jobs(t)) == multiset(Jobs(s)) && Searched(t, d, l, r, m)
      && (forall i, k :: d <= i < k < |t| ==> t[i].priority >= t[k].priority)
  {
    var u := Sorted(hash, s[d..]);
    var t := s[..d] + u;
    SortedFacts(hash, s[d..]);
    SortingKeepsJobs(hash, s, d);
    forall k | d <= k < |t| ensures Open(t[k], l, r, m) {
      ElementOf(u, s[d..], k - d);
    }
    forall i, k | d <= i < k < |t| ensures t[i].priority >= t[k].priority {
      assert !Before(hash, u[k - d], u[i - d]);
    }
  }

  lemma {:induction false} ElementOf(u: seq<Entry>, v: seq<Entry>, k: nat)
    requires multiset(u) == multiset(v) && k < |u|
    ensures exists i :: 0 <= i < |v| && v[i] == u[k]
  {
    assert u[k] in multiset(u);
    assert u[k] in v;
  }

  lemma {:induction false} SortingKeepsJobs(hash: int -> int, s: seq<Entry>, d: nat)
    requires d <= |s|
    ensures multiset(Jobs(s[..d] + Sorted(hash, s[d..]))) == multiset(Jobs(s))
  {
    SortedFacts(hash, s[d..]);
    JobsPermute(Sorted(hash, s[d..]), s[d..]);
    JobsConcat(s[..d], s[d..]);
    JobsConcat(s[..d], Sorted(hash, s[d..]));
    assert s == s[..d] + s[d..];
  }

  lemma {:induction false} JobsConcat(a: seq<Entry>, b: seq<Entry>)
    ensures multiset(Jobs(a + b)) == multiset(Jobs(a)) + multiset(Jobs(b))
  {
    assert Jobs(a + b) == Jobs(a) + Jobs(b);
  }
}
