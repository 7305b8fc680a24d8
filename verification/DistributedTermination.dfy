/**
 Distributed termination (src/comm/distributed_termination.hpp): a process which is to exit tells its parent,
 and from the root the order to exit is flooded down the binary tree of all processes.
 */
module DistributedTermination {
  import opened JobTreeIndex
  import opened Sums

  datatype Message = UP | DOWN

  /** The messages to the children in the tree. */
  function Downs(size: nat, rank: nat): seq<(nat, Message)>
  {
    (if 2 * rank + 1 < size then [(2 * rank + 1, DOWN)] else []) +
    (if 2 * rank + 2 < size then [(2 * rank + 2, DOWN)] else [])
  }

  /** They go exactly to the children, each once. */
  lemma {:induction false} DownsReachChildren(size: nat, rank: nat)
    ensures forall c :: (c, DOWN) in Downs(size, rank) <==> 0 < c < size && Parent(c) == rank
    ensures forall i, k :: 0 <= i < k < |Downs(size, rank)| ==> Downs(size, rank)[i] != Downs(size, rank)[k]
    ensures forall m :: m in Downs(size, rank) ==> m.1 == DOWN
  {
  }

  /** What a process sends when it is told to exit, by itself or from below: nothing if it has been told before. */
  function OnTrigger(size: nat, rank: nat, triggered: bool): seq<(nat, Message)>
  {
    if triggered then [] else if rank == 0 then Downs(size, 0) else [(Parent(rank), UP)]
  }

  /** The object of one process; the methods return the messages they send. */
  class Termination {
    const rank: nat
    const size: nat
    var triggered: bool

    constructor (rank: nat, size: nat)
      requires rank < size
      ensures this.rank == rank && this.size == size && !triggered
    {
      this.rank, this.size, triggered := rank, size, false;
    }

    method Trigger() returns (sent: seq<(nat, Message)>)
      modifies this
      ensures triggered && sent == OnTrigger(size, rank, old(triggered))
    {
      sent := [];
      if triggered {
        return;
      }
      triggered := true;
      if rank == 0 {
        sent := Downwards();
      } else {
        sent := Upwards();
      }
    }

    method Upwards() returns (sent: seq<(nat, Message)>)
      requires rank > 0
      ensures sent == [(Parent(rank), UP)]
    {
      sent := [((rank - 1) / 2, UP)];
    }

    method Downwards() returns (sent: seq<(nat, Message)>)
      modifies this
      ensures triggered && sent == Downs(size, rank)
      ensures forall c :: (c, DOWN) in sent <==> 0 < c < size && Parent(c) == rank
    {
      DownsReachChildren(size, rank);
      triggered := true;
      sent := [];
      var candidates := [2 * rank + 1, 2 * rank + 2];
      for i := 0 to 2
        invariant triggered && candidates == [2 * rank + 1, 2 * rank + 2]
        invariant sent == (if i >= 1 && 2 * rank + 1 < size then [(2 * rank + 1, DOWN)] else []) +
                          (if i >= 2 && 2 * rank + 2 < size then [(2 * rank + 2, DOWN)] else [])
      {
        if candidates[i] < size {
          sent := sent + [(candidates[i], DOWN)];
        }
      }
    }

    method Handle(m: Message) returns (sent: seq<(nat, Message)>)
      modifies this
      ensures triggered && sent == if m == UP then OnTrigger(size, rank, old(triggered)) else Downs(size, rank)
    {
      if m == UP {
        sent := Trigger();
      } else {
        sent := Downwards();
      }
    }
  }

  // ---------------------------------------------------------------------
  // All processes
  // ---------------------------------------------------------------------

  /**
   For each process, the number of its UPs which were sent and which its parent has taken, and the number of
   DOWNs which were sent to it and which it has taken.
   */
  datatype State = State(triggered: seq<bool>, upSent: seq<nat>, upTaken: seq<nat>, downSent: seq<nat>,
    downTaken: seq<nat>)

  datatype Step = Trigger(rank: nat) | TakeUp(child: nat) | TakeDown(rank: nat)

  predicate Sized(n: nat, s: State)
  {
    n >= 1 && |s.triggered| == n && |s.upSent| == n && |s.upTaken| == n && |s.downSent| == n && |s.downTaken| == n
  }

  ghost function OneMore(n: nat, counts: seq<nat>, p: nat): (counts': seq<nat>)
    requires |counts| == n
    ensures |counts'| == n
    ensures forall c {:trigger counts'[c]} :: 0 <= c < n ==>
      counts'[c] == counts[c] + if c > 0 && Parent(c) == p then 1 else 0
  {
    seq(n, c requires 0 <= c < n => counts[c] + if c > 0 && Parent(c) == p then 1 else 0)
  }

  ghost function WentDown(n: nat, s: State, p: nat): State
    requires Sized(n, s) && p < n
  {
    s.(triggered := s.triggered[p := true], downSent := OneMore(n, s.downSent, p))
  }

  ghost function Triggered(n: nat, s: State, p: nat): State
    requires Sized(n, s) && p < n
  {
    if s.triggered[p] then s
    else if p == 0 then WentDown(n, s, 0)
    else s.(triggered := s.triggered[p := true], upSent := s.upSent[p := s.upSent[p] + 1])
  }

  ghost predicate Enabled(n: nat, s: State, step: Step)
    requires Sized(n, s)
  {
    match step
    case Trigger(p) => p < n
    case TakeUp(c) => 0 < c < n && s.upTaken[c] < s.upSent[c]
    case TakeDown(p) => 0 < p < n && s.downTaken[p] < s.downSent[p]
  }

  ghost function Next(n: nat, s: State, step: Step): (s': State)
    requires Sized(n, s) && Enabled(n, s, step)
    ensures Sized(n, s')
  {
    match step
    case Trigger(p) => Triggered(n, s, p)
    case TakeUp(c) => Triggered(n, s.(upTaken := s.upTaken[c := s.upTaken[c] + 1]), Parent(c))
    case TakeDown(p) => WentDown(n, s.(downTaken := s.downTaken[p := s.downTaken[p] + 1]), p)
  }

  /** A process sends messages: an UP counts for itself, a DOWN for its receiver. */
  ghost function Posted(n: nat, s: State, p: nat, sent: seq<(nat, Message)>): (s': State)
    requires Sized(n, s) && p < n && forall m :: m in sent ==> m.0 < n
    ensures Sized(n, s')
  {
    if sent == [] then s
    else
      var s1 := Posted(n, s, p, sent[..|sent| - 1]);
      var m := sent[|sent| - 1];
      if m.1 == UP then s1.(upSent := s1.upSent[p := s1.upSent[p] + 1])
      else s1.(downSent := s1.downSent[m.0 := s1.downSent[m.0] + 1])
  }

  lemma {:induction false} PostedDowns(n: nat, s: State, p: nat)
    requires Sized(n, s) && p < n
    ensures Posted(n, s, p, Downs(n, p)) == s.(downSent := OneMore(n, s.downSent, p))
  {
    var a: (nat, Message), b: (nat, Message) := (2 * p + 1, DOWN), (2 * p + 2, DOWN);
    var s0, s', d := Posted(n, s, p, []), Posted(n, s, p, Downs(n, p)), s.downSent;
    assert s0 == s;
    if 2 * p + 2 < n {
      assert Downs(n, p) == [a, b] && [a, b][..1] == [a] && [a][..0] == [];
      var s1 := Posted(n, s, p, [a]);
      assert s1 == s.(downSent := d[a.0 := d[a.0] + 1]);
      assert s' == s1.(downSent := s1.downSent[b.0 := s1.downSent[b.0] + 1]);
    } else if 2 * p + 1 < n {
      assert Downs(n, p) == [a] && [a][..0] == [];
      assert s' == s.(downSent := d[a.0 := d[a.0] + 1]);
    } else {
      assert s' == s;
    }
    assert s'.downSent == OneMore(n, d, p);
  }

  /** The steps of the protocol are those of the objects: each process sends what its object returns. */
  lemma {:induction false} StepsAreObjectSteps(n: nat, s: State, p: nat)
    requires Sized(n, s) && p < n
    ensures (forall m :: m in OnTrigger(n, p, s.triggered[p]) ==> m.0 < n) && (forall m :: m in Downs(n, p) ==> m.0 < n)
    ensures var told := s.(triggered := s.triggered[p := true]);
      && Triggered(n, s, p) == Posted(n, told, p, OnTrigger(n, p, s.triggered[p]))
      && WentDown(n, s, p) == Posted(n, told, p, Downs(n, p))
  {
    var told := s.(triggered := s.triggered[p := true]);
    PostedDowns(n, told, p);
    if !s.triggered[p] && p > 0 {
      var m: (nat, Message) := (Parent(p), UP);
      assert [m][..0] == [];
    }
    assert s.triggered[p] ==> s.triggered[p := true] == s.triggered;
  }

  ghost predicate Initial(n: nat, s: State)
  {
    && Sized(n, s) && (forall r {:trigger s.triggered[r]} :: 0 <= r < n ==> !s.triggered[r])
    && forall r {:trigger s.upSent[r]} {:trigger s.downSent[r]} {:trigger s.upTaken[r]} {:trigger s.downTaken[r]} ::
      0 <= r < n ==> s.upSent[r] == 0 && s.upTaken[r] == 0 && s.downSent[r] == 0 && s.downTaken[r] == 0
  }

  /** The process has told its children. */
  predicate HasGoneDown(n: nat, s: State, r: nat)
    requires Sized(n, s) && r < n
  {
    if r == 0 then s.triggered[0] else s.downTaken[r] > 0
  }

  predicate Ok(n: nat, s: State, r: nat)
    requires Sized(n, s) && r < n
  {
    && s.upTaken[r] <= s.upSent[r] <= 1 && s.downTaken[r] <= s.downSent[r] <= 1
    && (s.upSent[r] == 1 ==> s.triggered[r])
    && (HasGoneDown(n, s, r) ==> s.triggered[r])
    && (r == 0 ==> s.upSent[0] == 0 && s.downSent[0] == 0)
    && (r > 0 ==>
          && s.downSent[r] == (if HasGoneDown(n, s, Parent(r)) then 1 else 0)
          && (s.triggered[r] ==> s.upSent[r] == 1 || s.downTaken[r] == 1)
          && (s.upTaken[r] == 1 ==> s.triggered[Parent(r)]))
  }

  ghost predicate Inv(n: nat, s: State)
  {
    Sized(n, s) && forall r {:trigger Ok(n, s, r)} :: 0 <= r < n ==> Ok(n, s, r)
  }

  /** The root is triggered for the first time, or another process has taken a DOWN. */
  lemma {:induction false} WentDownKeeps(n: nat, s: State, p: nat, taken: seq<nat>, r: nat)
    requires Inv(n, s) && p < n && r < n && |taken| == n
    requires if p == 0 then !s.triggered[0] && taken == s.downTaken
      else s.downTaken[p] < s.downSent[p] && taken == s.downTaken[p := s.downTaken[p] + 1]
    ensures Ok(n, WentDown(n, s.(downTaken := taken), p), r)
  {
    assert Ok(n, s, p) && Ok(n, s, r);
    if r > 0 { assert Ok(n, s, Parent(r)); }
  }

  lemma {:induction false} TriggeredKeeps(n: nat, s: State, p: nat, r: nat)
    requires Inv(n, s) && p < n && r < n
    ensures Ok(n, Triggered(n, s, p), r)
  {
    if p == 0 && !s.triggered[0] {
      WentDownKeeps(n, s, 0, s.downTaken, r);
      assert s.(downTaken := s.downTaken) == s;
    } else {
      assert Ok(n, s, p) && Ok(n, s, r);
      if r > 0 { assert Ok(n, s, Parent(r)); }
    }
  }

  /** Taking an UP may break what is said of its sender, until the parent is triggered. */
  lemma {:induction false} TakeUpKeeps(n: nat, s: State, c: nat, r: nat)
    requires Inv(n, s) && 0 < c < n && r < n && s.upTaken[c] < s.upSent[c]
    ensures Ok(n, Next(n, s, TakeUp(c)), r)
  {
    var p := Parent(c);
    assert Ok(n, s, c);
    TriggeredKeeps(n, s, p, r);
  }

  lemma {:induction false} StepKeeps(n: nat, s: State, step: Step)
    requires Inv(n, s) && Enabled(n, s, step)
    ensures Inv(n, Next(n, s, step))
  {
    var s' := Next(n, s, step);
    forall r | 0 <= r < n ensures Ok(n, s', r) {
      match step
      case Trigger(p) => TriggeredKeeps(n, s, p, r);
      case TakeUp(c) => TakeUpKeeps(n, s, c, r);
      case TakeDown(p) => WentDownKeeps(n, s, p, s.downTaken[p := s.downTaken[p] + 1], r);
    }
  }

  ghost predicate IsRun(n: nat, tr: seq<State>, steps: seq<Step>)
  {
    && |tr| == |steps| + 1 && Initial(n, tr[0])
    && forall k {:trigger steps[k]} :: 0 <= k < |steps| ==>
      Sized(n, tr[k]) && Enabled(n, tr[k], steps[k]) && tr[k + 1] == Next(n, tr[k], steps[k])
  }

  lemma {:induction false} RunInv(n: nat, tr: seq<State>, steps: seq<Step>, k: nat)
    requires IsRun(n, tr, steps) && k <= |steps|
    ensures Inv(n, tr[k])
  {
    if k == 0 {
      forall r | 0 <= r < n ensures Ok(n, tr[0], r) {
        assert tr[0].upSent[r] == 0 && !tr[0].triggered[r];
        if r > 0 { assert !HasGoneDown(n, tr[0], Parent(r)); }
      }
    } else {
      RunInv(n, tr, steps, k - 1);
      var step := steps[k - 1];
      StepKeeps(n, tr[k - 1], step);
    }
  }

  /** In every run, each process sends at most one UP, and at most one DOWN is sent to it. */
  lemma {:induction false} AtMostOneEach(n: nat, tr: seq<State>, steps: seq<Step>, k: nat, r: nat)
    requires IsRun(n, tr, steps) && k <= |steps| && r < n
    ensures Sized(n, tr[k]) && tr[k].upSent[r] <= 1 && tr[k].downSent[r] <= 1
    ensures tr[k].upSent[0] == 0 && tr[k].downSent[0] == 0
  {
    RunInv(n, tr, steps, k);
    assert Ok(n, tr[k], r) && Ok(n, tr[k], 0);
  }

  // ---------------------------------------------------------------------
  // None or all
  // ---------------------------------------------------------------------

  ghost predicate Quiet(n: nat, s: State)
    requires Sized(n, s)
  {
    forall r {:trigger Ok(n, s, r)} :: 0 <= r < n ==> s.upTaken[r] == s.upSent[r] && s.downTaken[r] == s.downSent[r]
  }

  lemma {:induction false} ReachesRoot(n: nat, s: State, r: nat)
    requires Inv(n, s) && Quiet(n, s) && r < n && s.triggered[r]
    ensures s.triggered[0]
  {
    if r > 0 {
      assert Ok(n, s, r) && Ok(n, s, Parent(r));
      ReachesRoot(n, s, Parent(r));
    }
  }

  lemma {:induction false} ReachesAll(n: nat, s: State, r: nat)
    requires Inv(n, s) && Quiet(n, s) && r < n && s.triggered[0]
    ensures HasGoneDown(n, s, r) && s.triggered[r]
  {
    assert Ok(n, s, r);
    if r > 0 {
      ReachesAll(n, s, Parent(r));
    }
  }

  lemma {:induction false} TriggeredStays(n: nat, tr: seq<State>, steps: seq<Step>, j: nat, k: nat)
    requires IsRun(n, tr, steps) && j < k <= |steps| && steps[j].Trigger?
    ensures Sized(n, tr[k]) && steps[j].rank < n && tr[k].triggered[steps[j].rank]
  {
    var step := steps[k - 1];
    assert Enabled(n, tr[j], steps[j]) && Enabled(n, tr[k - 1], step);
    assert tr[k] == Next(n, tr[k - 1], step);
    if k > j + 1 {
      TriggeredStays(n, tr, steps, j, k - 1);
    }
  }

  /**
   In every run, once no message is under way, no process has been triggered and none has been asked to,
   or all have been triggered.
   */
  lemma {:induction false} NoneOrAll(n: nat, tr: seq<State>, steps: seq<Step>, q: nat, r: nat)
    requires IsRun(n, tr, steps) && Sized(n, tr[|steps|]) && Quiet(n, tr[|steps|]) && q < n && r < n
    ensures tr[|steps|].triggered[q] == tr[|steps|].triggered[r]
    ensures tr[|steps|].triggered[q] <==> exists j :: 0 <= j < |steps| && steps[j].Trigger?
  {
    var s := tr[|steps|];
    RunInv(n, tr, steps, |steps|);
    if s.triggered[q] { ReachesRoot(n, s, q); ReachesAll(n, s, r); }
    if s.triggered[r] { ReachesRoot(n, s, r); ReachesAll(n, s, q); }
    if j :| 0 <= j < |steps| && steps[j].Trigger? {
      TriggeredStays(n, tr, steps, j, |steps|);
      ReachesRoot(n, s, steps[j].rank);
      ReachesAll(n, s, q);
    } else {
      if steps != [] { TriggerComesFirst(n, tr, steps); }
    }
  }

  /** Nothing happens before some process is asked to exit. */
  lemma {:induction false} TriggerComesFirst(n: nat, tr: seq<State>, steps: seq<Step>)
    requires IsRun(n, tr, steps) && steps != []
    ensures steps[0].Trigger?
  {
    assert Enabled(n, tr[0], steps[0]);
  }

  // ---------------------------------------------------------------------
  // The flood ends
  // ---------------------------------------------------------------------

  function Deliveries(steps: seq<Step>): nat
  {
    if steps == [] then 0
    else Deliveries(steps[..|steps| - 1]) + if steps[|steps| - 1].Trigger? then 0 else 1
  }

  ghost function Taken(s: State): int
  {
    Sum(s.upTaken) + Sum(s.downTaken)
  }

  lemma {:induction false} StepTakes(n: nat, s: State, step: Step)
    requires Sized(n, s) && Enabled(n, s, step)
    ensures Taken(Next(n, s, step)) == Taken(s) + if step.Trigger? then 0 else 1
  {
    match step
    case Trigger(p) =>
    case TakeUp(c) => SumUpdate(s.upTaken, c, s.upTaken[c] + 1);
    case TakeDown(p) => SumUpdate(s.downTaken, p, s.downTaken[p] + 1);
  }

  lemma {:induction false} DeliveriesAreTaken(n: nat, tr: seq<State>, steps: seq<Step>, k: nat)
    requires IsRun(n, tr, steps) && k <= |steps|
    ensures Taken(tr[k]) == Deliveries(steps[..k])
  {
    if k == 0 {
      AllZero(tr[0].upTaken);
      AllZero(tr[0].downTaken);
    } else {
      DeliveriesAreTaken(n, tr, steps, k - 1);
      var step := steps[k - 1];
      StepTakes(n, tr[k - 1], step);
      assert steps[..k][..k - 1] == steps[..k - 1];
    }
  }

  lemma {:induction false} AllZero(s: seq<int>)
    requires forall k :: 0 <= k < |s| ==> s[k] == 0
    ensures Sum(s) == 0
  {
    if s != [] { AllZero(s[..|s| - 1]); }
  }

  lemma {:induction false} AtMostOneButFirst(s: seq<int>)
    requires s != [] && s[0] <= 0 && forall k :: 0 <= k < |s| ==> s[k] <= 1
    ensures Sum(s) <= |s| - 1
  {
    if |s| > 1 {
      AtMostOneButFirst(s[..|s| - 1]);
    } else {
      assert s[..0] == [];
    }
  }

  /** A run of n processes delivers no more than 2(n - 1) messages. */
  lemma {:induction false} FloodEnds(n: nat, tr: seq<State>, steps: seq<Step>)
    requires IsRun(n, tr, steps)
    ensures Deliveries(steps) <= 2 * (n - 1)
  {
    var s := tr[|steps|];
    RunInv(n, tr, steps, |steps|);
    DeliveriesAreTaken(n, tr, steps, |steps|);
    assert steps[..|steps|] == steps;
    assert Ok(n, s, 0);
    forall r | 0 <= r < n ensures s.upTaken[r] <= 1 && s.downTaken[r] <= 1 {
      assert Ok(n, s, r);
    }
    AtMostOneButFirst(s.upTaken);
    AtMostOneButFirst(s.downTaken);
  }
}
