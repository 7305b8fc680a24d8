/**
 Asynchronous collective operations to which every process contributes once (AsyncCollective in
 src/comm/async_collective.hpp): all-reductions and prefix sums over the in-order tree. Messages may
 be delivered in any order, and processes may join the operation at any time.
 */
module DensePrefixSum {
  import opened Monoids
  import opened InOrderTree

  datatype Mode = AllReduce | Inclusive | Exclusive | InclExcl | InclExclTotal

  /** An operation: how to aggregate, what to compute, and what each rank contributes. */
  datatype Operation<!T> = Operation(M: Monoid<T>, mode: Mode, x: seq<T>)

  /** The state of the operation at one process (OperationState). */
  datatype Local<T> = Local(mode: Mode, self: T, left: T, right: T, arrived: nat)

  function FreshLocal<T>(M: Monoid<T>): Local<T>
  {
    Local(AllReduce, M.unit, M.unit, M.unit, 0)
  }

  datatype Message<T> = Up(src: nat, dst: nat, value: T) | Down(src: nat, dst: nat, items: seq<T>)

  // ---------------------------------------------------------------------
  // What a process does
  // ---------------------------------------------------------------------

  function Desired(size: nat, r: nat): nat
  {
    1 + (if LeftChild(r) >= 0 then 1 else 0) + (if RightChild(size, r) >= 0 then 1 else 0)
  }

  /** aggregateContributions */
  function Aggregated<T>(M: Monoid<T>, l: Local<T>): T
  {
    var a := if l.arrived >= 2 then M.op(M.unit, l.left) else M.unit;
    var b := M.op(a, l.self);
    if l.arrived == 3 then M.op(b, l.right) else b
  }

  /** forward */
  function Forwarded<T>(M: Monoid<T>, size: nat, r: nat, mode: Mode, value: T): Message<T>
  {
    if Parent(size, r) < 0 then
      Down(r, r, match mode
                 case AllReduce => [value]
                 case InclExclTotal => [M.unit, value]
                 case _ => [M.unit])
    else Up(r, Parent(size, r), value)
  }

  /** A contribution has been stored: forward the aggregate if it was the last one. */
  function Checked<T>(M: Monoid<T>, size: nat, r: nat, l: Local<T>): (Local<T>, seq<Message<T>>)
  {
    if l.arrived == Desired(size, r) then
      (l.(arrived := 0), [Forwarded(M, size, r, l.mode, Aggregated(M, l))])
    else (l, [])
  }

  function Initiated<T>(M: Monoid<T>, size: nat, r: nat, l: Local<T>, mode: Mode, x: T): (Local<T>, seq<Message<T>>)
  {
    Checked(M, size, r, l.(mode := mode, self := x, arrived := l.arrived + 1))
  }

  function UpHandled<T>(M: Monoid<T>, size: nat, r: nat, l: Local<T>, src: nat, value: T): (Local<T>, seq<Message<T>>)
  {
    var t := l.(arrived := l.arrived + 1);
    Checked(M, size, r, if src < r then t.(left := value) else t.(right := value))
  }

  /** broadcastAndDigest: what is sent to the children, and the local result. */
  function Digested<T>(M: Monoid<T>, size: nat, r: nat, l: Local<T>, items: seq<T>): (seq<Message<T>>, seq<T>)
    requires items != []
  {
    var hasLeft := LeftChild(r) >= 0;
    var hasRight := RightChild(size, r) >= 0;
    if l.mode.AllReduce? then
      ((if hasLeft then [Down(r, LeftChild(r), items)] else []) +
       (if hasRight then [Down(r, RightChild(size, r), items)] else []),
       [items[0]])
    else
      var exclusive := if hasLeft then M.op(items[0], l.left) else items[0];
      var inclusive := M.op(exclusive, l.self);
      var total := items[|items| - 1];
      ((if hasLeft then [Down(r, LeftChild(r), items)] else []) +
       (if hasRight then
          [Down(r, RightChild(size, r), if l.mode.InclExclTotal? then [inclusive, total] else [inclusive])]
        else []),
       (if l.mode.Inclusive? then [] else [exclusive]) +
       (if l.mode.Exclusive? then [] else [inclusive]) +
       (if l.mode.InclExclTotal? then [total] else []))
  }

  // ---------------------------------------------------------------------
  // All processes together
  // ---------------------------------------------------------------------

  /**
   The processes, the messages in flight and the results published so far. The sets are history
   variables: who joined, who forwarded, whose contribution reached the parent, who was sent a result.
   */
  datatype State<T> = State(
    procs: seq<Local<T>>, net: seq<Message<T>>, results: map<nat, seq<T>>,
    started: set<nat>, sent: set<nat>, got: set<nat>, asked: set<nat>)

  datatype Event = Start(rank: nat) | Deliver(pos: nat)

  ghost predicate Enabled<T>(o: Operation<T>, s: State<T>, ev: Event)
  {
    match ev
    case Start(r) => r < |o.x| && r !in s.started
    case Deliver(pos) => pos < |s.net|
  }

  function RemoveAt<X>(s: seq<X>, k: nat): seq<X>
    requires k < |s|
  {
    s[..k] + s[k + 1..]
  }

  ghost function Targets<T>(ms: seq<Message<T>>): set<nat>
  {
    set m | m in ms && m.Down? :: m.dst
  }

  ghost function Stored<T>(s: State<T>, r: nat, p: (Local<T>, seq<Message<T>>)): State<T>
    requires r < |s.procs|
  {
    s.(procs := s.procs[r := p.0], net := s.net + p.1,
       sent := if p.1 == [] then s.sent else s.sent + {r},
       asked := s.asked + Targets(p.1))
  }

  ghost function Step<T>(o: Operation<T>, s: State<T>, ev: Event): State<T>
    requires |s.procs| == |o.x|
    requires forall m :: m in s.net ==> m.dst < |o.x| && (m.Down? ==> m.items != [])
    requires match ev case Start(r) => r < |o.x| case Deliver(pos) => pos < |s.net|
  {
    match ev
    case Start(r) =>
      Stored(s.(started := s.started + {r}), r, Initiated(o.M, |o.x|, r, s.procs[r], o.mode, o.x[r]))
    case Deliver(pos) =>
      var m := s.net[pos];
      assert m in s.net;
      var u := s.(net := RemoveAt(s.net, pos));
      match m
      case Up(src, r, value) =>
        Stored(u.(got := u.got + {src}), r, UpHandled(o.M, |o.x|, r, s.procs[r], src, value))
      case Down(_, r, items) =>
        var d := Digested(o.M, |o.x|, r, s.procs[r], items);
        u.(net := u.net + d.0, results := u.results[r := d.1], procs := u.procs[r := FreshLocal(o.M)],
           asked := u.asked + Targets(d.0))
  }

  ghost predicate Initial<T>(o: Operation<T>, s: State<T>)
  {
    s == State(seq(|o.x|, i => FreshLocal(o.M)), [], map[], {}, {}, {}, {})
  }

  // ---------------------------------------------------------------------
  // What is to be computed
  // ---------------------------------------------------------------------

  /** The aggregate of the contributions of all ranks i < k, in rank order. */
  function PrefixOf<T>(o: Operation<T>, k: nat): T
    requires k <= |o.x|
  {
    Fold(o.M, o.x[..k])
  }

  /** The result which the documentation promises to rank r. */
  function Expected<T>(o: Operation<T>, r: nat): seq<T>
    requires r < |o.x|
  {
    match o.mode
    case AllReduce => [PrefixOf(o, |o.x|)]
    case Inclusive => [PrefixOf(o, r + 1)]
    case Exclusive => [PrefixOf(o, r)]
    case InclExcl => [PrefixOf(o, r), PrefixOf(o, r + 1)]
    case InclExclTotal => [PrefixOf(o, r), PrefixOf(o, r + 1), PrefixOf(o, |o.x|)]
  }

  /** The aggregate over the subtree of r. */
  function BlockSum<T>(o: Operation<T>, r: nat): T
    requires r < |o.x|
  {
    Fold(o.M, o.x[Lo(r)..Hi(|o.x|, r) + 1])
  }

  /** What a process receives from above. */
  function DownItems<T>(o: Operation<T>, r: nat): (items: seq<T>)
    requires r < |o.x|
    ensures items != []
  {
    match o.mode
    case AllReduce => [PrefixOf(o, |o.x|)]
    case InclExclTotal => [PrefixOf(o, Lo(r)), PrefixOf(o, |o.x|)]
    case _ => [PrefixOf(o, Lo(r))]
  }

  /** The aggregate of a subtree from those of the children and the own contribution. */
  lemma {:induction false} BlockParts<T(!new)>(o: Operation<T>, r: nat)
    requires Lawful(o.M) && r < |o.x|
    ensures BlockSum(o, r) == o.M.op(o.M.op(Fold(o.M, o.x[Lo(r)..r]), o.x[r]), Fold(o.M, o.x[r + 1..Hi(|o.x|, r) + 1]))
  {
    var lo, hi := Lo(r), Hi(|o.x|, r) + 1;
    FoldAround(o.M, o.x, lo, r, hi);
    assert BlockSum(o, r) == Fold(o.M, o.x[lo..hi]);
  }

  lemma {:induction false} ChildParts<T(!new)>(o: Operation<T>, r: nat)
    requires r < |o.x|
    ensures Fold(o.M, o.x[Lo(r)..r]) == if LeftChild(r) >= 0 then (LeftSubtree(|o.x|, r);
      BlockSum(o, LeftChild(r))) else o.M.unit
    ensures Fold(o.M, o.x[r + 1..Hi(|o.x|, r) + 1])
         == if RightChild(|o.x|, r) >= 0 then (RightSubtree(|o.x|, r); BlockSum(o, RightChild(|o.x|, r))) else o.M.unit
  {
    var n := |o.x|;
    LeftSubtree(n, r);
    RightSubtree(n, r);
    if LeftChild(r) < 0 { assert o.x[Lo(r)..r] == []; }
    if RightChild(n, r) < 0 { assert o.x[r + 1..Hi(n, r) + 1] == []; }
  }

  lemma {:induction false} BlockSumSplits<T(!new)>(o: Operation<T>, r: nat, l: Local<T>)
    requires Lawful(o.M) && r < |o.x| && l.self == o.x[r] && l.arrived == Desired(|o.x|, r)
    requires LeftChild(r) >= 0 ==> LeftChild(r) < |o.x| && l.left == BlockSum(o, LeftChild(r))
    requires RightChild(|o.x|, r) >= 0 ==> RightChild(|o.x|, r) < |o.x| && l.right == BlockSum(o, RightChild(|o.x|, r))
    ensures Aggregated(o.M, l) == BlockSum(o, r)
  {
    BlockParts(o, r);
    ChildParts(o, r);
    OnlyLeftIfOne(|o.x|, r);
  }

  lemma {:induction false} OnlyLeftIfOne(size: nat, r: nat)
    requires r < size
    ensures RightChild(size, r) >= 0 ==> LeftChild(r) >= 0
  {
  }

  /** Going from the first rank of r's subtree up to r. */
  lemma {:induction false} PrefixSplits<T(!new)>(o: Operation<T>, r: nat)
    requires Lawful(o.M) && r < |o.x|
    ensures LeftChild(r) >= 0 ==>
      LeftChild(r) < |o.x| && o.M.op(PrefixOf(o, Lo(r)), BlockSum(o, LeftChild(r))) == PrefixOf(o, r)
    ensures LeftChild(r) < 0 ==> Lo(r) == r
    ensures o.M.op(PrefixOf(o, r), o.x[r]) == PrefixOf(o, r + 1)
  {
    var n := |o.x|;
    LeftSubtree(n, r);
    assert forall k :: 0 <= k <= n ==> o.x[0..k] == o.x[..k];
    if LeftChild(r) >= 0 {
      FoldSlices(o.M, o.x, 0, Lo(r), r);
    }
    assert o.x[..r + 1][..r] == o.x[..r];
  }

  // ---------------------------------------------------------------------
  // The invariant
  // ---------------------------------------------------------------------

  function Count<T>(size: nat, s: State<T>, r: nat): nat
  {
    (if r in s.started then 1 else 0)
    + (if LeftChild(r) >= 0 && LeftChild(r) in s.got then 1 else 0)
    + (if RightChild(size, r) >= 0 && RightChild(size, r) in s.got then 1 else 0)
  }

  /** The contributions which have arrived at r are those of its subtrees and its own. */
  ghost predicate Contributed<T>(o: Operation<T>, s: State<T>, r: nat, l: Local<T>)
    requires r < |o.x|
  {
    LeftSubtree(|o.x|, r);
    RightSubtree(|o.x|, r);
    && (r in s.started ==> l.mode == o.mode && l.self == o.x[r])
    && (LeftChild(r) >= 0 && LeftChild(r) in s.got ==> l.left == BlockSum(o, LeftChild(r)))
    && (RightChild(|o.x|, r) >= 0 && RightChild(|o.x|, r) in s.got ==> l.right == BlockSum(o, RightChild(|o.x|, r)))
  }

  ghost predicate ProcOk<T>(o: Operation<T>, s: State<T>, r: nat)
    requires r < |o.x| == |s.procs|
  {
    && (r !in s.results ==> Contributed(o, s, r, s.procs[r]))
    && (r !in s.results && r !in s.sent ==> s.procs[r].arrived == Count(|o.x|, s, r) < Desired(|o.x|, r))
    && (r in s.sent ==> Count(|o.x|, s, r) == Desired(|o.x|, r))
    && (r in s.got ==> r in s.sent)
    && (r in s.results ==> s.results[r] == Expected(o, r) && r in s.asked)
    && (r in s.asked <==> if Parent(|o.x|, r) < 0 then r in s.sent else Parent(|o.x|, r) in s.results)
    && (r in s.sent && r !in s.got && Parent(|o.x|, r) >= 0 ==> Climbing(s, r))
    && (r in s.asked && r !in s.results ==> Descending(s, r))
  }

  ghost predicate Climbing<T>(s: State<T>, r: nat)
  {
    exists j :: 0 <= j < |s.net| && s.net[j].Up? && s.net[j].src == r
  }

  ghost predicate Descending<T>(s: State<T>, r: nat)
  {
    exists j :: 0 <= j < |s.net| && s.net[j].Down? && s.net[j].dst == r
  }

  ghost predicate MessageOk<T>(o: Operation<T>, s: State<T>, m: Message<T>)
  {
    match m
    case Up(src, dst, value) =>
      src < |o.x| && dst < |o.x| && Parent(|o.x|, src) == dst && src in s.sent && src !in s.got &&
        value == BlockSum(o, src)
    case Down(_, dst, items) =>
      dst < |o.x| && dst in s.asked && dst !in s.results && items == DownItems(o, dst)
  }

  predicate Alike<T>(a: Message<T>, b: Message<T>)
  {
    (a.Up? && b.Up? && a.src == b.src) || (a.Down? && b.Down? && a.dst == b.dst)
  }

  ghost predicate NetOk<T>(o: Operation<T>, s: State<T>)
  {
    && (forall j {:trigger MessageOk(o, s, s.net[j])} :: 0 <= j < |s.net| ==> MessageOk(o, s, s.net[j]))
    && (forall i, j {:trigger Alike(s.net[i], s.net[j])} :: 0 <= i < j < |s.net| ==> !Alike(s.net[i], s.net[j]))
    && (forall r :: r in s.results ==> r < |o.x|)
    && (forall r :: r in s.started || r in s.sent || r in s.got || r in s.asked ==> r < |o.x|)
  }

  ghost predicate Inv<T>(o: Operation<T>, s: State<T>)
  {
    && |s.procs| == |o.x|
    && NetOk(o, s)
    && (forall r {:trigger ProcOk(o, s, r)} :: 0 <= r < |o.x| ==> ProcOk(o, s, r))
  }

  /** If r has forwarded, so has its whole subtree. */
  lemma {:induction false} SubtreeHasSent<T>(o: Operation<T>, s: State<T>, r: nat, x: nat)
    requires Inv(o, s) && r < |o.x| && r in s.sent && Lo(r) <= x <= Hi(|o.x|, r)
    ensures x in s.sent
    decreases Power(r)
  {
    assert ProcOk(o, s, r);
    LeftSubtree(|o.x|, r);
    RightSubtree(|o.x|, r);
    if x < r {
      var c := LeftChild(r);
      ParentHasChild(|o.x|, c);
      assert ProcOk(o, s, c);
      SubtreeHasSent(o, s, c, x);
    } else if x > r {
      var c := RightChild(|o.x|, r);
      ParentHasChild(|o.x|, c);
      assert ProcOk(o, s, c);
      SubtreeHasSent(o, s, c, x);
    }
  }

  /** Results are only on their way after everybody has contributed. */
  lemma {:induction false} AskedAfterAll<T>(o: Operation<T>, s: State<T>, r: nat, x: nat)
    requires Inv(o, s) && r < |o.x| && x < |o.x| && r in s.asked
    ensures x in s.sent
    decreases |o.x| - Power(r)
  {
    assert ProcOk(o, s, r);
    if Parent(|o.x|, r) < 0 {
      RootSpansAll(|o.x|, r);
      SubtreeHasSent(o, s, r, x);
    } else {
      ParentHasChild(|o.x|, r);
      assert ProcOk(o, s, Parent(|o.x|, r));
      AskedAfterAll(o, s, Parent(|o.x|, r), x);
    }
  }

  // ---------------------------------------------------------------------
  // Contributions
  // ---------------------------------------------------------------------

  /** s in which one more contribution of r has been counted, with r's process not updated yet. */
  ghost predicate Pending<T>(o: Operation<T>, s: State<T>, r: nat, t: Local<T>)
  {
    && |s.procs| == |o.x| && r < |o.x|
    && NetOk(o, s)
    && (forall q {:trigger ProcOk(o, s, q)} :: 0 <= q < |o.x| && q != r ==> ProcOk(o, s, q))
    && r !in s.results && r !in s.sent && r !in s.got && r !in s.asked
    && (if Parent(|o.x|, r) < 0 then true else Parent(|o.x|, r) !in s.results)
    && Contributed(o, s, r, t) && t.arrived == Count(|o.x|, s, r)
  }

  lemma {:induction false} CountLimit<T>(size: nat, s: State<T>, r: nat)
    ensures Count(size, s, r) <= Desired(size, r)
    ensures Count(size, s, r) == Desired(size, r) ==>
      r in s.started && (LeftChild(r) >= 0 ==> LeftChild(r) in s.got) && (RightChild(size, r) >= 0 ==>
        RightChild(size, r) in s.got)
  {
  }

  lemma {:induction false} StoredWaits<T>(o: Operation<T>, s: State<T>, r: nat, t: Local<T>)
    requires Pending(o, s, r, t) && t.arrived != Desired(|o.x|, r)
    ensures Inv(o, Stored(s, r, (t, [])))
  {
    CountLimit(|o.x|, s, r);
    var s' := Stored(s, r, (t, []));
    assert s'.net == s.net;
    assert s'.asked == s.asked;
    forall q | 0 <= q < |o.x| ensures ProcOk(o, s', q) {
      if q != r { assert ProcOk(o, s, q); }
      assert Climbing(s, q) ==> Climbing(s', q);
      assert Descending(s, q) ==> Descending(s', q);
    }
    forall j | 0 <= j < |s'.net| ensures MessageOk(o, s', s'.net[j]) {
      assert MessageOk(o, s, s.net[j]);
    }
    forall i, j | 0 <= i < j < |s'.net| ensures !Alike(s'.net[i], s'.net[j]) {
      assert !Alike(s.net[i], s.net[j]);
    }
  }

  lemma {:induction false} StoredForwards<T(!new)>(o: Operation<T>, s: State<T>, r: nat, t: Local<T>)
    requires Lawful(o.M) && Pending(o, s, r, t) && t.arrived == Desired(|o.x|, r)
    ensures Inv(o, Stored(s, r, Checked(o.M, |o.x|, r, t)))
  {
    CountLimit(|o.x|, s, r);
    LeftSubtree(|o.x|, r);
    RightSubtree(|o.x|, r);
    BlockSumSplits(o, r, t);
    var m := Forwarded(o.M, |o.x|, r, t.mode, Aggregated(o.M, t));
    var s' := Stored(s, r, (t.(arrived := 0), [m]));
    ForwardedIsRight(o, s, s', r, m);
    AfterForward(o, s, s', r, t, m);
  }

  lemma {:induction false} AfterForward<T>(o: Operation<T>, s: State<T>, s': State<T>, r: nat, t: Local<T>,
      m: Message<T>)
    requires Pending(o, s, r, t) && Count(|o.x|, s, r) == Desired(|o.x|, r)
    requires s' == s.(procs := s.procs[r := t.(arrived := 0)], net := s.net + [m], sent := s.sent + {r},
                      asked := s.asked + if Parent(|o.x|, r) < 0 then {r} else {})
    requires MessageOk(o, s', m) &&
      (if m.Up? then m.src == r && Parent(|o.x|, r) >= 0 else m.dst == r && Parent(|o.x|, r) < 0)
    ensures Inv(o, s')
  {
    forall j | 0 <= j < |s'.net| ensures MessageOk(o, s', s'.net[j]) {
      if j < |s.net| { assert MessageOk(o, s, s.net[j]); }
    }
    forall i, j | 0 <= i < j < |s'.net| ensures !Alike(s'.net[i], s'.net[j]) {
      assert MessageOk(o, s, s.net[i]);
      if j < |s.net| { assert !Alike(s.net[i], s.net[j]); }
    }
    assert s'.net[|s.net|] == m;
    forall q | 0 <= q < |o.x| ensures ProcOk(o, s', q) {
      StillTravelling(s, s', q, [m]);
      if q != r { assert ProcOk(o, s, q); }
    }
  }

  lemma {:induction false} StillTravelling<T>(s: State<T>, s': State<T>, q: nat, ms: seq<Message<T>>)
    requires s'.net == s.net + ms
    ensures Climbing(s, q) ==> Climbing(s', q)
    ensures Descending(s, q) ==> Descending(s', q)
  {
    if Climbing(s, q) {
      var j :| 0 <= j < |s.net| && s.net[j].Up? && s.net[j].src == q;
      assert s'.net[j] == s.net[j];
    }
    if Descending(s, q) {
      var j :| 0 <= j < |s.net| && s.net[j].Down? && s.net[j].dst == q;
      assert s'.net[j] == s.net[j];
    }
  }

  lemma {:induction false} ForwardedIsRight<T(!new)>(o: Operation<T>, s: State<T>, s': State<T>, r: nat, m: Message<T>)
    requires r < |o.x| && r !in s.got && r !in s.asked && r !in s.results
    requires m == Forwarded(o.M, |o.x|, r, o.mode, BlockSum(o, r))
    requires s'.sent == s.sent + {r} && s'.got == s.got && s'.results == s.results && s'.asked == s.asked + Targets([m])
    ensures MessageOk(o, s', m)
    ensures s'.asked == s.asked + if Parent(|o.x|, r) < 0 then {r} else {}
  {
    if Parent(|o.x|, r) < 0 {
      RootSpansAll(|o.x|, r);
      assert o.x[0..|o.x|] == o.x[..|o.x|];
      assert o.x[..0] == [];
      assert m in [m];
      assert Targets([m]) == {r};
    } else {
      ParentHasChild(|o.x|, r);
      assert Targets([m]) == {};
    }
  }

  lemma {:induction false} StoredKeeps<T(!new)>(o: Operation<T>, s: State<T>, r: nat, t: Local<T>)
    requires Lawful(o.M) && Pending(o, s, r, t)
    ensures Inv(o, Stored(s, r, Checked(o.M, |o.x|, r, t)))
  {
    if t.arrived == Desired(|o.x|, r) { StoredForwards(o, s, r, t); } else { StoredWaits(o, s, r, t); }
  }

  /** Before r has forwarded, nothing comes back. */
  lemma {:induction false} NotYetAsked<T>(o: Operation<T>, s: State<T>, r: nat)
    requires Inv(o, s) && r < |o.x| && r !in s.sent
    ensures r !in s.got
    ensures forall q :: q !in s.asked && q !in s.results
  {
    assert ProcOk(o, s, r);
    forall q ensures q !in s.asked {
      if q in s.asked { AskedAfterAll(o, s, q, r); }
    }
    forall q ensures q !in s.results {
      assert q in s.results ==> ProcOk(o, s, q);
    }
  }

  lemma {:induction false} StartKeeps<T(!new)>(o: Operation<T>, s: State<T>, r: nat)
    requires Lawful(o.M) && Inv(o, s) && r < |o.x| && r !in s.started
    ensures var t := s.procs[r].(mode := o.mode, self := o.x[r], arrived := s.procs[r].arrived + 1);
            Pending(o, s.(started := s.started + {r}), r, t)
  {
    assert ProcOk(o, s, r);
    CountLimit(|o.x|, s, r);
    NotYetAsked(o, s, r);
    var u := s.(started := s.started + {r});
    assert u.net == s.net;
    forall j | 0 <= j < |u.net| ensures MessageOk(o, u, u.net[j]) {
      assert MessageOk(o, s, s.net[j]);
    }
    forall i, j | 0 <= i < j < |u.net| ensures !Alike(u.net[i], u.net[j]) {
      assert !Alike(s.net[i], s.net[j]);
    }
    forall q | 0 <= q < |o.x| && q != r ensures ProcOk(o, u, q) {
      assert ProcOk(o, s, q);
      StillTravelling(s, u, q, []);
    }
  }

  lemma {:induction false} Remaining<T>(s: State<T>, u: State<T>, pos: nat, q: nat)
    requires pos < |s.net| && u.net == RemoveAt(s.net, pos)
    ensures Climbing(s, q) && !(s.net[pos].Up? && s.net[pos].src == q) ==> Climbing(u, q)
    ensures Descending(s, q) && !(s.net[pos].Down? && s.net[pos].dst == q) ==> Descending(u, q)
  {
    if Climbing(s, q) && !(s.net[pos].Up? && s.net[pos].src == q) {
      var j :| 0 <= j < |s.net| && s.net[j].Up? && s.net[j].src == q;
      assert u.net[if j < pos then j else j - 1] == s.net[j];
    }
    if Descending(s, q) && !(s.net[pos].Down? && s.net[pos].dst == q) {
      var j :| 0 <= j < |s.net| && s.net[j].Down? && s.net[j].dst == q;
      assert u.net[if j < pos then j else j - 1] == s.net[j];
    }
  }

  /** The messages left after taking out one of them: all unlike it. */
  lemma {:induction false} OthersUnlike<T>(o: Operation<T>, s: State<T>, pos: nat)
    requires NetOk(o, s) && pos < |s.net|
    ensures var rest := RemoveAt(s.net, pos);
      && (forall j :: 0 <= j < |rest| ==> MessageOk(o, s, rest[j]) && !Alike(rest[j], s.net[pos]))
      && (forall i, j {:trigger Alike(rest[i], rest[j])} :: 0 <= i < j < |rest| ==> !Alike(rest[i], rest[j]))
  {
    var rest := RemoveAt(s.net, pos);
    forall j | 0 <= j < |rest| ensures MessageOk(o, s, rest[j]) && !Alike(rest[j], s.net[pos]) {
      var i := if j < pos then j else j + 1;
      assert rest[j] == s.net[i] && MessageOk(o, s, s.net[i]);
      assert if i < pos then !Alike(s.net[i], s.net[pos]) else !Alike(s.net[pos], s.net[i]);
    }
    forall i, j | 0 <= i < j < |rest| ensures !Alike(rest[i], rest[j]) {
      var a, b := if i < pos then i else i + 1, if j < pos then j else j + 1;
      assert !Alike(s.net[a], s.net[b]);
    }
  }

  /** The state after an upward message has been taken out and counted. */
  ghost function Counted<T>(s: State<T>, pos: nat): State<T>
    requires pos < |s.net| && s.net[pos].Up?
  {
    s.(net := RemoveAt(s.net, pos), got := s.got + {s.net[pos].src})
  }

  lemma {:induction false} CountedNet<T>(o: Operation<T>, s: State<T>, pos: nat)
    requires NetOk(o, s) && pos < |s.net| && s.net[pos].Up?
    ensures NetOk(o, Counted(s, pos))
  {
    var u := Counted(s, pos);
    OthersUnlike(o, s, pos);
    assert MessageOk(o, s, s.net[pos]);
    forall j | 0 <= j < |u.net| ensures MessageOk(o, u, u.net[j]) {
      assert MessageOk(o, s, u.net[j]) && !Alike(u.net[j], s.net[pos]);
    }
  }

  lemma {:induction false} CountedOthers<T>(o: Operation<T>, s: State<T>, pos: nat, q: nat)
    requires Inv(o, s) && pos < |s.net| && s.net[pos].Up? && q < |o.x| && q != s.net[pos].dst
    ensures ProcOk(o, Counted(s, pos), q)
  {
    assert MessageOk(o, s, s.net[pos]);
    assert ProcOk(o, s, q);
    LeftSubtree(|o.x|, q);
    RightSubtree(|o.x|, q);
    Remaining(s, Counted(s, pos), pos, q);
  }

  lemma {:induction false} UpKeeps<T(!new)>(o: Operation<T>, s: State<T>, pos: nat)
    requires Inv(o, s) && pos < |s.net| && s.net[pos].Up?
    ensures var m := s.net[pos];
      m.dst < |o.x| &&
      var l := s.procs[m.dst].(arrived := s.procs[m.dst].arrived + 1);
      Pending(o, Counted(s, pos), m.dst, if m.src < m.dst then l.(left := m.value) else l.(right := m.value))
  {
    var m := s.net[pos];
    assert MessageOk(o, s, m);
    var r := m.dst;
    ParentHasChild(|o.x|, m.src);
    LeftSubtree(|o.x|, r);
    RightSubtree(|o.x|, r);
    assert ProcOk(o, s, r);
    CountLimit(|o.x|, s, r);
    NotYetAsked(o, s, r);
    CountedNet(o, s, pos);
    forall q | 0 <= q < |o.x| && q != r ensures ProcOk(o, Counted(s, pos), q) {
      CountedOthers(o, s, pos, q);
    }
  }

  /** A process which has everything from below turns what it gets from above into the right result. */
  lemma {:induction false} DigestIsRight<T(!new)>(o: Operation<T>, r: nat, l: Local<T>)
    requires Lawful(o.M) && r < |o.x| && l.mode == o.mode && l.self == o.x[r]
    requires LeftChild(r) >= 0 ==> LeftChild(r) < |o.x| && l.left == BlockSum(o, LeftChild(r))
    ensures Digested(o.M, |o.x|, r, l, DownItems(o, r)).1 == Expected(o, r)
    ensures Digested(o.M, |o.x|, r, l, DownItems(o, r)).0 == ToChildren(o, r)
  {
    PrefixSplits(o, r);
    LeftSubtree(|o.x|, r);
    RightSubtree(|o.x|, r);
  }

  function ToChildren<T>(o: Operation<T>, r: nat): seq<Message<T>>
    requires r < |o.x|
  {
    LeftSubtree(|o.x|, r);
    RightSubtree(|o.x|, r);
    (if LeftChild(r) >= 0 then [Down(r, LeftChild(r), DownItems(o, LeftChild(r)))] else []) +
    (if RightChild(|o.x|, r) >= 0 then [Down(r, RightChild(|o.x|, r), DownItems(o, RightChild(|o.x|, r)))] else [])
  }

  lemma {:induction false} ToChildrenFacts<T>(o: Operation<T>, r: nat)
    requires r < |o.x|
    ensures var ms := ToChildren(o, r);
      && (forall j :: 0 <= j < |ms| ==>
            ms[j].Down? && ms[j].dst < |o.x| && Parent(|o.x|, ms[j].dst) == r && ms[j].items == DownItems(o, ms[j].dst))
      && (forall i, j :: 0 <= i < j < |ms| ==> ms[i].dst != ms[j].dst)
      && (forall c :: c in Targets(ms) <==> 0 <= c < |o.x| && Parent(|o.x|, c) == r)
      && (forall c :: c in Targets(ms) ==> exists j :: 0 <= j < |ms| && ms[j].dst == c)
  {
    LeftSubtree(|o.x|, r);
    RightSubtree(|o.x|, r);
    var ms := ToChildren(o, r);
    forall c | c in Targets(ms)
      ensures 0 <= c < |o.x| && Parent(|o.x|, c) == r && exists j :: 0 <= j < |ms| && ms[j].dst == c
    {
      var m :| m in ms && m.Down? && m.dst == c;
      var j :| 0 <= j < |ms| && ms[j] == m;
    }
    forall c | 0 <= c < |o.x| && Parent(|o.x|, c) == r ensures c in Targets(ms) {
      ParentHasChild(|o.x|, c);
      if c < r { assert ms[0] in ms; } else { assert ms[|ms| - 1] in ms; }
    }
  }

  lemma {:induction false} DownKeeps<T(!new)>(o: Operation<T>, s: State<T>, pos: nat)
    requires Lawful(o.M) && Inv(o, s) && pos < |s.net| && s.net[pos].Down?
    ensures var r := s.net[pos].dst;
      && r < |o.x| && s.net[pos].items == DownItems(o, r)
      && Digested(o.M, |o.x|, r, s.procs[r], s.net[pos].items) == (ToChildren(o, r), Expected(o, r))
      && r in s.asked && r !in s.results && r in s.sent
  {
    var r := s.net[pos].dst;
    assert MessageOk(o, s, s.net[pos]);
    AskedAfterAll(o, s, r, r);
    assert ProcOk(o, s, r);
    CountLimit(|o.x|, s, r);
    LeftSubtree(|o.x|, r);
    DigestIsRight(o, r, s.procs[r]);
  }

  /** The state after the digestion of a result at r. */
  ghost function AfterDigest<T>(o: Operation<T>, s: State<T>, pos: nat, r: nat): State<T>
    requires |s.procs| == |o.x| && r < |o.x| && pos < |s.net|
  {
    s.(net := RemoveAt(s.net, pos) + ToChildren(o, r), results := s.results[r := Expected(o, r)],
       procs := s.procs[r := FreshLocal(o.M)], asked := s.asked + Targets(ToChildren(o, r)))
  }

  ghost predicate Digesting<T>(o: Operation<T>, s: State<T>, pos: nat, r: nat)
  {
    Inv(o, s) && pos < |s.net| && s.net[pos].Down? && s.net[pos].dst == r < |o.x|
    && r in s.asked && r !in s.results && r in s.sent
  }

  lemma {:induction false} ChildrenNotAsked<T>(o: Operation<T>, s: State<T>, pos: nat, r: nat, c: nat)
    requires Digesting(o, s, pos, r) && c < |o.x| && Parent(|o.x|, c) == r
    ensures c !in s.asked && c !in s.results && c != r && c in s.sent
  {
    assert ProcOk(o, s, c);
    AskedAfterAll(o, s, r, c);
    ParentHasChild(|o.x|, c);
  }

  lemma {:induction false} DigestNet<T>(o: Operation<T>, s: State<T>, pos: nat, r: nat)
    requires Digesting(o, s, pos, r)
    ensures NetOk(o, AfterDigest(o, s, pos, r))
  {
    var s' := AfterDigest(o, s, pos, r);
    var ms := ToChildren(o, r);
    ToChildrenFacts(o, r);
    OthersUnlike(o, s, pos);
    var rest := RemoveAt(s.net, pos);
    forall j | 0 <= j < |ms| ensures ms[j].dst !in s.asked && ms[j].dst !in s.results && ms[j].dst != r &&
      ms[j].dst in Targets(ms) {
      ChildrenNotAsked(o, s, pos, r, ms[j].dst);
    }
    forall j | 0 <= j < |s'.net| ensures MessageOk(o, s', s'.net[j]) {
      if j < |rest| {
        assert s'.net[j] == rest[j] && MessageOk(o, s, rest[j]) && !Alike(rest[j], s.net[pos]);
      } else {
        assert s'.net[j] == ms[j - |rest|];
      }
    }
    forall i, j | 0 <= i < j < |s'.net| ensures !Alike(s'.net[i], s'.net[j]) {
      if j < |rest| {
        assert !Alike(rest[i], rest[j]);
      } else {
        assert s'.net[j] == ms[j - |rest|];
        if i < |rest| { assert MessageOk(o, s, rest[i]); }
      }
    }
  }

  lemma {:induction false} DigestTravelling<T>(o: Operation<T>, s: State<T>, pos: nat, r: nat, q: nat)
    requires Digesting(o, s, pos, r) && q < |o.x|
    ensures Climbing(s, q) ==> Climbing(AfterDigest(o, s, pos, r), q)
    ensures q != r && Descending(s, q) ==> Descending(AfterDigest(o, s, pos, r), q)
    ensures Parent(|o.x|, q) == r ==>
      Descending(AfterDigest(o, s, pos, r), q) && q !in s.asked && q !in s.results && q != r
    ensures q in AfterDigest(o, s, pos, r).asked <==> q in s.asked || Parent(|o.x|, q) == r
  {
    var s' := AfterDigest(o, s, pos, r);
    var ms := ToChildren(o, r);
    ToChildrenFacts(o, r);
    var u := s.(net := RemoveAt(s.net, pos));
    Remaining(s, u, pos, q);
    StillTravelling(u, s', q, ms);
    if Parent(|o.x|, q) == r {
      ChildrenNotAsked(o, s, pos, r, q);
      assert q in Targets(ms);
      var j :| 0 <= j < |ms| && ms[j].dst == q;
      assert s'.net[|u.net| + j] == ms[j];
    }
  }

  lemma {:induction false} DigestProc<T>(o: Operation<T>, s: State<T>, pos: nat, r: nat, q: nat)
    requires Digesting(o, s, pos, r) && q < |o.x|
    ensures ProcOk(o, AfterDigest(o, s, pos, r), q)
  {
    DigestTravelling(o, s, pos, r, q);
    assert ProcOk(o, s, q);
    var s' := AfterDigest(o, s, pos, r);
    assert s'.sent == s.sent && s'.got == s.got && s'.started == s.started;
    assert forall k :: k in s'.results <==> k in s.results || k == r;
    assert q != r ==> s'.procs[q] == s.procs[q];
    if q == r { assert ProcOk(o, s, r); }
  }

  lemma {:induction false} DigestKeeps<T>(o: Operation<T>, s: State<T>, pos: nat, r: nat)
    requires Digesting(o, s, pos, r)
    ensures Inv(o, AfterDigest(o, s, pos, r))
  {
    DigestNet(o, s, pos, r);
    forall q | 0 <= q < |o.x| ensures ProcOk(o, AfterDigest(o, s, pos, r), q) {
      DigestProc(o, s, pos, r, q);
    }
  }

  lemma {:induction false} InvIsSafe<T>(o: Operation<T>, s: State<T>)
    requires Inv(o, s)
    ensures forall m :: m in s.net ==> m.dst < |o.x| && (m.Down? ==> m.items != [])
  {
    forall m | m in s.net ensures m.dst < |o.x| && (m.Down? ==> m.items != []) {
      var j :| 0 <= j < |s.net| && s.net[j] == m;
      assert MessageOk(o, s, s.net[j]);
    }
  }

  lemma {:induction false} StepKeeps<T(!new)>(o: Operation<T>, s: State<T>, ev: Event)
    requires Lawful(o.M) && Inv(o, s) && Enabled(o, s, ev)
    requires forall m :: m in s.net ==> m.dst < |o.x| && (m.Down? ==> m.items != [])
    ensures Inv(o, Step(o, s, ev))
  {
    match ev
    case Start(r) =>
      StartKeeps(o, s, r);
      StoredKeeps(o, s.(started := s.started + {r}), r,
                  s.procs[r].(mode := o.mode, self := o.x[r], arrived := s.procs[r].arrived + 1));
    case Deliver(pos) =>
      var m := s.net[pos];
      if m.Up? {
        UpKeeps(o, s, pos);
        var l := s.procs[m.dst].(arrived := s.procs[m.dst].arrived + 1);
        StoredKeeps(o, Counted(s, pos), m.dst,
                    if m.src < m.dst then l.(left := m.value) else l.(right := m.value));
      } else {
        DownKeeps(o, s, pos);
        DigestKeeps(o, s, pos, m.dst);
      }
  }

  // ---------------------------------------------------------------------
  // Runs
  // ---------------------------------------------------------------------

  ghost predicate Sound<T>(o: Operation<T>, s: State<T>)
  {
    |s.procs| == |o.x| && forall m :: m in s.net ==> m.dst < |o.x| && (m.Down? ==> m.items != [])
  }

  ghost predicate IsRun<T>(o: Operation<T>, tr: seq<State<T>>, evs: seq<Event>)
  {
    && |tr| == |evs| + 1 && Initial(o, tr[0])
    && forall i {:trigger evs[i]} :: 0 <= i < |evs| ==>
         Enabled(o, tr[i], evs[i]) && (Sound(o, tr[i]) ==> tr[i + 1] == Step(o, tr[i], evs[i]))
  }

  lemma {:induction false} RunInv<T(!new)>(o: Operation<T>, tr: seq<State<T>>, evs: seq<Event>, i: nat)
    requires Lawful(o.M) && IsRun(o, tr, evs) && i < |tr|
    ensures Inv(o, tr[i]) && Sound(o, tr[i])
  {
    if i == 0 {
      forall r | 0 <= r < |o.x| ensures ProcOk(o, tr[0], r) {
        assert tr[0].procs[r] == FreshLocal(o.M);
      }
    } else {
      RunInv(o, tr, evs, i - 1);
      var ev := evs[i - 1];
      assert Enabled(o, tr[i - 1], ev);
      StepKeeps(o, tr[i - 1], ev);
    }
    InvIsSafe(o, tr[i]);
  }

  /**
   For any order in which processes join and messages arrive: every result that is published at
   rank r is the promised one, i.e. made of the rank-ordered aggregates over all i < r, over all
   i <= r, and over all ranks.
   */
  lemma {:induction false} ResultsAreRight<T(!new)>(o: Operation<T>, tr: seq<State<T>>, evs: seq<Event>, i: nat)
    requires Lawful(o.M) && IsRun(o, tr, evs) && i < |tr|
    ensures forall r :: r in tr[i].results ==> r < |o.x| && tr[i].results[r] == Expected(o, r)
  {
    RunInv(o, tr, evs, i);
    forall r | r in tr[i].results ensures tr[i].results[r] == Expected(o, r) {
      assert ProcOk(o, tr[i], r);
    }
  }

  /** r's subtree has forwarded once no message is in flight and everybody has joined. */
  lemma {:induction false} AllForwarded<T>(o: Operation<T>, s: State<T>, r: nat)
    requires Inv(o, s) && s.net == [] && r < |o.x| && forall q :: 0 <= q < |o.x| ==> q in s.started
    ensures r in s.sent
    decreases Power(r)
  {
    LeftSubtree(|o.x|, r);
    RightSubtree(|o.x|, r);
    assert ProcOk(o, s, r);
    if LeftChild(r) >= 0 {
      var c := LeftChild(r);
      ParentHasChild(|o.x|, c);
      AllForwarded(o, s, c);
      assert ProcOk(o, s, c);
    }
    if RightChild(|o.x|, r) >= 0 {
      var c := RightChild(|o.x|, r);
      ParentHasChild(|o.x|, c);
      AllForwarded(o, s, c);
      assert ProcOk(o, s, c);
    }
    if r !in s.sent { NotYetAsked(o, s, r); }
  }

  lemma {:induction false} AllAnswered<T>(o: Operation<T>, s: State<T>, r: nat)
    requires Inv(o, s) && s.net == [] && r < |o.x| && forall q :: 0 <= q < |o.x| ==> q in s.started
    ensures r in s.results
    decreases |o.x| - Power(r)
  {
    assert ProcOk(o, s, r);
    if Parent(|o.x|, r) < 0 {
      AllForwarded(o, s, r);
    } else {
      ParentHasChild(|o.x|, r);
      AllAnswered(o, s, Parent(|o.x|, r));
    }
  }

  /** When everybody has joined and nothing is in flight any more, everybody has the right result. */
  lemma {:induction false} OperationCompletes<T(!new)>(o: Operation<T>, tr: seq<State<T>>, evs: seq<Event>, i: nat)
    requires Lawful(o.M) && IsRun(o, tr, evs) && i < |tr|
    requires tr[i].net == [] && forall q :: 0 <= q < |o.x| ==> q in tr[i].started
    ensures forall r :: 0 <= r < |o.x| ==> r in tr[i].results && tr[i].results[r] == Expected(o, r)
  {
    RunInv(o, tr, evs, i);
    forall r | 0 <= r < |o.x| ensures r in tr[i].results && tr[i].results[r] == Expected(o, r) {
      AllAnswered(o, tr[i], r);
      assert ProcOk(o, tr[i], r);
    }
  }
}
