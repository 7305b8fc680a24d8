/**
 Sparse prefix sums (AsyncCollective in src/comm/async_collective.hpp): processes contribute at any
 time and any number of times; contributions are bundled on their way up the in-order tree, and every
 bundle which reaches the root is answered by one broadcast. Channels are FIFO.
 */
module SparsePrefixSum {
  import opened Monoids
  import opened InOrderTree

  /** The contributions which a process forwards together; an ID of zero stands for "none". */
  datatype Bundle<T> = Bundle(self: T, selfId: nat, left: T, leftId: nat, right: T, rightId: nat)

  datatype Kind = Self | Left | Right

  function EmptyBundle<T>(M: Monoid<T>): Bundle<T>
  {
    Bundle(M.unit, 0, M.unit, 0, M.unit, 0)
  }

  function Id<T>(b: Bundle<T>, kind: Kind): nat
  {
    match kind case Self => b.selfId case Left => b.leftId case Right => b.rightId
  }

  function Val<T>(b: Bundle<T>, kind: Kind): T
  {
    match kind case Self => b.self case Left => b.left case Right => b.right
  }

  function WithSlot<T>(b: Bundle<T>, kind: Kind, value: T, id: nat): Bundle<T>
  {
    match kind
    case Self => b.(self := value, selfId := id)
    case Left => b.(left := value, leftId := id)
    case Right => b.(right := value, rightId := id)
  }

  predicate HasContributions<T>(b: Bundle<T>)
  {
    b.selfId != 0 || b.leftId != 0 || b.rightId != 0
  }

  /** aggregateContributions */
  function Aggregated<T>(M: Monoid<T>, b: Bundle<T>): T
  {
    var a := if b.leftId != 0 then M.op(M.unit, b.left) else M.unit;
    var c := if b.selfId != 0 then M.op(a, b.self) else a;
    if b.rightId != 0 then M.op(c, b.right) else c
  }

  // ---------------------------------------------------------------------
  // What a process does
  // ---------------------------------------------------------------------

  /** A process: the ID of the bundle currently in preparation, and the bundles (SparseOperationState). */
  datatype Local<T> = Local(counter: nat, bundles: map<nat, Bundle<T>>)

  datatype UpMsg<T> = UpMsg(value: T, id: nat)
  datatype DownMsg<T> = DownMsg(prefix: T, total: T, id: nat)

  /** A bundle which does not exist yet is empty. */
  function Get<T>(M: Monoid<T>, bundles: map<nat, Bundle<T>>, k: nat): Bundle<T>
  {
    if k in bundles then bundles[k] else EmptyBundle(M)
  }

  /** The first bundle from ID k on with a free slot of this kind. */
  function FirstFree<T>(M: Monoid<T>, bundles: map<nat, Bundle<T>>, kind: Kind, k: nat): (f: nat)
    ensures f >= k && Id(Get(M, bundles, f), kind) == 0
    ensures forall j :: k <= j < f ==> Id(Get(M, bundles, j), kind) != 0
    decreases |bundles.Keys - (set j | j in bundles && j < k)|
  {
    if Id(Get(M, bundles, k), kind) == 0 then k
    else
      assert k in bundles;
      var a := bundles.Keys - (set j | j in bundles && j < k);
      var b := bundles.Keys - (set j | j in bundles && j < k + 1);
      assert k in a && b == a - {k};
      FirstFree(M, bundles, kind, k + 1)
  }

  /** Put a contribution into the first free slot of the bundles which have not been sent. */
  function Added<T>(M: Monoid<T>, l: Local<T>, kind: Kind, value: T, id: nat): Local<T>
  {
    var k := FirstFree(M, l.bundles, kind, l.counter);
    var i := if kind == Self then k else id;
    l.(bundles := l.bundles[k := WithSlot(Get(M, l.bundles, k), kind, value, i)])
  }

  /** broadcastAndDigest: messages for the left and right child, and the local result. */
  function Digested<T>(M: Monoid<T>, size: nat, r: nat, b: Bundle<T>, m: DownMsg<T>)
    : (DownMsg<T>, DownMsg<T>, (T, T, T))
  {
    var exclusive := if LeftChild(r) >= 0 then M.op(m.prefix, b.left) else m.prefix;
    var inclusive := M.op(exclusive, b.self);
    (m.(id := b.leftId), DownMsg(inclusive, m.total, b.rightId), (exclusive, inclusive, m.total))
  }

  /** The bundle a broadcast refers to; a broadcast without an own contribution carries the ID 0. */
  function Referred<T>(M: Monoid<T>, l: Local<T>, id: nat): Bundle<T>
  {
    if id == 0 then EmptyBundle(M) else Get(M, l.bundles, id)
  }

  /** The bundle two before the broadcast one is not needed any more. */
  function CleanedUp<T>(l: Local<T>, id: nat): Local<T>
  {
    if id >= 2 then l.(bundles := l.bundles - {id - 2}) else l
  }

  // ---------------------------------------------------------------------
  // All processes together
  // ---------------------------------------------------------------------

  /**
   ups[c] are the messages from c to its parent, downs[r] those from r's parent (or from the root to
   itself) to r, results[r] the results published at r. The history variables log and hist are the
   contributions made by each process and the bundles it has forwarded.
   */
  datatype State<T> = State(
    procs: seq<Local<T>>, ups: seq<seq<UpMsg<T>>>, downs: seq<seq<DownMsg<T>>>, results: seq<seq<(T, T, T)>>,
    log: seq<seq<T>>, hist: seq<seq<Bundle<T>>>)

  datatype Event<T> = Contribute(rank: nat, x: T) | Advance(rank: nat) | DeliverUp(child: nat) | DeliverDown(rank: nat)

  predicate Sized<T>(size: nat, s: State<T>)
  {
    |s.procs| == |s.ups| == |s.downs| == |s.results| == |s.log| == |s.hist| == size
  }

  function Side(size: nat, c: nat): Kind
  {
    if c < Parent(size, c) then Left else Right
  }

  ghost predicate Enabled<T>(M: Monoid<T>, size: nat, s: State<T>, ev: Event<T>)
    requires Sized(size, s)
  {
    match ev
    case Contribute(r, _) => r < size
    case Advance(r) => r < size && HasContributions(Get(M, s.procs[r].bundles, s.procs[r].counter))
    case DeliverUp(c) => c < size && Parent(size, c) >= 0 && s.ups[c] != []
    case DeliverDown(r) => r < size && s.downs[r] != []
  }

  ghost function Step<T>(M: Monoid<T>, size: nat, s: State<T>, ev: Event<T>): (s': State<T>)
    requires Sized(size, s) && Enabled(M, size, s, ev)
    ensures Sized(size, s')
  {
    match ev
    case Contribute(r, x) =>
      s.(procs := s.procs[r := Added(M, s.procs[r], Self, x, 0)], log := s.log[r := s.log[r] + [x]])
    case Advance(r) =>
      var l := s.procs[r];
      var b := Get(M, l.bundles, l.counter);
      var u := s.(procs := s.procs[r := l.(counter := l.counter + 1)], hist := s.hist[r := s.hist[r] + [b]]);
      if Parent(size, r) < 0 then
        u.(downs := u.downs[r := u.downs[r] + [DownMsg(M.unit, Aggregated(M, b), l.counter)]])
      else
        u.(ups := u.ups[r := u.ups[r] + [UpMsg(Aggregated(M, b), l.counter)]])
    case DeliverUp(c) =>
      var m := s.ups[c][0];
      ParentHasChild(size, c);
      var r := Parent(size, c);
      s.(procs := s.procs[r := Added(M, s.procs[r], Side(size, c), m.value, m.id)], ups := s.ups[c := s.ups[c][1..]])
    case DeliverDown(r) =>
      var m := s.downs[r][0];
      var d := Digested(M, size, r, Referred(M, s.procs[r], m.id), m);
      LeftSubtree(size, r);
      RightSubtree(size, r);
      var downs := s.downs[r := s.downs[r][1..]];
      var downs' := if LeftChild(r) >= 0 then downs[LeftChild(r) := downs[LeftChild(r)] + [d.0]] else downs;
      var downs'' := if RightChild(size, r) >= 0 then
        downs'[RightChild(size, r) := downs'[RightChild(size, r)] + [d.1]] else downs';
      s.(procs := s.procs[r := CleanedUp(s.procs[r], m.id)], downs := downs'', results :=
        s.results[r := s.results[r] + [d.2]])
  }

  ghost predicate Initial<T>(size: nat, s: State<T>)
  {
    s == State(seq(size, i => Local(1, map[])), seq(size, i => []), seq(size, i => []), seq(size, i => []),
               seq(size, i => []), seq(size, i => []))
  }

  // ---------------------------------------------------------------------
  // What a broadcast contains
  // ---------------------------------------------------------------------

  /** How many of the bundles have a contribution of this kind. */
  function Cnt<T>(h: seq<Bundle<T>>, kind: Kind): nat
  {
    if h == [] then 0 else Cnt(h[..|h| - 1], kind) + if Id(h[|h| - 1], kind) != 0 then 1 else 0
  }

  /** Which of q's bundles is part of the n-th broadcast (0 if none), given all forwarded bundles H. */
  function Part<T>(size: nat, H: seq<seq<Bundle<T>>>, q: nat, n: nat): nat
    requires |H| == size && q < size
    decreases size - Power(q)
  {
    if Parent(size, q) < 0 then n
    else
      ParentHasChild(size, q);
      var r := Parent(size, q);
      var k := Part(size, H, r, n);
      if k == 0 || k > |H[r]| then 0 else Id(H[r][k - 1], Side(size, q))
  }

  /** What q itself contributes to the n-th broadcast. */
  function Share<T>(M: Monoid<T>, size: nat, H: seq<seq<Bundle<T>>>, q: nat, n: nat): T
    requires |H| == size && q < size
  {
    var k := Part(size, H, q, n);
    if k == 0 || k > |H[q]| then M.unit else H[q][k - 1].self
  }

  /** The contributions of all ranks to the n-th broadcast. */
  ghost function Shares<T>(M: Monoid<T>, size: nat, H: seq<seq<Bundle<T>>>, n: nat): (x: seq<T>)
    requires |H| == size
    ensures |x| == size
  {
    seq(size, q requires 0 <= q < size => Share(M, size, H, q, n))
  }

  /** The number of broadcasts up to the n-th one to which q's subtree contributed. */
  function PartCount<T>(size: nat, H: seq<seq<Bundle<T>>>, q: nat, n: nat): nat
    requires |H| == size && q < size
  {
    if n == 0 then 0 else PartCount(size, H, q, n - 1) + if Part(size, H, q, n) != 0 then 1 else 0
  }

  // ---------------------------------------------------------------------
  // The way up: every contribution is in exactly one slot, in order
  // ---------------------------------------------------------------------

  /** Bundle b holds the i-th contribution of this kind. */
  predicate Holds<T(==)>(kind: Kind, src: seq<T>, b: Bundle<T>, i: int)
  {
    0 <= i < |src| && Id(b, kind) != 0 && Val(b, kind) == src[i] && (kind != Self ==> Id(b, kind) == i + 1)
  }

  /** Bundle b has no contribution of this kind. */
  predicate Lacks<T(==)>(M: Monoid<T>, kind: Kind, b: Bundle<T>)
  {
    Id(b, kind) == 0 && Val(b, kind) == M.unit
  }

  predicate HistSlot<T(==)>(M: Monoid<T>, kind: Kind, src: seq<T>, h: seq<Bundle<T>>, k: nat)
    requires k < |h|
  {
    if Id(h[k], kind) == 0 then Lacks(M, kind, h[k]) else Holds(kind, src, h[k], Cnt(h[..k], kind))
  }

  predicate PendingSlot<T(==)>(M: Monoid<T>, kind: Kind, src: seq<T>, c: nat, l: Local<T>, k: nat)
  {
    var b := Get(M, l.bundles, k);
    if k < l.counter + |src| - c then Holds(kind, src, b, c + k - l.counter) else Lacks(M, kind, b)
  }

  /**
   The contributions src of one kind which have reached a process: the forwarded bundles h hold the
   first ones in order, the bundles in preparation hold the following ones without a gap, and all later
   slots are free.
   */
  ghost predicate SlotOk<T>(M: Monoid<T>, kind: Kind, src: seq<T>, h: seq<Bundle<T>>, l: Local<T>)
  {
    && Cnt(h, kind) <= |src|
    && (forall k {:trigger HistSlot(M, kind, src, h, k)} :: 0 <= k < |h| ==> HistSlot(M, kind, src, h, k))
    && (forall k: nat {:trigger PendingSlot(M, kind, src, Cnt(h, kind), l, k)} ::
          k >= l.counter ==> PendingSlot(M, kind, src, Cnt(h, kind), l, k))
  }

  /** The first free slot comes right after the contributions in preparation. */
  lemma {:induction false} FreeSlot<T>(M: Monoid<T>, kind: Kind, src: seq<T>, h: seq<Bundle<T>>, l: Local<T>)
    requires SlotOk(M, kind, src, h, l)
    ensures FirstFree(M, l.bundles, kind, l.counter) == l.counter + |src| - Cnt(h, kind)
  {
    var f := FirstFree(M, l.bundles, kind, l.counter);
    var c := Cnt(h, kind);
    assert PendingSlot(M, kind, src, c, l, f);
    assert PendingSlot(M, kind, src, c, l, l.counter + |src| - c);
  }

  /** One more contribution of this kind has been added to the bundles. */
  lemma {:induction false} SlotFilled<T>(M: Monoid<T>, kind: Kind, src: seq<T>, h: seq<Bundle<T>>, l: Local<T>,
      value: T, id: nat)
    requires SlotOk(M, kind, src, h, l) && l.counter > 0
    requires kind != Self ==> id == |src| + 1
    ensures SlotOk(M, kind, src + [value], h, Added(M, l, kind, value, id))
  {
    FreeSlot(M, kind, src, h, l);
    var l' := Added(M, l, kind, value, id);
    var c := Cnt(h, kind);
    forall k | 0 <= k < |h| ensures HistSlot(M, kind, src + [value], h, k) {
      assert HistSlot(M, kind, src, h, k);
    }
    forall k: nat | k >= l'.counter ensures PendingSlot(M, kind, src + [value], c, l', k) {
      assert PendingSlot(M, kind, src, c, l, k);
    }
  }

  /** A slot is not affected by what happens to the other slots. */
  lemma {:induction false} SlotUntouched<T>(M: Monoid<T>, kind: Kind, src: seq<T>, h: seq<Bundle<T>>, l: Local<T>,
      l': Local<T>)
    requires SlotOk(M, kind, src, h, l) && l'.counter == l.counter
    requires forall k: nat :: k >= l.counter ==>
      Id(Get(M, l'.bundles, k), kind) == Id(Get(M, l.bundles, k), kind)
      && Val(Get(M, l'.bundles, k), kind) == Val(Get(M, l.bundles, k), kind)
    ensures SlotOk(M, kind, src, h, l')
  {
    var c := Cnt(h, kind);
    forall k: nat | k >= l'.counter ensures PendingSlot(M, kind, src, c, l', k) {
      assert PendingSlot(M, kind, src, c, l, k);
    }
  }

  /** The bundle in preparation has been sent: it now is the last forwarded one. */
  lemma {:induction false} SlotAdvanced<T>(M: Monoid<T>, kind: Kind, src: seq<T>, h: seq<Bundle<T>>, l: Local<T>)
    requires SlotOk(M, kind, src, h, l)
    ensures SlotOk(M, kind, src, h + [Get(M, l.bundles, l.counter)], l.(counter := l.counter + 1))
  {
    var b := Get(M, l.bundles, l.counter);
    var h', l' := h + [b], l.(counter := l.counter + 1);
    var c, c' := Cnt(h, kind), Cnt(h', kind);
    assert h'[..|h|] == h;
    assert PendingSlot(M, kind, src, c, l, l.counter);
    forall k | 0 <= k < |h'| ensures HistSlot(M, kind, src, h', k) {
      if k < |h| {
        assert h'[..k] == h[..k] && HistSlot(M, kind, src, h, k);
      }
    }
    forall k: nat | k >= l'.counter ensures PendingSlot(M, kind, src, c', l', k) {
      assert PendingSlot(M, kind, src, c, l, k);
    }
  }

  function ChildOf(size: nat, r: nat, kind: Kind): int
  {
    match kind case Self => -1 case Left => LeftChild(r) case Right => RightChild(size, r)
  }

  lemma {:induction false} ChildFacts(size: nat, r: nat, kind: Kind)
    requires r < size
    ensures var c := ChildOf(size, r, kind);
      -1 <= c < size && (c >= 0 ==> Parent(size, c) == r && Side(size, c) == kind && kind != Self)
  {
    LeftSubtree(size, r);
    RightSubtree(size, r);
  }

  ghost function Sums<T>(M: Monoid<T>, h: seq<Bundle<T>>): (x: seq<T>)
    ensures |x| == |h|
  {
    seq(|h|, i requires 0 <= i < |h| => Aggregated(M, h[i]))
  }

  /** The contributions of this kind which have reached r: own ones, or the bundles of a child. */
  ghost function Src<T>(M: Monoid<T>, size: nat, s: State<T>, r: nat, kind: Kind): seq<T>
    requires Sized(size, s) && r < size
  {
    ChildFacts(size, r, kind);
    var c := ChildOf(size, r, kind);
    if kind == Self then s.log[r]
    else if c >= 0 && |s.ups[c]| <= |s.hist[c]| then Sums(M, s.hist[c][..|s.hist[c]| - |s.ups[c]|])
    else []
  }

  /** The messages from c to its parent are its latest bundles. */
  ghost predicate ChannelOk<T>(M: Monoid<T>, size: nat, s: State<T>, c: nat)
    requires Sized(size, s) && c < size
  {
    var d := |s.hist[c]| - |s.ups[c]|;
    && d >= 0
    && (Parent(size, c) < 0 ==> s.ups[c] == [])
    && forall j :: 0 <= j < |s.ups[c]| ==> s.ups[c][j] == UpMsg(Aggregated(M, s.hist[c][d + j]), d + j + 1)
  }

  ghost predicate SlotsOk<T>(M: Monoid<T>, size: nat, s: State<T>, r: nat, kind: Kind)
    requires Sized(size, s) && r < size
  {
    SlotOk(M, kind, Src(M, size, s, r, kind), s.hist[r], s.procs[r])
  }

  ghost predicate UpOk<T>(M: Monoid<T>, size: nat, s: State<T>, r: nat)
    requires Sized(size, s) && r < size
  {
    && s.procs[r].counter == |s.hist[r]| + 1
    && (forall kind {:trigger SlotsOk(M, size, s, r, kind)} :: SlotsOk(M, size, s, r, kind))
    && ChannelOk(M, size, s, r)
  }

  ghost predicate UpInv<T>(M: Monoid<T>, size: nat, s: State<T>)
  {
    Sized(size, s) && forall r {:trigger UpOk(M, size, s, r)} :: 0 <= r < size ==> UpOk(M, size, s, r)
  }

  lemma {:induction false} ContributeUp<T>(M: Monoid<T>, size: nat, s: State<T>, r: nat, x: T, q: nat)
    requires UpInv(M, size, s) && r < size && q < size
    ensures UpOk(M, size, Step(M, size, s, Contribute(r, x)), q)
  {
    assert UpOk(M, size, s, q);
    var s' := Step(M, size, s, Contribute(r, x));
    forall kind ensures SlotsOk(M, size, s', q, kind) {
      ChildFacts(size, q, kind);
      assert SlotsOk(M, size, s, q, kind);
      if q == r {
        if kind == Self {
          SlotFilled(M, Self, s.log[r], s.hist[r], s.procs[r], x, 0);
        } else {
          SlotUntouched(M, kind, Src(M, size, s, r, kind), s.hist[r], s.procs[r], s'.procs[r]);
        }
      }
    }
  }

  /** Sending a bundle does not change what has reached anybody. */
  lemma {:induction false} AdvanceSrc<T>(M: Monoid<T>, size: nat, s: State<T>, r: nat, q: nat, kind: Kind)
    requires UpInv(M, size, s) && Enabled(M, size, s, Advance(r)) && q < size
    ensures Src(M, size, Step(M, size, s, Advance(r)), q, kind) == Src(M, size, s, q, kind)
  {
    ChildFacts(size, q, kind);
    var s' := Step(M, size, s, Advance(r));
    var c := ChildOf(size, q, kind);
    if c == r {
      assert UpOk(M, size, s, r);
      var d := |s.hist[c]| - |s.ups[c]|;
      assert s'.hist[c][..d] == s.hist[c][..d];
    }
  }

  lemma {:induction false} AdvanceUp<T>(M: Monoid<T>, size: nat, s: State<T>, r: nat, q: nat)
    requires UpInv(M, size, s) && Enabled(M, size, s, Advance(r)) && q < size
    ensures UpOk(M, size, Step(M, size, s, Advance(r)), q)
  {
    assert UpOk(M, size, s, q);
    var s' := Step(M, size, s, Advance(r));
    forall kind ensures SlotsOk(M, size, s', q, kind) {
      AdvanceSrc(M, size, s, r, q, kind);
      assert SlotsOk(M, size, s, q, kind);
      if q == r {
        SlotAdvanced(M, kind, Src(M, size, s, r, kind), s.hist[r], s.procs[r]);
      }
    }
  }

  lemma {:induction false} DeliverUpSrc<T>(M: Monoid<T>, size: nat, s: State<T>, c: nat, q: nat, kind: Kind)
    requires UpInv(M, size, s) && Enabled(M, size, s, DeliverUp(c)) && q < size
    ensures var src := Src(M, size, s, q, kind);
      if q == Parent(size, c) && kind == Side(size, c) then
        Src(M, size, Step(M, size, s, DeliverUp(c)), q, kind) == src + [s.ups[c][0].value]
        && s.ups[c][0].id == |src| + 1 && kind != Self
      else Src(M, size, Step(M, size, s, DeliverUp(c)), q, kind) == src
  {
    ParentHasChild(size, c);
    ChildFacts(size, q, kind);
    assert UpOk(M, size, s, c);
    var d := |s.hist[c]| - |s.ups[c]|;
    assert s.hist[c][..d + 1] == s.hist[c][..d] + [s.hist[c][d]];
  }

  lemma {:induction false} DeliverUpSlot<T>(M: Monoid<T>, size: nat, s: State<T>, c: nat, q: nat, kind: Kind)
    requires UpInv(M, size, s) && Enabled(M, size, s, DeliverUp(c)) && q < size
    ensures SlotsOk(M, size, Step(M, size, s, DeliverUp(c)), q, kind)
  {
    DeliverUpSrc(M, size, s, c, q, kind);
    assert UpOk(M, size, s, q);
    assert SlotsOk(M, size, s, q, kind);
    var s', m, src := Step(M, size, s, DeliverUp(c)), s.ups[c][0], Src(M, size, s, q, kind);
    if q == Parent(size, c) && kind == Side(size, c) {
      SlotFilled(M, kind, src, s.hist[q], s.procs[q], m.value, m.id);
    } else if q == Parent(size, c) {
      SlotUntouched(M, kind, src, s.hist[q], s.procs[q], s'.procs[q]);
    }
  }

  lemma {:induction false} DeliverUpUp<T>(M: Monoid<T>, size: nat, s: State<T>, c: nat, q: nat)
    requires UpInv(M, size, s) && Enabled(M, size, s, DeliverUp(c)) && q < size
    ensures UpOk(M, size, Step(M, size, s, DeliverUp(c)), q)
  {
    assert UpOk(M, size, s, q);
    forall kind ensures SlotsOk(M, size, Step(M, size, s, DeliverUp(c)), q, kind) {
      DeliverUpSlot(M, size, s, c, q, kind);
    }
  }

  lemma {:induction false} DeliverDownUp<T>(M: Monoid<T>, size: nat, s: State<T>, r: nat, q: nat)
    requires UpInv(M, size, s) && Enabled(M, size, s, DeliverDown(r)) && q < size
    requires s.downs[r][0].id <= |s.hist[r]|
    ensures UpOk(M, size, Step(M, size, s, DeliverDown(r)), q)
  {
    assert UpOk(M, size, s, q);
    var s' := Step(M, size, s, DeliverDown(r));
    forall kind ensures SlotsOk(M, size, s', q, kind) {
      ChildFacts(size, q, kind);
      assert SlotsOk(M, size, s, q, kind);
      SlotUntouched(M, kind, Src(M, size, s, q, kind), s.hist[q], s.procs[q], s'.procs[q]);
    }
  }

  // ---------------------------------------------------------------------
  // The broadcasts: which bundles of whom belong together
  // ---------------------------------------------------------------------

  /** The slot of the (k+1)-th bundle of r is empty or holds the next bundle of the child. */
  ghost predicate EntryOk<T>(M: Monoid<T>, size: nat, H: seq<seq<Bundle<T>>>, r: nat, kind: Kind, k: nat)
    requires |H| == size && r < size && k < |H[r]|
  {
    ChildFacts(size, r, kind);
    var b, c := H[r][k], ChildOf(size, r, kind);
    if Id(b, kind) == 0 then Val(b, kind) == M.unit
    else kind != Self ==>
      c >= 0 && Id(b, kind) == Cnt(H[r][..k], kind) + 1 <= |H[c]| &&
        Val(b, kind) == Aggregated(M, H[c][Id(b, kind) - 1])
  }

  /** What the forwarded bundles have in common at all times. */
  ghost predicate Lineage<T>(M: Monoid<T>, size: nat, H: seq<seq<Bundle<T>>>)
  {
    |H| == size &&
    forall r, kind, k {:trigger EntryOk(M, size, H, r, kind, k)} ::
      0 <= r < size && 0 <= k < |H[r]| ==> EntryOk(M, size, H, r, kind, k)
  }

  lemma {:induction false} UpInvLineage<T>(M: Monoid<T>, size: nat, s: State<T>)
    requires UpInv(M, size, s)
    ensures Lineage(M, size, s.hist)
  {
    forall r, kind, k | 0 <= r < size && 0 <= k < |s.hist[r]| ensures EntryOk(M, size, s.hist, r, kind, k) {
      assert UpOk(M, size, s, r) && SlotsOk(M, size, s, r, kind);
      assert HistSlot(M, kind, Src(M, size, s, r, kind), s.hist[r], k);
      ChildFacts(size, r, kind);
      var c := ChildOf(size, r, kind);
      if c >= 0 { assert UpOk(M, size, s, c); }
    }
  }

  /** The bundle of q in the n-th broadcast exists. */
  lemma {:induction false} PartBound<T>(M: Monoid<T>, size: nat, H: seq<seq<Bundle<T>>>, root: nat, q: nat, n: nat)
    requires Lineage(M, size, H) && root < size && Parent(size, root) < 0 && q < size && 1 <= n <= |H[root]|
    ensures Part(size, H, q, n) <= |H[q]|
    decreases size - Power(q)
  {
    if Parent(size, q) < 0 {
      RootSpansAll(size, root);
    } else {
      ParentHasChild(size, q);
      var r := Parent(size, q);
      PartBound(M, size, H, root, r, n);
      var k := Part(size, H, r, n);
      if k != 0 {
        assert EntryOk(M, size, H, r, Side(size, q), k - 1);
      }
    }
  }

  ghost predicate Longer<T>(h: seq<Bundle<T>>, h': seq<Bundle<T>>)
  {
    |h| <= |h'| && h'[..|h|] == h
  }

  ghost predicate Extends<T>(H: seq<seq<Bundle<T>>>, H': seq<seq<Bundle<T>>>)
  {
    |H| == |H'| && forall q {:trigger Longer(H[q], H'[q])} :: 0 <= q < |H| ==> Longer(H[q], H'[q])
  }

  /** Broadcasts which have been started do not depend on what is forwarded later on. */
  lemma {:induction false} PartStable<T>(
    M: Monoid<T>, size: nat, H: seq<seq<Bundle<T>>>, H': seq<seq<Bundle<T>>>, root: nat, q: nat, n: nat)
    requires Lineage(M, size, H) && Extends(H, H') && root < size && Parent(size, root) < 0 && q < size &&
      1 <= n <= |H[root]|
    ensures Part(size, H', q, n) == Part(size, H, q, n)
    ensures Share(M, size, H', q, n) == Share(M, size, H, q, n)
    decreases size - Power(q)
  {
    PartBound(M, size, H, root, q, n);
    if Parent(size, q) >= 0 {
      ParentHasChild(size, q);
      var r := Parent(size, q);
      PartStable(M, size, H, H', root, r, n);
      PartBound(M, size, H, root, r, n);
      var k := Part(size, H, r, n);
      assert Longer(H[r], H'[r]);
      assert k != 0 ==> H'[r][..|H[r]|][k - 1] == H[r][k - 1];
    }
    var k := Part(size, H, q, n);
    assert Longer(H[q], H'[q]);
    assert k != 0 ==> H'[q][..|H[q]|][k - 1] == H[q][k - 1];
  }

  lemma {:induction false} SharesStable<T>(M: Monoid<T>, size: nat, H: seq<seq<Bundle<T>>>, H': seq<seq<Bundle<T>>>,
      root: nat, n: nat)
    requires Lineage(M, size, H) && Extends(H, H') && root < size && Parent(size, root) < 0 && 1 <= n <= |H[root]|
    ensures Shares(M, size, H', n) == Shares(M, size, H, n)
  {
    forall q | 0 <= q < size ensures Share(M, size, H', q, n) == Share(M, size, H, q, n) {
      PartStable(M, size, H, H', root, q, n);
    }
  }

  lemma {:induction false} PartCountStable<T>(
    M: Monoid<T>, size: nat, H: seq<seq<Bundle<T>>>, H': seq<seq<Bundle<T>>>, root: nat, q: nat, n: nat)
    requires Lineage(M, size, H) && Extends(H, H') && root < size && Parent(size, root) < 0 && q < size &&
      n <= |H[root]|
    ensures PartCount(size, H', q, n) == PartCount(size, H, q, n)
    decreases n
  {
    if n > 0 {
      PartCountStable(M, size, H, H', root, q, n - 1);
      PartStable(M, size, H, H', root, q, n);
    }
  }

  /** The bundles of q occur in the broadcasts one by one, in the order in which q has sent them. */
  lemma {:induction false} PartNext<T>(M: Monoid<T>, size: nat, H: seq<seq<Bundle<T>>>, root: nat, q: nat, n: nat)
    requires Lineage(M, size, H) && root < size && Parent(size, root) < 0 && q < size && 1 <= n <= |H[root]|
    ensures Part(size, H, q, n) != 0 ==> Part(size, H, q, n) == PartCount(size, H, q, n - 1) + 1
    decreases size - Power(q), n, 0
  {
    if Parent(size, q) < 0 {
      RootCount(size, H, q, n - 1);
    } else {
      ParentHasChild(size, q);
      var r := Parent(size, q);
      PartNext(M, size, H, root, r, n);
      PartBound(M, size, H, root, r, n);
      ChildCount(M, size, H, root, q, n - 1);
      var k := Part(size, H, r, n);
      if k != 0 {
        assert EntryOk(M, size, H, r, Side(size, q), k - 1);
        assert Part(size, H, q, n) == Id(H[r][k - 1], Side(size, q));
      }
    }
  }

  lemma {:induction false} RootCount<T>(size: nat, H: seq<seq<Bundle<T>>>, q: nat, n: nat)
    requires |H| == size && q < size && Parent(size, q) < 0
    ensures PartCount(size, H, q, n) == n
    decreases n
  {
    if n > 0 { RootCount(size, H, q, n - 1); }
  }

  /** A child takes part as often as the bundles of its parent so far have a contribution from it. */
  lemma {:induction false} ChildCount<T>(M: Monoid<T>, size: nat, H: seq<seq<Bundle<T>>>, root: nat, q: nat, n: nat)
    requires Lineage(M, size, H) && root < size && Parent(size, root) < 0 && q < size && Parent(size, q) >= 0
    requires n <= |H[root]|
    ensures var r := Parent(size, q);
      r < size && PartCount(size, H, r, n) <= |H[r]|
      && PartCount(size, H, q, n) == Cnt(H[r][..PartCount(size, H, r, n)], Side(size, q))
    decreases size - Power(q), n
  {
    ParentHasChild(size, q);
    var r, side := Parent(size, q), Side(size, q);
    if n > 0 {
      ChildCount(M, size, H, root, q, n - 1);
      PartNext(M, size, H, root, r, n);
      PartBound(M, size, H, root, r, n);
      var k := Part(size, H, r, n);
      if k != 0 {
        assert H[r][..k][..k - 1] == H[r][..k - 1];
      }
    }
  }

  // ---------------------------------------------------------------------
  // The values: a bundle is the aggregate of the sender's block
  // ---------------------------------------------------------------------

  /** The bundle of q in the n-th broadcast; an empty one if it does not take part. */
  function PartBundle<T>(M: Monoid<T>, size: nat, H: seq<seq<Bundle<T>>>, q: nat, n: nat): Bundle<T>
    requires |H| == size && q < size
  {
    var k := Part(size, H, q, n);
    if k == 0 || k > |H[q]| then EmptyBundle(M) else H[q][k - 1]
  }

  /** A slot of r's bundle in the n-th broadcast holds what the child's bundle amounts to. */
  lemma {:induction false} SlotIsChild<T>(M: Monoid<T>, size: nat, H: seq<seq<Bundle<T>>>, root: nat, r: nat,
      kind: Kind, n: nat)
    requires Lineage(M, size, H) && root < size && Parent(size, root) < 0 && r < size && 1 <= n <= |H[root]|
    requires kind != Self
    ensures var b, c := PartBundle(M, size, H, r, n), ChildOf(size, r, kind);
      if c < 0 then Id(b, kind) == 0 && Val(b, kind) == M.unit
      else c < size && Part(size, H, c, n) == Id(b, kind) && Val(b, kind) == Aggregated(M, PartBundle(M, size, H, c, n))
  {
    ChildFacts(size, r, kind);
    var k := Part(size, H, r, n);
    PartBound(M, size, H, root, r, n);
    if k != 0 {
      assert EntryOk(M, size, H, r, kind, k - 1);
    }
  }

  lemma {:induction false} AggregatedParts<T(!new)>(M: Monoid<T>, b: Bundle<T>)
    requires Lawful(M)
    requires forall kind {:trigger Id(b, kind)} :: Id(b, kind) == 0 ==> Val(b, kind) == M.unit
    ensures Aggregated(M, b) == M.op(M.op(b.left, b.self), b.right)
  {
    assert Id(b, Self) == 0 ==> Val(b, Self) == M.unit;
    assert Id(b, Left) == 0 ==> Val(b, Left) == M.unit;
    assert Id(b, Right) == 0 ==> Val(b, Right) == M.unit;
  }

  lemma {:induction false} PartBundleParts<T(!new)>(M: Monoid<T>, size: nat, H: seq<seq<Bundle<T>>>, q: nat, n: nat)
    requires Lawful(M) && Lineage(M, size, H) && q < size
    ensures var b := PartBundle(M, size, H, q, n);
      Aggregated(M, b) == M.op(M.op(b.left, b.self), b.right) && b.self == Share(M, size, H, q, n)
  {
    var b, k := PartBundle(M, size, H, q, n), Part(size, H, q, n);
    forall kind ensures Id(b, kind) == 0 ==> Val(b, kind) == M.unit {
      if 0 < k <= |H[q]| {
        assert EntryOk(M, size, H, q, kind, k - 1);
      }
    }
    AggregatedParts(M, b);
  }

  /** The bundle of q is the rank-ordered aggregate of the contributions in q's subtree. */
  lemma {:induction false} BundleIsBlock<T(!new)>(M: Monoid<T>, size: nat, H: seq<seq<Bundle<T>>>, root: nat, q: nat,
      n: nat)
    requires Lawful(M) && Lineage(M, size, H) && root < size && Parent(size, root) < 0 && q < size &&
      1 <= n <= |H[root]|
    ensures Aggregated(M, PartBundle(M, size, H, q, n)) == Fold(M, Shares(M, size, H, n)[Lo(q)..Hi(size, q) + 1])
    decreases Power(q)
  {
    var x, b := Shares(M, size, H, n), PartBundle(M, size, H, q, n);
    LeftSlotIsBlock(M, size, H, root, q, n);
    RightSlotIsBlock(M, size, H, root, q, n);
    PartBundleParts(M, size, H, q, n);
    var lo, hi := Lo(q), Hi(size, q) + 1;
    FoldAround(M, x, lo, q, hi);
    assert x[q] == b.self;
  }

  /** The slot of a child holds the shares of the ranks below this child, of none if there is no such child. */
  lemma {:induction false} SlotIsBlock<T(!new)>(M: Monoid<T>, size: nat, H: seq<seq<Bundle<T>>>, root: nat, q: nat,
      n: nat, kind: Kind, c: int, lo: nat, hi: nat)
    requires Lawful(M) && Lineage(M, size, H) && root < size && Parent(size, root) < 0 && q < size
    requires 1 <= n <= |H[root]| && kind != Self && c == ChildOf(size, q, kind) && lo <= hi <= size
    requires if c < 0 then lo == hi else c < size && Power(c) < Power(q) && lo == Lo(c) && hi == Hi(size, c) + 1
    ensures Val(PartBundle(M, size, H, q, n), kind) == Fold(M, Shares(M, size, H, n)[lo..hi])
    decreases Power(q), 0
  {
    SlotIsChild(M, size, H, root, q, kind, n);
    if c >= 0 {
      BundleIsBlock(M, size, H, root, c, n);
    } else {
      assert Shares(M, size, H, n)[lo..hi] == [];
    }
  }

  lemma {:induction false} LeftSlotIsBlock<T(!new)>(M: Monoid<T>, size: nat, H: seq<seq<Bundle<T>>>, root: nat, q: nat,
      n: nat)
    requires Lawful(M) && Lineage(M, size, H) && root < size && Parent(size, root) < 0 && q < size
    requires 1 <= n <= |H[root]|
    ensures PartBundle(M, size, H, q, n).left == Fold(M, Shares(M, size, H, n)[Lo(q)..q])
    decreases Power(q), 1
  {
    LeftSubtree(size, q);
    var c := LeftChild(q);
    if c >= 0 { ParentHasChild(size, c); }
    SlotIsBlock(M, size, H, root, q, n, Left, c, Lo(q), q);
  }

  lemma {:induction false} RightRange(size: nat, q: nat) returns (c: int, lo: nat, hi: nat)
    requires q < size
    ensures c == ChildOf(size, q, Right) && lo == q + 1 <= hi == Hi(size, q) + 1 <= size
    ensures if c < 0 then lo == hi else c < size && Power(c) < Power(q) && lo == Lo(c) && hi == Hi(size, c) + 1
  {
    RightSubtree(size, q);
    c, lo, hi := RightChild(size, q), q + 1, Hi(size, q) + 1;
    if c >= 0 { ParentHasChild(size, c); }
  }

  lemma {:induction false} RightSlotIsBlock<T(!new)>(M: Monoid<T>, size: nat, H: seq<seq<Bundle<T>>>, root: nat,
      q: nat, n: nat)
    requires Lawful(M) && Lineage(M, size, H) && root < size && Parent(size, root) < 0 && q < size
    requires 1 <= n <= |H[root]|
    ensures PartBundle(M, size, H, q, n).right == Fold(M, Shares(M, size, H, n)[q + 1..Hi(size, q) + 1])
    decreases Power(q), 1
  {
    var c, lo, hi := RightRange(size, q);
    SlotIsBlock(M, size, H, root, q, n, Right, c, lo, hi);
  }

  // ---------------------------------------------------------------------
  // The way down
  // ---------------------------------------------------------------------

  /** The message with which r learns about the n-th broadcast. */
  ghost function Down<T>(M: Monoid<T>, size: nat, H: seq<seq<Bundle<T>>>, r: nat, n: nat): DownMsg<T>
    requires |H| == size && r < size
  {
    var x := Shares(M, size, H, n);
    DownMsg(Fold(M, x[..Lo(r)]), Fold(M, x), Part(size, H, r, n))
  }

  /** The result of r in the n-th broadcast: exclusive and inclusive prefix sum, and the total. */
  ghost function Result<T>(M: Monoid<T>, size: nat, H: seq<seq<Bundle<T>>>, r: nat, n: nat): (T, T, T)
    requires |H| == size && r < size
  {
    var x := Shares(M, size, H, n);
    (Fold(M, x[..r]), Fold(M, x[..r + 1]), Fold(M, x))
  }

  /** The prefix sums at r, in terms of what r receives and of its own bundle. */
  lemma {:induction false} PrefixParts<T(!new)>(M: Monoid<T>, size: nat, H: seq<seq<Bundle<T>>>, root: nat, r: nat,
      n: nat)
    requires Lawful(M) && Lineage(M, size, H) && root < size && Parent(size, root) < 0 && r < size &&
      1 <= n <= |H[root]|
    ensures var x, b := Shares(M, size, H, n), PartBundle(M, size, H, r, n);
      && Fold(M, x[..r]) == M.op(Fold(M, x[..Lo(r)]), b.left)
      && Fold(M, x[..r + 1]) == M.op(Fold(M, x[..r]), b.self)
  {
    var x := Shares(M, size, H, n);
    LeftSlotIsBlock(M, size, H, root, r, n);
    PartBundleParts(M, size, H, r, n);
    FoldSlices(M, x, 0, Lo(r), r);
    FoldLast(M, x, 0, r);
    assert x[0..r] == x[..r] && x[0..Lo(r)] == x[..Lo(r)] && x[0..r + 1] == x[..r + 1];
  }

  lemma {:induction false} DigestIsRight<T(!new)>(M: Monoid<T>, size: nat, H: seq<seq<Bundle<T>>>, root: nat, r: nat,
      n: nat)
    requires Lawful(M) && Lineage(M, size, H) && root < size && Parent(size, root) < 0 && r < size &&
      1 <= n <= |H[root]|
    ensures var d := Digested(M, size, r, PartBundle(M, size, H, r, n), Down(M, size, H, r, n));
      && d.2 == Result(M, size, H, r, n)
      && (LeftChild(r) >= 0 ==> LeftChild(r) < size && d.0 == Down(M, size, H, LeftChild(r), n))
      && (RightChild(size, r) >= 0 ==> RightChild(size, r) < size && d.1 == Down(M, size, H, RightChild(size, r), n))
  {
    PrefixParts(M, size, H, root, r, n);
    DigestByParts(M, size, H, root, r, n);
  }

  lemma {:induction false} DigestByParts<T>(M: Monoid<T>, size: nat, H: seq<seq<Bundle<T>>>, root: nat, r: nat, n: nat)
    requires Lineage(M, size, H) && root < size && Parent(size, root) < 0 && r < size && 1 <= n <= |H[root]|
    requires var x, b := Shares(M, size, H, n), PartBundle(M, size, H, r, n);
      && Fold(M, x[..r]) == M.op(Fold(M, x[..Lo(r)]), b.left)
      && Fold(M, x[..r + 1]) == M.op(Fold(M, x[..r]), b.self)
    ensures var d := Digested(M, size, r, PartBundle(M, size, H, r, n), Down(M, size, H, r, n));
      && d.2 == Result(M, size, H, r, n)
      && (LeftChild(r) >= 0 ==> LeftChild(r) < size && d.0 == Down(M, size, H, LeftChild(r), n))
      && (RightChild(size, r) >= 0 ==> RightChild(size, r) < size && d.1 == Down(M, size, H, RightChild(size, r), n))
  {
    LeftSubtree(size, r);
    RightSubtree(size, r);
    var x, b, m := Shares(M, size, H, n), PartBundle(M, size, H, r, n), Down(M, size, H, r, n);
    assert LeftChild(r) < 0 ==> Lo(r) == r;
    var a, c := LeftChild(r), RightChild(size, r);
    if a >= 0 {
      SlotIsChild(M, size, H, root, r, Left, n);
      assert x[..Lo(a)] == x[..Lo(r)] && Part(size, H, a, n) == b.leftId;
    }
    if c >= 0 {
      SlotIsChild(M, size, H, root, r, Right, n);
      assert x[..Lo(c)] == x[..r + 1] && Part(size, H, c, n) == b.rightId;
    }
  }

  predicate IsRoot(size: nat, root: nat)
  {
    root < size && Parent(size, root) < 0
  }

  /** How many broadcasts have been sent to r. */
  ghost function Sent<T>(size: nat, root: nat, s: State<T>, r: nat): nat
    requires Sized(size, s) && IsRoot(size, root) && r < size
  {
    RootSpansAll(size, root);
    if r == root then |s.hist[root]| else (ParentHasChild(size, r); |s.results[Parent(size, r)]|)
  }

  ghost function DownFn<T>(M: Monoid<T>, size: nat, H: seq<seq<Bundle<T>>>, r: nat): nat -> DownMsg<T>
    requires |H| == size && r < size
  {
    (n: nat) => Down(M, size, H, r, n)
  }

  ghost function ResultFn<T>(M: Monoid<T>, size: nat, H: seq<seq<Bundle<T>>>, r: nat): nat -> (T, T, T)
    requires |H| == size && r < size
  {
    (n: nat) => Result(M, size, H, r, n)
  }

  /** ms are the values of f for the broadcasts after the first done ones. */
  ghost predicate Follows<A>(f: nat -> A, ms: seq<A>, done: nat)
  {
    forall j :: 0 <= j < |ms| ==> ms[j] == f(done + j + 1)
  }

  lemma {:induction false} FollowsAppend<A>(f: nat -> A, ms: seq<A>, done: nat)
    requires Follows(f, ms, done)
    ensures Follows(f, ms + [f(done + |ms| + 1)], done)
  {
  }

  lemma {:induction false} FollowsAt<A>(f: nat -> A, ms: seq<A>, done: nat, j: nat)
    requires Follows(f, ms, done) && j < |ms|
    ensures ms[j] == f(done + j + 1)
  {
  }

  lemma {:induction false} FollowsTail<A>(f: nat -> A, ms: seq<A>, done: nat)
    requires Follows(f, ms, done) && ms != []
    ensures Follows(f, ms[1..], done + 1) && ms[0] == f(done + 1)
  {
    forall j | 0 <= j < |ms[1..]| ensures ms[1..][j] == f(done + 1 + j + 1) {
      assert ms[1..][j] == ms[j + 1];
    }
  }

  lemma {:induction false} FollowsSame<A>(f: nat -> A, f': nat -> A, ms: seq<A>, done: nat)
    requires Follows(f, ms, done) && forall n: nat {:trigger f'(n)} :: done < n <= done + |ms| ==> f'(n) == f(n)
    ensures Follows(f', ms, done)
  {
  }

  /** The bundles whose broadcasts are outstanding have not been erased. */
  ghost predicate KeepOk<T>(M: Monoid<T>, size: nat, s: State<T>, r: nat)
    requires Sized(size, s) && r < size
  {
    forall k: nat :: PartCount(size, s.hist, r, |s.results[r]|) < k <= |s.hist[r]| ==>
      Get(M, s.procs[r].bundles, k) == s.hist[r][k - 1]
  }

  ghost predicate DownOk<T>(M: Monoid<T>, size: nat, root: nat, s: State<T>, r: nat)
    requires Sized(size, s) && IsRoot(size, root) && r < size
  {
    && |s.results[r]| + |s.downs[r]| == Sent(size, root, s, r) <= |s.hist[root]|
    && Follows(DownFn(M, size, s.hist, r), s.downs[r], |s.results[r]|)
    && Follows(ResultFn(M, size, s.hist, r), s.results[r], 0)
    && KeepOk(M, size, s, r)
  }

  ghost predicate Inv<T>(M: Monoid<T>, size: nat, root: nat, s: State<T>)
  {
    && IsRoot(size, root) && UpInv(M, size, s)
    && forall r {:trigger DownOk(M, size, root, s, r)} :: 0 <= r < size ==> DownOk(M, size, root, s, r)
  }

  /** A step which leaves all forwarded bundles and everything on the way down alone. */
  lemma {:induction false} UpwardsKeepsDown<T>(M: Monoid<T>, size: nat, root: nat, s: State<T>, s': State<T>, r: nat,
      q: nat)
    requires Inv(M, size, root, s) && Sized(size, s') && r < size && q < size
    requires s'.hist == s.hist && s'.downs == s.downs && s'.results == s.results
    requires q != r ==> s'.procs[q] == s.procs[q]
    requires forall k: nat :: k <= |s.hist[r]| ==> Get(M, s'.procs[r].bundles, k) == Get(M, s.procs[r].bundles, k)
    ensures DownOk(M, size, root, s', q)
  {
    assert DownOk(M, size, root, s, q);
  }

  lemma {:induction false} AddedKeepsForwarded<T>(M: Monoid<T>, l: Local<T>, kind: Kind, value: T, id: nat, k: nat)
    requires k < l.counter
    ensures Get(M, Added(M, l, kind, value, id).bundles, k) == Get(M, l.bundles, k)
  {
  }

  lemma {:induction false} ContributeDown<T>(M: Monoid<T>, size: nat, root: nat, s: State<T>, r: nat, x: T, q: nat)
    requires Inv(M, size, root, s) && r < size && q < size
    ensures DownOk(M, size, root, Step(M, size, s, Contribute(r, x)), q)
  {
    var s' := Step(M, size, s, Contribute(r, x));
    assert UpOk(M, size, s, r);
    forall k: nat | k <= |s.hist[r]| ensures Get(M, s'.procs[r].bundles, k) == Get(M, s.procs[r].bundles, k) {
      AddedKeepsForwarded(M, s.procs[r], Self, x, 0, k);
    }
    UpwardsKeepsDown(M, size, root, s, s', r, q);
  }

  lemma {:induction false} DeliverUpDown<T>(M: Monoid<T>, size: nat, root: nat, s: State<T>, c: nat, q: nat)
    requires Inv(M, size, root, s) && Enabled(M, size, s, DeliverUp(c)) && q < size
    ensures DownOk(M, size, root, Step(M, size, s, DeliverUp(c)), q)
  {
    ParentHasChild(size, c);
    var r, m := Parent(size, c), s.ups[c][0];
    var s' := Step(M, size, s, DeliverUp(c));
    assert UpOk(M, size, s, r);
    forall k: nat | k <= |s.hist[r]| ensures Get(M, s'.procs[r].bundles, k) == Get(M, s.procs[r].bundles, k) {
      AddedKeepsForwarded(M, s.procs[r], Side(size, c), m.value, m.id, k);
    }
    UpwardsKeepsDown(M, size, root, s, s', r, q);
  }

  /** What is known about started broadcasts stays the same when more is forwarded. */
  lemma {:induction false} DownStable<T>(M: Monoid<T>, size: nat, H: seq<seq<Bundle<T>>>, H': seq<seq<Bundle<T>>>,
      root: nat, q: nat, n: nat)
    requires Lineage(M, size, H) && Extends(H, H') && IsRoot(size, root) && q < size && 1 <= n <= |H[root]|
    ensures Down(M, size, H', q, n) == Down(M, size, H, q, n)
  {
    SharesStable(M, size, H, H', root, n);
    PartStable(M, size, H, H', root, q, n);
  }

  lemma {:induction false} ResultStable<T>(M: Monoid<T>, size: nat, H: seq<seq<Bundle<T>>>, H': seq<seq<Bundle<T>>>,
      root: nat, q: nat, n: nat)
    requires Lineage(M, size, H) && Extends(H, H') && IsRoot(size, root) && q < size && 1 <= n <= |H[root]|
    ensures Result(M, size, H', q, n) == Result(M, size, H, q, n)
  {
    SharesStable(M, size, H, H', root, n);
  }

  /** The root's new broadcast. */
  lemma {:induction false} NewBroadcast<T(!new)>(M: Monoid<T>, size: nat, H: seq<seq<Bundle<T>>>, root: nat)
    requires Lawful(M) && Lineage(M, size, H) && IsRoot(size, root) && H[root] != []
    ensures var n := |H[root]|;
      Down(M, size, H, root, n) == DownMsg(M.unit, Aggregated(M, H[root][n - 1]), n)
  {
    BundleIsBlock(M, size, H, root, root, |H[root]|);
    RootMessage(M, size, H, root);
  }

  lemma {:induction false} RootMessage<T>(M: Monoid<T>, size: nat, H: seq<seq<Bundle<T>>>, root: nat)
    requires |H| == size && IsRoot(size, root) && H[root] != []
    requires var n := |H[root]|;
      Aggregated(M, PartBundle(M, size, H, root, n)) == Fold(M, Shares(M, size, H, n)[Lo(root)..Hi(size, root) + 1])
    ensures var n := |H[root]|;
      Down(M, size, H, root, n) == DownMsg(M.unit, Aggregated(M, H[root][n - 1]), n)
  {
    RootSpansAll(size, root);
    var x := Shares(M, size, H, |H[root]|);
    assert x[Lo(root)..Hi(size, root) + 1] == x && x[..Lo(root)] == [];
  }

  /** The messages and results which existed before a bundle was forwarded. */
  lemma {:induction false} AdvanceStable<T>(M: Monoid<T>, size: nat, root: nat, s: State<T>, r: nat, q: nat)
    requires Inv(M, size, root, s) && Enabled(M, size, s, Advance(r)) && q < size
    ensures var H' := Step(M, size, s, Advance(r)).hist;
      Follows(DownFn(M, size, H', q), s.downs[q], |s.results[q]|) && Follows(ResultFn(M, size, H', q), s.results[q], 0)
  {
    var H, H' := s.hist, Step(M, size, s, Advance(r)).hist;
    UpInvLineage(M, size, s);
    assert DownOk(M, size, root, s, q);
    var f, f', g, g' := DownFn(M, size, H, q), DownFn(M, size, H', q), ResultFn(M, size, H, q),
      ResultFn(M, size, H', q);
    forall n: nat | 1 <= n <= |H[root]| ensures f'(n) == f(n) {
      DownStable(M, size, H, H', root, q, n);
    }
    FollowsSame(f, f', s.downs[q], |s.results[q]|);
    forall n: nat | 1 <= n <= |H[root]| ensures g'(n) == g(n) {
      ResultStable(M, size, H, H', root, q, n);
    }
    FollowsSame(g, g', s.results[q], 0);
  }

  lemma {:induction false} AdvanceMessages<T(!new)>(M: Monoid<T>, size: nat, root: nat, s: State<T>, r: nat, q: nat)
    requires Lawful(M) && Inv(M, size, root, s) && Enabled(M, size, s, Advance(r)) && q < size
    requires Lineage(M, size, Step(M, size, s, Advance(r)).hist)
    ensures var s' := Step(M, size, s, Advance(r));
      Follows(DownFn(M, size, s'.hist, q), s'.downs[q], |s'.results[q]|)
      && Follows(ResultFn(M, size, s'.hist, q), s'.results[q], 0)
  {
    AdvanceStable(M, size, root, s, r, q);
    if r == root {
      NewBroadcast(M, size, Step(M, size, s, Advance(r)).hist, root);
    }
    assert UpOk(M, size, s, r) && DownOk(M, size, root, s, q);
    AdvanceAppends(M, size, root, s, r, q, DownFn(M, size, Step(M, size, s, Advance(r)).hist, q));
  }

  lemma {:induction false} AdvanceAppends<T>(M: Monoid<T>, size: nat, root: nat, s: State<T>, r: nat, q: nat,
      f: nat -> DownMsg<T>)
    requires Sized(size, s) && IsRoot(size, root) && Enabled(M, size, s, Advance(r)) && q < size
    requires s.procs[r].counter == |s.hist[r]| + 1 && (q == root ==> |s.results[q]| + |s.downs[q]| == |s.hist[root]|)
    requires Follows(f, s.downs[q], |s.results[q]|)
    requires q == r == root ==>
      var l := s.procs[r];
      f(|s.hist[root]| + 1) == DownMsg(M.unit, Aggregated(M, Get(M, l.bundles, l.counter)), |s.hist[root]| + 1)
    ensures var s' := Step(M, size, s, Advance(r));
      Follows(f, s'.downs[q], |s'.results[q]|) && s'.results == s.results
  {
    RootSpansAll(size, root);
    FollowsAppend(f, s.downs[q], |s.results[q]|);
  }

  lemma {:induction false} AdvanceKeeps<T(!new)>(M: Monoid<T>, size: nat, root: nat, s: State<T>, r: nat, q: nat)
    requires Inv(M, size, root, s) && Enabled(M, size, s, Advance(r)) && q < size
    ensures KeepOk(M, size, Step(M, size, s, Advance(r)), q)
  {
    var s' := Step(M, size, s, Advance(r));
    assert UpOk(M, size, s, q) && DownOk(M, size, root, s, q);
    UpInvLineage(M, size, s);
    PartCountStable(M, size, s.hist, s'.hist, root, q, |s.results[q]|);
  }

  lemma {:induction false} AdvanceDown<T(!new)>(M: Monoid<T>, size: nat, root: nat, s: State<T>, r: nat, q: nat)
    requires Lawful(M) && Inv(M, size, root, s) && Enabled(M, size, s, Advance(r)) && q < size
    requires Lineage(M, size, Step(M, size, s, Advance(r)).hist)
    ensures DownOk(M, size, root, Step(M, size, s, Advance(r)), q)
  {
    AdvanceMessages(M, size, root, s, r, q);
    AdvanceKeeps(M, size, root, s, r, q);
    assert DownOk(M, size, root, s, q);
    RootSpansAll(size, root);
  }

  // ---------------------------------------------------------------------
  // Digesting a broadcast
  // ---------------------------------------------------------------------

  /** The broadcast which r is about to digest, and the bundle it refers to. */
  lemma {:induction false} NextBroadcast<T>(M: Monoid<T>, size: nat, root: nat, s: State<T>, r: nat)
    requires Inv(M, size, root, s) && Enabled(M, size, s, DeliverDown(r))
    ensures var n, m := |s.results[r]| + 1, s.downs[r][0];
      && 1 <= n <= |s.hist[root]| && m == Down(M, size, s.hist, r, n) && m.id <= |s.hist[r]|
      && (m.id != 0 ==> m.id == PartCount(size, s.hist, r, n - 1) + 1)
      && Referred(M, s.procs[r], m.id) == PartBundle(M, size, s.hist, r, n)
  {
    assert DownOk(M, size, root, s, r);
    var n := |s.results[r]| + 1;
    UpInvLineage(M, size, s);
    PartBound(M, size, s.hist, root, r, n);
    PartNext(M, size, s.hist, root, r, n);
    FollowsTail(DownFn(M, size, s.hist, r), s.downs[r], n - 1);
  }

  lemma {:induction false} DigestedAt<T(!new)>(M: Monoid<T>, size: nat, root: nat, s: State<T>, r: nat)
    requires Lawful(M) && Inv(M, size, root, s) && Enabled(M, size, s, DeliverDown(r))
    ensures var s', n := Step(M, size, s, DeliverDown(r)), |s.results[r]| + 1;
      && s'.results == s.results[r := s.results[r] + [Result(M, size, s.hist, r, n)]]
      && (forall q :: 0 <= q < size ==>
            s'.downs[q] == if q == r then s.downs[r][1..]
                           else if Parent(size, q) == r then s.downs[q] + [Down(M, size, s.hist, q, n)]
                           else s.downs[q])
  {
    NextBroadcast(M, size, root, s, r);
    UpInvLineage(M, size, s);
    DigestIsRight(M, size, s.hist, root, r, |s.results[r]| + 1);
    var s', n := Step(M, size, s, DeliverDown(r)), |s.results[r]| + 1;
    LeftSubtree(size, r);
    RightSubtree(size, r);
    forall q | 0 <= q < size
      ensures s'.downs[q] == if q == r then s.downs[r][1..]
                             else if Parent(size, q) == r then s.downs[q] + [Down(M, size, s.hist, q, n)]
                             else s.downs[q] {
      if Parent(size, q) == r { ParentHasChild(size, q); }
    }
  }

  lemma {:induction false} DeliverDownKeeps<T>(M: Monoid<T>, size: nat, root: nat, s: State<T>, r: nat, q: nat)
    requires Inv(M, size, root, s) && Enabled(M, size, s, DeliverDown(r)) && q < size
    ensures KeepOk(M, size, Step(M, size, s, DeliverDown(r)), q)
  {
    NextBroadcast(M, size, root, s, r);
    assert DownOk(M, size, root, s, q);
    var s', id := Step(M, size, s, DeliverDown(r)), s.downs[r][0].id;
    assert s'.procs == s.procs[r := CleanedUp(s.procs[r], id)];
    assert |s'.results[q]| == if q == r then |s.results[r]| + 1 else |s.results[q]|;
    KeepsNeeded(M, size, s, s', r, q, id);
  }

  lemma {:induction false} KeepsNeeded<T>(M: Monoid<T>, size: nat, s: State<T>, s': State<T>, r: nat, q: nat, id: nat)
    requires Sized(size, s) && Sized(size, s') && r < size && q < size && s'.hist == s.hist && KeepOk(M, size, s, q)
    requires s'.procs == s.procs[r := CleanedUp(s.procs[r], id)]
    requires id == Part(size, s.hist, r, |s.results[r]| + 1)
    requires id != 0 ==> id == PartCount(size, s.hist, r, |s.results[r]|) + 1
    requires |s'.results[q]| == if q == r then |s.results[r]| + 1 else |s.results[q]|
    ensures KeepOk(M, size, s', q)
  {
    var l, l' := s.procs[q], s'.procs[q];
    if q == r {
      var n := |s.results[r]| + 1;
      assert PartCount(size, s.hist, r, n) == PartCount(size, s.hist, r, n - 1) + if id != 0 then 1 else 0;
      forall k: nat | PartCount(size, s.hist, r, n) < k <= |s.hist[r]|
        ensures Get(M, l'.bundles, k) == s.hist[r][k - 1] {
        assert Get(M, l.bundles, k) == s.hist[r][k - 1];
      }
    }
  }

  lemma {:induction false} DeliverDownDown<T(!new)>(M: Monoid<T>, size: nat, root: nat, s: State<T>, r: nat, q: nat)
    requires Lawful(M) && Inv(M, size, root, s) && Enabled(M, size, s, DeliverDown(r)) && q < size
    ensures DownOk(M, size, root, Step(M, size, s, DeliverDown(r)), q)
  {
    DigestedAt(M, size, root, s, r);
    DeliverDownKeeps(M, size, root, s, r, q);
    var s' := Step(M, size, s, DeliverDown(r));
    assert DownOk(M, size, root, s, q) && DownOk(M, size, root, s, r);
    DigestedCounts(size, root, s, s', r, q);
    DigestedFollows(size, s, s', r, q, DownFn(M, size, s.hist, q), ResultFn(M, size, s.hist, q));
  }

  lemma {:induction false} DigestedFollows<T>(size: nat, s: State<T>, s': State<T>, r: nat, q: nat,
      f: nat -> DownMsg<T>, g: nat -> (T, T, T))
    requires Sized(size, s) && Sized(size, s') && r < size && q < size && s.downs[r] != []
    requires Follows(f, s.downs[q], |s.results[q]|) && Follows(g, s.results[q], 0)
    requires Parent(size, q) == r ==> q != r && |s.results[q]| + |s.downs[q]| == |s.results[r]|
    requires var n := |s.results[r]| + 1;
      && s'.results[q] == (if q == r then s.results[r] + [g(n)] else s.results[q])
      && s'.downs[q] == (if q == r then s.downs[r][1..]
                         else if Parent(size, q) == r then s.downs[q] + [f(n)]
                         else s.downs[q])
    ensures Follows(f, s'.downs[q], |s'.results[q]|) && Follows(g, s'.results[q], 0)
  {
    if q == r {
      FollowsTail(f, s.downs[r], |s.results[r]|);
      FollowsAppend(g, s.results[r], 0);
    } else if Parent(size, q) == r {
      FollowsAppend(f, s.downs[q], |s.results[q]|);
    }
  }

  lemma {:induction false} DigestedCounts<T>(size: nat, root: nat, s: State<T>, s': State<T>, r: nat, q: nat)
    requires Sized(size, s) && Sized(size, s') && IsRoot(size, root) && r < size && q < size && s.downs[r] != []
    requires |s.results[r]| + |s.downs[r]| == Sent(size, root, s, r) <= |s.hist[root]|
    requires |s.results[q]| + |s.downs[q]| == Sent(size, root, s, q) <= |s.hist[root]|
    requires s'.hist == s.hist
    requires forall k :: 0 <= k < size ==> |s'.results[k]| == |s.results[k]| + if k == r then 1 else 0
    requires |s'.downs[q]| == |s.downs[q]| + if q == r then -1 else if Parent(size, q) == r then 1 else 0
    ensures |s'.results[q]| + |s'.downs[q]| == Sent(size, root, s', q) <= |s'.hist[root]|
    ensures Parent(size, q) == r ==> q != r && |s.results[q]| + |s.downs[q]| == |s.results[r]|
  {
    RootSpansAll(size, root);
    if q != root { ParentHasChild(size, q); }
  }

  // ---------------------------------------------------------------------
  // Runs
  // ---------------------------------------------------------------------

  lemma {:induction false} InitialInv<T>(M: Monoid<T>, size: nat, root: nat, s: State<T>)
    requires IsRoot(size, root) && Initial(size, s)
    ensures Inv(M, size, root, s)
  {
    forall r | 0 <= r < size ensures UpOk(M, size, s, r) {
      forall kind ensures SlotsOk(M, size, s, r, kind) {
        ChildFacts(size, r, kind);
      }
    }
    forall r | 0 <= r < size ensures DownOk(M, size, root, s, r) {
      RootSpansAll(size, root);
    }
  }

  lemma {:induction false} StepKeeps<T(!new)>(M: Monoid<T>, size: nat, root: nat, s: State<T>, ev: Event<T>)
    requires Lawful(M) && Inv(M, size, root, s) && Enabled(M, size, s, ev)
    ensures Inv(M, size, root, Step(M, size, s, ev))
  {
    var s' := Step(M, size, s, ev);
    if ev.DeliverDown? { NextBroadcast(M, size, root, s, ev.rank); }
    forall q | 0 <= q < size ensures UpOk(M, size, s', q) {
      match ev
      case Contribute(r, x) => ContributeUp(M, size, s, r, x, q);
      case Advance(r) => AdvanceUp(M, size, s, r, q);
      case DeliverUp(c) => DeliverUpUp(M, size, s, c, q);
      case DeliverDown(r) => DeliverDownUp(M, size, s, r, q);
    }
    UpInvLineage(M, size, s');
    forall q | 0 <= q < size ensures DownOk(M, size, root, s', q) {
      match ev
      case Contribute(r, x) => ContributeDown(M, size, root, s, r, x, q);
      case Advance(r) => AdvanceDown(M, size, root, s, r, q);
      case DeliverUp(c) => DeliverUpDown(M, size, root, s, c, q);
      case DeliverDown(r) => DeliverDownDown(M, size, root, s, r, q);
    }
  }

  ghost predicate Next<T>(M: Monoid<T>, size: nat, s: State<T>, ev: Event<T>, s': State<T>)
  {
    Sized(size, s) && Enabled(M, size, s, ev) && s' == Step(M, size, s, ev)
  }

  ghost predicate IsRun<T>(M: Monoid<T>, size: nat, tr: seq<State<T>>, evs: seq<Event<T>>)
  {
    && |tr| == |evs| + 1 && Initial(size, tr[0])
    && forall i :: 0 <= i < |evs| ==> Next(M, size, tr[i], evs[i], tr[i + 1])
  }

  lemma {:induction false} RunInv<T(!new)>(M: Monoid<T>, size: nat, root: nat, tr: seq<State<T>>, evs: seq<Event<T>>,
      i: nat)
    requires Lawful(M) && IsRoot(size, root) && IsRun(M, size, tr, evs) && i < |tr|
    ensures Inv(M, size, root, tr[i])
  {
    if i == 0 {
      InitialInv(M, size, root, tr[0]);
    } else {
      RunInv(M, size, root, tr, evs, i - 1);
      assert Next(M, size, tr[i - 1], evs[i - 1], tr[i - 1 + 1]);
      StepKeeps(M, size, root, tr[i - 1], evs[i - 1]);
    }
  }

  /** In every run, the results of one broadcast are the prefix sums of the same shares at all ranks. */
  lemma {:induction false} ResultsArePrefixSums<T(!new)>(M: Monoid<T>, size: nat, tr: seq<State<T>>,
      evs: seq<Event<T>>, i: nat, r: nat, n: nat)
    requires Lawful(M) && IsRun(M, size, tr, evs) && i < |tr|
    requires Sized(size, tr[i]) && r < size && n < |tr[i].results[r]|
    ensures var x := Shares(M, size, tr[i].hist, n + 1);
      tr[i].results[r][n] == (Fold(M, x[..r]), Fold(M, x[..r + 1]), Fold(M, x))
  {
    var root := RootExists(size, r);
    RunInv(M, size, root, tr, evs, i);
    assert DownOk(M, size, root, tr[i], r);
    ResultAt(M, size, tr[i].hist, r, tr[i].results[r], n);
  }

  lemma {:induction false} ResultAt<T>(M: Monoid<T>, size: nat, H: seq<seq<Bundle<T>>>, r: nat, rs: seq<(T, T, T)>,
      n: nat)
    requires |H| == size && r < size && Follows(ResultFn(M, size, H, r), rs, 0) && n < |rs|
    ensures rs[n] == Result(M, size, H, r, n + 1)
  {
    FollowsAt(ResultFn(M, size, H, r), rs, 0, n);
  }

  /** The intervals [exclusive, inclusive) of one broadcast tile [unit, total) in rank order. */
  lemma {:induction false} IntervalsTile<T(!new)>(M: Monoid<T>, size: nat, tr: seq<State<T>>, evs: seq<Event<T>>,
      i: nat, r: nat, n: nat)
    requires Lawful(M) && IsRun(M, size, tr, evs) && i < |tr|
    requires Sized(size, tr[i]) && r < size && n < |tr[i].results[r]|
    ensures var res := tr[i].results;
      && (r == 0 ==> res[r][n].0 == M.unit)
      && (r + 1 < size && n < |res[r + 1]| ==> res[r][n].1 == res[r + 1][n].0 && res[r][n].2 == res[r + 1][n].2)
      && (r + 1 == size ==> res[r][n].1 == res[r][n].2)
      && res[r][n].1 == M.op(res[r][n].0, Share(M, size, tr[i].hist, r, n + 1))
  {
    ResultsArePrefixSums(M, size, tr, evs, i, r, n);
    var x := Shares(M, size, tr[i].hist, n + 1);
    if r + 1 < size && n < |tr[i].results[r + 1]| {
      ResultsArePrefixSums(M, size, tr, evs, i, r + 1, n);
    }
    assert r + 1 == size ==> x[..r + 1] == x;
    FoldLast(M, x, 0, r);
    assert x[0..r + 1] == x[..r + 1] && x[0..r] == x[..r];
  }

  // ---------------------------------------------------------------------
  // Every contribution is counted once, in order
  // ---------------------------------------------------------------------

  /** The contributions of q in the first n broadcasts. */
  ghost function Counted<T>(M: Monoid<T>, size: nat, H: seq<seq<Bundle<T>>>, q: nat, n: nat): seq<T>
    requires |H| == size && q < size
  {
    if n == 0 then []
    else Counted(M, size, H, q, n - 1)
         + if PartBundle(M, size, H, q, n).selfId != 0 then [Share(M, size, H, q, n)] else []
  }

  lemma {:induction false} CountedIsPrefix<T>(M: Monoid<T>, size: nat, root: nat, s: State<T>, q: nat, n: nat)
    requires Inv(M, size, root, s) && q < size && n <= |s.hist[root]|
    ensures var k := PartCount(size, s.hist, q, n);
      && k <= |s.hist[q]| && Cnt(s.hist[q][..k], Self) <= |s.log[q]|
      && Counted(M, size, s.hist, q, n) == s.log[q][..Cnt(s.hist[q][..k], Self)]
  {
    var h := s.hist[q];
    if n > 0 {
      CountedIsPrefix(M, size, root, s, q, n - 1);
      UpInvLineage(M, size, s);
      PartNext(M, size, s.hist, root, q, n);
      PartBound(M, size, s.hist, root, q, n);
      var k := Part(size, s.hist, q, n);
      if k != 0 {
        assert UpOk(M, size, s, q) && SlotsOk(M, size, s, q, Self);
        assert HistSlot(M, Self, s.log[q], h, k - 1);
        assert h[..k][..k - 1] == h[..k - 1];
      }
    }
  }

  /**
   In every run, the contributions of a process which have been part of a broadcast are the first ones
   it made, each of them once and in the order in which they were made; the other broadcasts have a
   neutral share of it.
   */
  lemma {:induction false} CountedInOrder<T(!new)>(M: Monoid<T>, size: nat, root: nat, tr: seq<State<T>>,
      evs: seq<Event<T>>, i: nat, q: nat, n: nat)
    requires Lawful(M) && IsRoot(size, root) && IsRun(M, size, tr, evs) && i < |tr|
    requires Sized(size, tr[i]) && q < size && n <= |tr[i].hist[root]|
    ensures var c := Counted(M, size, tr[i].hist, q, n); |c| <= |tr[i].log[q]| && c == tr[i].log[q][..|c|]
    ensures n > 0 && PartBundle(M, size, tr[i].hist, q, n).selfId == 0 ==> Share(M, size, tr[i].hist, q, n) == M.unit
  {
    RunInv(M, size, root, tr, evs, i);
    CountedIsPrefix(M, size, root, tr[i], q, n);
    UpInvLineage(M, size, tr[i]);
    var k := Part(size, tr[i].hist, q, n);
    if 0 < k <= |tr[i].hist[q]| {
      assert EntryOk(M, size, tr[i].hist, q, Self, k - 1);
    }
  }

  /** Nothing is pending on the way up. */
  ghost predicate Quiet<T>(M: Monoid<T>, size: nat, s: State<T>)
    requires Sized(size, s)
  {
    forall r: nat {:trigger s.ups[r]} :: r < size ==> s.ups[r] == [] && !Enabled(M, size, s, Advance(r))
  }

  lemma {:induction false} AllForwarded<T>(M: Monoid<T>, size: nat, s: State<T>, r: nat, kind: Kind)
    requires UpInv(M, size, s) && Quiet(M, size, s) && r < size
    ensures Cnt(s.hist[r], kind) == |Src(M, size, s, r, kind)|
  {
    assert UpOk(M, size, s, r) && SlotsOk(M, size, s, r, kind);
    var l := s.procs[r];
    assert s.ups[r] == [];
    assert PendingSlot(M, kind, Src(M, size, s, r, kind), Cnt(s.hist[r], kind), l, l.counter);
  }

  lemma {:induction false} AllTakePart<T>(M: Monoid<T>, size: nat, root: nat, s: State<T>, q: nat)
    requires Inv(M, size, root, s) && Quiet(M, size, s) && q < size
    ensures PartCount(size, s.hist, q, |s.hist[root]|) == |s.hist[q]|
    decreases size - Power(q)
  {
    if Parent(size, q) < 0 {
      RootSpansAll(size, root);
      RootCount(size, s.hist, q, |s.hist[root]|);
    } else {
      ParentHasChild(size, q);
      var r := Parent(size, q);
      AllTakePart(M, size, root, s, r);
      UpInvLineage(M, size, s);
      ChildCount(M, size, s.hist, root, q, |s.hist[root]|);
      AllForwarded(M, size, s, r, Side(size, q));
      assert s.hist[r][..|s.hist[r]|] == s.hist[r];
      assert s.ups[q] == [];
    }
  }

  /** Once nothing is pending, every contribution ever made has been part of exactly one broadcast. */
  lemma {:induction false} QuietMeansCounted<T(!new)>(M: Monoid<T>, size: nat, root: nat, tr: seq<State<T>>,
      evs: seq<Event<T>>, i: nat, q: nat)
    requires Lawful(M) && IsRoot(size, root) && IsRun(M, size, tr, evs) && i < |tr|
    requires Sized(size, tr[i]) && Quiet(M, size, tr[i]) && q < size
    ensures Counted(M, size, tr[i].hist, q, |tr[i].hist[root]|) == tr[i].log[q]
  {
    var s := tr[i];
    RunInv(M, size, root, tr, evs, i);
    CountedIsPrefix(M, size, root, s, q, |s.hist[root]|);
    AllTakePart(M, size, root, s, q);
    AllForwarded(M, size, s, q, Self);
    assert s.hist[q][..|s.hist[q]|] == s.hist[q];
  }

  lemma {:induction false} PublishedBy<T>(M: Monoid<T>, size: nat, root: nat, s: State<T>, q: nat)
    requires Inv(M, size, root, s) && q < size
    requires forall r :: 0 <= r < size ==> s.downs[r] == []
    ensures |s.results[q]| == |s.hist[root]|
    decreases size - Power(q)
  {
    assert DownOk(M, size, root, s, q);
    RootSpansAll(size, root);
    if q != root {
      ParentHasChild(size, q);
      PublishedBy(M, size, root, s, Parent(size, q));
    }
  }

  /**
   In every run, once no broadcast is travelling, every process has published one result for each broadcast of
   the root, and this is its part of the prefix sums.
   */
  lemma {:induction false} AllPublished<T(!new)>(
    M: Monoid<T>, size: nat, root: nat, tr: seq<State<T>>, evs: seq<Event<T>>, i: nat, q: nat)
    requires Lawful(M) && IsRoot(size, root) && IsRun(M, size, tr, evs) && i < |tr| && q < size
    requires Sized(size, tr[i]) && forall r :: 0 <= r < size ==> tr[i].downs[r] == []
    ensures |tr[i].results[q]| == |tr[i].hist[root]|
    ensures forall n: nat :: n < |tr[i].hist[root]| ==>
      var x := Shares(M, size, tr[i].hist, n + 1);
      tr[i].results[q][n] == (Fold(M, x[..q]), Fold(M, x[..q + 1]), Fold(M, x))
  {
    RunInv(M, size, root, tr, evs, i);
    PublishedBy(M, size, root, tr[i], q);
    forall n: nat | n < |tr[i].hist[root]|
      ensures var x := Shares(M, size, tr[i].hist, n + 1);
        tr[i].results[q][n] == (Fold(M, x[..q]), Fold(M, x[..q + 1]), Fold(M, x))
    {
      ResultsArePrefixSums(M, size, tr, evs, i, q, n);
    }
  }
}
