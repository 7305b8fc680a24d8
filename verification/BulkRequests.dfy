/**
 Requests for several job tree nodes at once: how many nodes a request asks for
 (getCurrentDesiredRequestMultiplicity in src/core/request_manager.hpp), and how it multiplies into
 requests for the single nodes (getMultipliedChildRequests in src/data/job_transfer.hpp).
 */
module BulkRequests {
  import opened Options
  import opened JobTreeIndex
  import opened RequestMatching
  import opened MatchingRuns

  // ---------------------------------------------------------------------
  // The multiplicity of a request
  // ---------------------------------------------------------------------

  /** The number of nodes at or below index whose ancestors, up to index, and who themselves are below the volume. */
  function SubtreeCount(volume: int, index: nat): (m: nat)
    ensures m >= 1
    decreases volume - index
  {
    var l, r := 2 * index + 1, 2 * index + 2;
    1 + (if l < volume then SubtreeCount(volume, l) else 0) + (if r < volume then SubtreeCount(volume, r) else 0)
  }

  ghost function StackCount(volume: int, stack: seq<nat>): nat
  {
    if stack == [] then 0 else StackCount(volume, stack[..|stack| - 1]) + SubtreeCount(volume, stack[|stack| - 1])
  }

  lemma {:induction false} Pushed(volume: int, stack: seq<nat>, index: nat)
    ensures StackCount(volume, stack + [index]) == StackCount(volume, stack) + SubtreeCount(volume, index)
  {
    assert (stack + [index])[..|stack|] == stack;
  }

  /** The stack after the children of an index within the volume have been pushed. */
  function WithChildren(volume: int, stack: seq<nat>, index: nat): seq<nat>
  {
    var s := if 2 * index + 1 < volume then stack + [2 * index + 1] else stack;
    if 2 * index + 2 < volume then s + [2 * index + 2] else s
  }

  lemma {:induction false} Expanded(volume: int, stack: seq<nat>, index: nat)
    ensures StackCount(volume, WithChildren(volume, stack, index)) + 1 ==
      StackCount(volume, stack) + SubtreeCount(volume, index)
  {
    var s := if 2 * index + 1 < volume then stack + [2 * index + 1] else stack;
    Pushed(volume, stack, 2 * index + 1);
    Pushed(volume, s, 2 * index + 2);
  }

  /** getCurrentDesiredRequestMultiplicity */
  method DesiredMultiplicity(volume: int, index: nat) returns (multiplicity: nat)
    ensures multiplicity == SubtreeCount(volume, index)
  {
    var stack: seq<nat> := [index];
    multiplicity := 0;
    Pushed(volume, [], index);
    assert [] + [index] == [index];
    while stack != []
      invariant multiplicity + StackCount(volume, stack) == SubtreeCount(volume, index)
      decreases StackCount(volume, stack)
    {
      multiplicity := multiplicity + 1;
      var i := stack[|stack| - 1];
      stack := stack[..|stack| - 1];
      Expanded(volume, stack, i);
      stack := PushChildren(volume, stack, i);
    }
  }

  method PushChildren(volume: int, stack: seq<nat>, index: nat) returns (stack': seq<nat>)
    ensures stack' == WithChildren(volume, stack, index)
  {
    stack' := stack;
    var children := [2 * index + 1, 2 * index + 2];
    for k := 0 to 2
      invariant children == [2 * index + 1, 2 * index + 2]
      invariant k == 0 ==> stack' == stack
      invariant k == 1 ==> stack' == if 2 * index + 1 < volume then stack + [2 * index + 1] else stack
      invariant k == 2 ==> stack' == WithChildren(volume, stack, index)
    {
      if children[k] < volume {
        stack' := stack' + [children[k]];
      }
    }
  }

  // ---------------------------------------------------------------------
  // Positions in a subtree
  // ---------------------------------------------------------------------

  /** The index of the node at position t of the subtree at index, in breadth-first order. */
  function NodeIndex(index: nat, t: nat): nat
  {
    if t == 0 then index else 2 * NodeIndex(index, Parent(t)) + 2 - t % 2
  }

  lemma {:induction false} NodeIndexChildren(index: nat, t: nat)
    ensures NodeIndex(index, 2 * t + 1) == 2 * NodeIndex(index, t) + 1
    ensures NodeIndex(index, 2 * t + 2) == 2 * NodeIndex(index, t) + 2
  {
    assert Parent(2 * t + 1) == t && Parent(2 * t + 2) == t;
    assert (2 * t + 1) % 2 == 1 && (2 * t + 2) % 2 == 0;
  }

  lemma {:induction false} NodeIndexIncreases(index: nat, t: nat, u: nat)
    requires t < u
    ensures NodeIndex(index, t) < NodeIndex(index, u)
    decreases u
  {
    if t == 0 {
      if Parent(u) > 0 { NodeIndexIncreases(index, 0, Parent(u)); }
    } else if Parent(t) < Parent(u) {
      NodeIndexIncreases(index, Parent(t), Parent(u));
    } else {
      assert t % 2 == 1 && u % 2 == 0;
    }
  }

  lemma {:induction false} NodeIndexIsBelow(index: nat, t: nat)
    ensures Below(index, NodeIndex(index, t)) && NodeIndex(index, t) >= t
  {
    if t > 0 {
      NodeIndexIsBelow(index, Parent(t));
      var p := NodeIndex(index, Parent(t));
      assert Parent(2 * p + 2 - t % 2) == p;
    }
  }

  /** Every node of the subtree has a position. */
  lemma {:induction false} HasPosition(index: nat, x: nat) returns (t: nat)
    requires Below(index, x)
    ensures NodeIndex(index, t) == x
    decreases x
  {
    if x == index {
      t := 0;
    } else {
      var u := HasPosition(index, Parent(x));
      NodeIndexChildren(index, u);
      t := if x % 2 == 1 then 2 * u + 1 else 2 * u + 2;
    }
  }

  // ---------------------------------------------------------------------
  // Counting positions
  // ---------------------------------------------------------------------

  /** One more position belongs to exactly the subtrees it lies in. */
  lemma {:induction false} OneMorePosition(m: nat, t: nat)
    requires t < m
    ensures SubtreeCount(m + 1, t) == SubtreeCount(m, t) + if Below(t, m) then 1 else 0
    decreases m - t
  {
    ChildrenBelow(t, m);
    SubtreeOutside(m + 1, m);
    if 2 * t + 1 < m { OneMorePosition(m, 2 * t + 1); }
    if 2 * t + 2 < m { OneMorePosition(m, 2 * t + 2); }
  }

  lemma {:induction false} SubtreeOutside(volume: int, index: nat)
    requires volume <= 2 * index + 1
    ensures SubtreeCount(volume, index) == 1
  {
  }

  /** A node is below another one if it is this node, or below exactly one of its children. */
  lemma {:induction false} ChildrenBelow(t: nat, x: nat)
    ensures Below(t, x) <==> x == t || Below(2 * t + 1, x) || Below(2 * t + 2, x)
    ensures !(Below(2 * t + 1, x) && Below(2 * t + 2, x))
    ensures x == t ==> !Below(2 * t + 1, x) && !Below(2 * t + 2, x)
    decreases x
  {
    if x > t {
      ChildrenBelow(t, Parent(x));
      BelowIsLarger(2 * t + 1, Parent(x));
      BelowIsLarger(2 * t + 2, Parent(x));
    }
  }

  lemma {:induction false} BelowIsLarger(t: nat, x: nat)
    ensures Below(t, x) ==> x >= t
  {
  }

  lemma {:induction false} AllBelowRoot(x: nat)
    ensures Below(0, x)
  {
    if x > 0 { AllBelowRoot(Parent(x)); }
  }

  /** The positions below m form a tree of exactly m nodes. */
  lemma {:induction false} PositionCount(m: nat)
    requires m >= 1
    ensures SubtreeCount(m, 0) == m
  {
    if m > 1 {
      PositionCount(m - 1);
      OneMorePosition(m - 1, 0);
      AllBelowRoot(m - 1);
    }
  }

  predicate Splits(volume: int, index: nat, m: nat, u: nat)
  {
    u < m <==> NodeIndex(index, u) < volume
  }

  /** The positions below m are exactly those whose index is below the volume. */
  ghost predicate IsThreshold(volume: int, index: nat, m: nat)
  {
    forall u: nat {:trigger Splits(volume, index, m, u)} :: Splits(volume, index, m, u)
  }

  lemma {:induction false} Threshold(volume: int, index: nat, t: nat) returns (m: nat)
    requires t >= 1 && NodeIndex(index, t - 1) < volume
    ensures m >= 1 && IsThreshold(volume, index, m)
    decreases volume - t
  {
    if NodeIndex(index, t) < volume {
      NodeIndexIsBelow(index, t);
      m := Threshold(volume, index, t + 1);
    } else {
      m := t;
      forall u: nat ensures Splits(volume, index, m, u) {
        if u > t { NodeIndexIncreases(index, t, u); }
        if u < t - 1 { NodeIndexIncreases(index, u, t - 1); }
      }
    }
  }

  /** The subtree of a node and the tree of positions have the same shape. */
  lemma {:induction false} SameShape(volume: int, index: nat, m: nat, t: nat)
    requires IsThreshold(volume, index, m) && t < m
    ensures SubtreeCount(volume, NodeIndex(index, t)) == SubtreeCount(m, t)
    decreases m - t
  {
    NodeIndexChildren(index, t);
    assert Splits(volume, index, m, 2 * t + 1) && Splits(volume, index, m, 2 * t + 2);
    if 2 * t + 1 < m { SameShape(volume, index, m, 2 * t + 1); }
    if 2 * t + 2 < m { SameShape(volume, index, m, 2 * t + 2); }
  }

  /**
   A request for an index below the volume asks for exactly the nodes of its subtree which are below
   the volume: these are the first positions of the subtree.
   */
  lemma {:induction false} MultiplicityIsExact(volume: int, index: nat, t: nat)
    requires index < volume
    ensures t < SubtreeCount(volume, index) <==> NodeIndex(index, t) < volume
  {
    var m := Threshold(volume, index, 1);
    SameShape(volume, index, m, 0);
    PositionCount(m);
    assert Splits(volume, index, m, t);
  }

  // ---------------------------------------------------------------------
  // Multiplying requests
  // ---------------------------------------------------------------------

  /** getMatchingId */
  function MatchingId(req: Request): int
  {
    req.multiBaseId + if req.multiplicity == 1 then 0 else req.multiplicity - (req.multiEnd - req.multiBegin)
  }

  /** getMultipliedChildRequests */
  function ChildRequests(req: Request): (Option<Request>, Option<Request>)
  {
    if req.multiplicity == 1 || req.multiBegin == -1 || req.multiEnd == -1 then (None, None)
    else
      var offset := req.multiEnd - req.multiplicity;
      var rank := req.multiBegin - offset;
      var left, right := 2 * rank + 1 + offset, 2 * rank + 2 + offset;
      (if left < req.multiEnd then Some(req.(nodeIndex := 2 * req.nodeIndex + 1, multiBegin := left)) else None,
       if right < req.multiEnd then Some(req.(nodeIndex := 2 * req.nodeIndex + 2, multiBegin := right)) else None)
  }

  /** A request as it is announced: it starts at the destination of its first matching ID. */
  ghost predicate Announceable(size: nat, req: Request)
  {
    && size > 0 && req.nodeIndex >= 0 && req.multiplicity >= 1 && req.multiBaseId >= 0
    && req.multiBegin == Destination(size, req.multiBaseId) && req.multiEnd == req.multiBegin + req.multiplicity
  }

  /** The request for position t. */
  function AtPosition(req: Request, t: nat): Request
    requires req.nodeIndex >= 0
  {
    req.(nodeIndex := NodeIndex(req.nodeIndex, t), multiBegin := req.multiBegin + t)
  }

  ghost predicate IsAt(root: Request, req: Request, t: nat)
  {
    root.nodeIndex >= 0 && t < root.multiplicity && req == AtPosition(root, t)
  }

  /** All requests which result from a request at position t. */
  ghost function Multiplied(root: Request, req: Request, t: nat): seq<Request>
    requires IsAt(root, req, t) && root.multiBegin >= 0 && root.multiEnd == root.multiBegin + root.multiplicity
    decreases root.multiplicity - t
  {
    ChildPositions(root, req, t);
    var c := ChildRequests(req);
    [req] + (if c.0.Some? then Multiplied(root, c.0.value, 2 * t + 1) else [])
          + (if c.1.Some? then Multiplied(root, c.1.value, 2 * t + 2) else [])
  }

  lemma {:induction false} ChildPositions(root: Request, req: Request, t: nat)
    requires IsAt(root, req, t) && root.multiBegin >= 0 && root.multiEnd == root.multiBegin + root.multiplicity
    ensures var c := ChildRequests(req);
      && (c.0.Some? <==> 2 * t + 1 < root.multiplicity) && (c.0.Some? ==> IsAt(root, c.0.value, 2 * t + 1))
      && (c.1.Some? <==> 2 * t + 2 < root.multiplicity) && (c.1.Some? ==> IsAt(root, c.1.value, 2 * t + 2))
  {
    NodeIndexChildren(root.nodeIndex, t);
  }

  /** Exactly the positions below t are multiplied, each of them once. */
  lemma {:induction false} MultipliedPositions(root: Request, req: Request, t: nat)
    requires IsAt(root, req, t) && root.multiBegin >= 0 && root.multiEnd == root.multiBegin + root.multiplicity
    ensures |Multiplied(root, req, t)| == SubtreeCount(root.multiplicity, t)
    ensures forall u: nat :: u < root.multiplicity && Below(t, u) ==> AtPosition(root, u) in Multiplied(root, req, t)
    ensures forall x :: x in Multiplied(root, req, t) ==> exists u: nat :: IsAt(root, x, u) && Below(t, u)
    decreases root.multiplicity - t
  {
    ChildPositions(root, req, t);
    var c := ChildRequests(req);
    var l, r := if c.0.Some? then Multiplied(root, c.0.value, 2 * t + 1) else [],
                if c.1.Some? then Multiplied(root, c.1.value, 2 * t + 2) else [];
    if c.0.Some? { MultipliedPositions(root, c.0.value, 2 * t + 1); }
    if c.1.Some? { MultipliedPositions(root, c.1.value, 2 * t + 2); }
    var all := Multiplied(root, req, t);
    assert all == [req] + l + r;
    forall u: nat | u < root.multiplicity && Below(t, u) ensures AtPosition(root, u) in all {
      ChildrenBelow(t, u);
      BelowIsLarger(2 * t + 1, u);
      BelowIsLarger(2 * t + 2, u);
    }
    forall x | x in all ensures exists u: nat :: IsAt(root, x, u) && Below(t, u) {
      if x in l {
        var u: nat :| IsAt(root, x, u) && Below(2 * t + 1, u);
        ChildrenBelow(t, u);
      } else if x in r {
        var u: nat :| IsAt(root, x, u) && Below(2 * t + 2, u);
        ChildrenBelow(t, u);
      } else {
        assert x == req && IsAt(root, x, t) && Below(t, t);
      }
    }
  }

  ghost predicate DifferentTargets(all: seq<Request>)
  {
    forall i, k :: 0 <= i < k < |all| ==> all[i].multiBegin != all[k].multiBegin
  }

  lemma {:induction false} MultipliedOnce(root: Request, req: Request, t: nat)
    requires IsAt(root, req, t) && root.multiBegin >= 0 && root.multiEnd == root.multiBegin + root.multiplicity
    ensures DifferentTargets(Multiplied(root, req, t))
    decreases root.multiplicity - t
  {
    ChildPositions(root, req, t);
    var c := ChildRequests(req);
    var l, r := if c.0.Some? then Multiplied(root, c.0.value, 2 * t + 1) else [],
                if c.1.Some? then Multiplied(root, c.1.value, 2 * t + 2) else [];
    if c.0.Some? { MultipliedOnce(root, c.0.value, 2 * t + 1); }
    if c.1.Some? { MultipliedOnce(root, c.1.value, 2 * t + 2); }
    forall x | x in l ensures exists u: nat :: IsAt(root, x, u) && Below(2 * t + 1, u) {
      MultipliedPositions(root, c.0.value, 2 * t + 1);
    }
    forall x | x in r ensures exists u: nat :: IsAt(root, x, u) && Below(2 * t + 2, u) {
      MultipliedPositions(root, c.1.value, 2 * t + 2);
    }
    assert Multiplied(root, req, t) == [req] + l + r;
    SiblingsDiffer(root, req, t, l, r);
  }

  lemma {:induction false} SiblingsDiffer(root: Request, req: Request, t: nat, l: seq<Request>, r: seq<Request>)
    requires IsAt(root, req, t) && DifferentTargets(l) && DifferentTargets(r)
    requires forall x :: x in l ==> exists u: nat :: IsAt(root, x, u) && Below(2 * t + 1, u)
    requires forall x :: x in r ==> exists u: nat :: IsAt(root, x, u) && Below(2 * t + 2, u)
    ensures DifferentTargets([req] + l + r)
  {
    forall x | x in l ensures x.multiBegin != req.multiBegin {
      var u: nat :| IsAt(root, x, u) && Below(2 * t + 1, u);
      ChildrenBelow(t, u);
    }
    forall x | x in r ensures x.multiBegin != req.multiBegin {
      var u: nat :| IsAt(root, x, u) && Below(2 * t + 2, u);
      ChildrenBelow(t, u);
    }
    forall x, y | x in l && y in r ensures x.multiBegin != y.multiBegin {
      var u: nat :| IsAt(root, x, u) && Below(2 * t + 1, u);
      var v: nat :| IsAt(root, y, v) && Below(2 * t + 2, v);
      ChildrenBelow(t, u);
      ChildrenBelow(t, v);
    }
  }

  /** The matching ID and the destination of the request for position t. */
  lemma {:induction false} PositionIsMatched(size: nat, root: Request, t: nat)
    requires Announceable(size, root) && t < root.multiplicity
    ensures var x := AtPosition(root, t);
      MatchingId(x) == root.multiBaseId + t && x.multiBegin % size == MatchingId(x) % size
  {
    DestinationIsModulo(size, root.multiBaseId);
    ModuloOfSum(size, root.multiBaseId, t);
  }

  /** The request is for the rank which is responsible for its matching ID. */
  predicate Targeted(size: nat, req: Request)
    requires size > 0
  {
    req.multiBegin % size == MatchingId(req) % size
  }

  lemma {:induction false} MultipliedIsMatched(size: nat, root: Request, x: Request)
    requires Announceable(size, root) && exists u: nat :: IsAt(root, x, u) && Below(0, u)
    ensures root.multiBaseId <= MatchingId(x) < root.multiBaseId + root.multiplicity && Targeted(size, x)
    ensures MatchingId(x) == root.multiBaseId + x.multiBegin - root.multiBegin
  {
    var u: nat :| IsAt(root, x, u) && Below(0, u);
    PositionIsMatched(size, root, u);
  }

  lemma {:induction false} ModuloOfSum(size: nat, base: nat, t: nat)
    requires size > 0
    ensures (base % size + t) % size == (base + t) % size
  {
    var q, b := base / size, base % size;
    var q', r := (b + t) / size, (b + t) % size;
    assert base + t == (q + q') * size + r;
    UniqueRemainder(size, base + t, q + q', r);
  }

  /** Some request is for this index. */
  ghost predicate Requested(all: seq<Request>, i: nat)
  {
    exists x :: x in all && x.nodeIndex == i
  }

  /**
   A request of the desired multiplicity multiplies into exactly as many requests, one for every matching
   ID from its base ID on and each for the rank which is responsible for this matching ID; their indices
   are exactly those of the requested subtree which are below the volume.
   */
  lemma {:induction false} BulkRequestIsExact(size: nat, volume: int, root: Request)
    requires Announceable(size, root) && root.nodeIndex < volume
    requires root.multiplicity == SubtreeCount(volume, root.nodeIndex)
    ensures IsAt(root, root, 0)
    ensures var all := Multiplied(root, root, 0);
      && |all| == root.multiplicity
      && (forall i, k :: 0 <= i < k < |all| ==> MatchingId(all[i]) != MatchingId(all[k]))
      && (forall x :: x in all ==> root.multiBaseId <= MatchingId(x) < root.multiBaseId + root.multiplicity)
      && (forall x :: x in all ==> Targeted(size, x))
      && (forall i: nat {:trigger Requested(all, i)} :: Requested(all, i) <==> Below(root.nodeIndex, i) && i < volume)
  {
    var all := Multiplied(root, root, 0);
    PositionCount(root.multiplicity);
    MultipliedPositions(root, root, 0);
    MultipliedOnce(root, root, 0);
    forall x | x in all
      ensures root.multiBaseId <= MatchingId(x) < root.multiBaseId + root.multiplicity
      ensures Targeted(size, x) && MatchingId(x) == root.multiBaseId + x.multiBegin - root.multiBegin
    {
      MultipliedIsMatched(size, root, x);
    }
    forall i: nat ensures Requested(all, i) <==> Below(root.nodeIndex, i) && i < volume {
      IndexIsRequested(volume, root, all, i);
    }
  }

  lemma {:induction false} IndexIsRequested(volume: int, root: Request, all: seq<Request>, i: nat)
    requires 0 <= root.nodeIndex < volume && root.multiplicity == SubtreeCount(volume, root.nodeIndex)
    requires forall u: nat :: u < root.multiplicity && Below(0, u) ==> AtPosition(root, u) in all
    requires forall x :: x in all ==> exists u: nat :: IsAt(root, x, u) && Below(0, u)
    ensures Requested(all, i) <==> Below(root.nodeIndex, i) && i < volume
  {
    if Below(root.nodeIndex, i) && i < volume {
      var t := HasPosition(root.nodeIndex, i);
      MultiplicityIsExact(volume, root.nodeIndex, t);
      AllBelowRoot(t);
      assert AtPosition(root, t) in all && AtPosition(root, t).nodeIndex == i;
    }
    if Requested(all, i) {
      var x :| x in all && x.nodeIndex == i;
      var u: nat :| IsAt(root, x, u) && Below(0, u);
      MultiplicityIsExact(volume, root.nodeIndex, u);
      NodeIndexIsBelow(root.nodeIndex, u);
    }
  }

  /** An index which is not below the volume is requested alone. */
  lemma {:induction false} SingleRequest(volume: int, index: nat)
    requires index >= volume
    ensures SubtreeCount(volume, index) == 1
  {
  }

  /** What a matcher announces multiplies in this way: its matching IDs are its indices among all requests. */
  lemma {:induction false} AnnouncedMultiplies(size: nat, volume: int, x: Indexed)
    requires size > 0 && x.begin >= 0 && x.req.nodeIndex < volume && x.req.nodeIndex >= 0
    requires x.req.multiplicity == SubtreeCount(volume, x.req.nodeIndex) && x.end == x.begin + x.req.multiplicity
    ensures var req := Announcement(size, x).req;
      && IsAt(req, req, 0) && req.multiBegin >= 0 && req.multiEnd == req.multiBegin + req.multiplicity
      && (forall y :: y in Multiplied(req, req, 0) ==> x.begin <= MatchingId(y) < x.end && Targeted(size, y))
      && |Multiplied(req, req, 0)| == x.end - x.begin
  {
    BulkRequestIsExact(size, volume, Announcement(size, x).req);
  }
}
