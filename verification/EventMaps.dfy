/**
 Maps of epoch-stamped events (EventMap in src/balancing/event_map.hpp). A std::map<int, Event> is the
 sequence of its events in iteration order, that is, ordered by job ID.
 */
module EventMaps {
  import opened Options
  import opened JobEvents

  ghost predicate Sorted(l: seq<Event>)
  {
    forall i, k {:trigger l[i], l[k]} :: 0 <= i < k < |l| ==> l[i].jobId < l[k].jobId
  }

  /** The event of a job, if there is any. */
  function Find(l: seq<Event>, id: int): Option<Event>
  {
    if l == [] then None
    else if l[|l| - 1].jobId == id then Some(l[|l| - 1])
    else Find(l[..|l| - 1], id)
  }

  predicate Dominates(a: Event, b: Event)
  {
    a.epoch > b.epoch
  }

  lemma {:induction false} FindAt(l: seq<Event>, k: nat)
    requires Sorted(l) && k < |l|
    ensures Find(l, l[k].jobId) == Some(l[k])
  {
    if k < |l| - 1 {
      FindAt(l[..|l| - 1], k);
    }
  }

  lemma {:induction false} FoundAt(l: seq<Event>, id: int) returns (k: nat)
    requires Find(l, id).Some?
    ensures k < |l| && l[k] == Find(l, id).value && l[k].jobId == id
  {
    if l[|l| - 1].jobId == id {
      k := |l| - 1;
    } else {
      k := FoundAt(l[..|l| - 1], id);
    }
  }

  /** Where the lists of events differ, some job tells. */
  lemma {:induction false} Extensional(a: seq<Event>, b: seq<Event>)
    requires Sorted(a) && Sorted(b) && forall id :: Find(a, id) == Find(b, id)
    ensures a == b
    decreases |a| + |b|
  {
    if a != [] { var i := FoundAt(b, a[|a| - 1].jobId); }
    if b != [] { var k := FoundAt(a, b[|b| - 1].jobId); }
    assert a != [] <==> b != [];
    if a != [] {
      var x, y := a[|a| - 1], b[|b| - 1];
      var i := FoundAt(b, x.jobId);
      var k := FoundAt(a, y.jobId);
      var a', b' := a[..|a| - 1], b[..|b| - 1];
      forall id ensures Find(a', id) == Find(b', id) {
        if Find(a', id).Some? { var j := FoundAt(a', id); }
        if Find(b', id).Some? { var j := FoundAt(b', id); }
        assert Find(a, id) == Find(b, id);
      }
      Extensional(a', b');
      assert a == a' + [x] && b == b' + [y];
    }
  }

  lemma {:induction false} FindConcat(a: seq<Event>, e: Event, id: int)
    ensures Find(a + [e], id) == if id == e.jobId then Some(e) else Find(a, id)
  {
    assert (a + [e])[..|a|] == a;
  }

  // ---------------------------------------------------------------------
  // The join of two maps
  // ---------------------------------------------------------------------

  /** What aggregate makes of the two events of a job. */
  function Aggregated(x: Option<Event>, y: Option<Event>): Option<Event>
  {
    if x.None? then y else if y.None? then x else if Dominates(x.value, y.value) then x else y
  }

  /** What updateBy makes of them. */
  function Updated(x: Option<Event>, y: Option<Event>): Option<Event>
  {
    if y.None? || y.value.epoch < 0 then x
    else if x.None? || Dominates(y.value, x.value) then y else x
  }

  /** The newer event, if there is any. */
  function Join(x: Option<Event>, y: Option<Event>): Option<Event>
  {
    if x.None? then y else if y.None? || x.value.epoch >= y.value.epoch then x else y
  }

  /** Events of the same job and epoch are equal. */
  predicate Consistent(x: Option<Event>, y: Option<Event>)
  {
    x.Some? && y.Some? && x.value.epoch == y.value.epoch ==> x == y
  }

  predicate Proper(x: Option<Event>)
  {
    x.Some? ==> x.value.epoch >= 0
  }

  /** Both operations compute the join if events are consistent and epochs are not negative. */
  lemma {:induction false} BothJoin(x: Option<Event>, y: Option<Event>)
    requires Consistent(x, y) && Proper(y)
    ensures Aggregated(x, y) == Join(x, y) && Updated(x, y) == Join(x, y)
  {
  }

  /** Exactly when the two operations agree. */
  lemma {:induction false} AgreeExactly(x: Option<Event>, y: Option<Event>)
    ensures Aggregated(x, y) == Updated(x, y) <==>
      x == y || (Consistent(x, y) && Proper(y)) || (x.Some? && y.Some? && Dominates(x.value, y.value))
  {
  }

  /** They differ for equal epochs, and for events of terminated jobs. */
  lemma {:induction false} TheyDiffer(e: Event, f: Event)
    requires e.epoch == f.epoch && e != f
    ensures Aggregated(Some(e), Some(f)) != Updated(Some(e), Some(f))
    ensures e.epoch < 0 ==> Aggregated(None, Some(e)) != Updated(None, Some(e))
  {
  }

  lemma {:induction false} JoinLaws(x: Option<Event>, y: Option<Event>, z: Option<Event>)
    ensures Join(x, x) == x
    ensures Consistent(x, y) ==> Join(x, y) == Join(y, x)
    ensures Join(Join(x, y), z) == Join(x, Join(y, z))
  {
  }

  // ---------------------------------------------------------------------
  // The operations on lists
  // ---------------------------------------------------------------------

  /** Insert an event, replacing the event of the same job if there is any. */
  function Insert(l: seq<Event>, e: Event): seq<Event>
  {
    if l == [] then [e]
    else if l[0].jobId < e.jobId then [l[0]] + Insert(l[1..], e)
    else if l[0].jobId == e.jobId then [e] + l[1..]
    else [e] + l
  }

  lemma {:induction false} FindFirst(l: seq<Event>, id: int)
    requires l != [] && Sorted(l)
    ensures Find(l, id) == if l[0].jobId == id then Some(l[0]) else Find(l[1..], id)
    decreases |l|
  {
    if |l| > 1 {
      var n := |l| - 1;
      FindFirst(l[..n], id);
      assert l[1..][..n - 1] == l[..n][1..];
    } else {
      assert l[..0] == [] && l[1..] == [];
    }
  }

  lemma {:induction false} InsertSorts(l: seq<Event>, e: Event)
    requires Sorted(l)
    ensures Sorted(Insert(l, e)) && forall x :: x in Insert(l, e) ==> x == e || x in l
  {
    if l != [] && l[0].jobId < e.jobId {
      InsertSorts(l[1..], e);
      FirstIsSmallest(l[0], Insert(l[1..], e));
    } else if l != [] && l[0].jobId == e.jobId {
      FirstIsSmallest(e, l[1..]);
    } else {
      FirstIsSmallest(e, l);
    }
  }

  lemma {:induction false} FirstIsSmallest(e: Event, l: seq<Event>)
    requires Sorted(l) && forall x :: x in l ==> e.jobId < x.jobId
    ensures Sorted([e] + l)
  {
  }

  lemma {:induction false} InsertFinds(l: seq<Event>, e: Event, id: int)
    requires Sorted(l)
    ensures Find(Insert(l, e), id) == if id == e.jobId then Some(e) else Find(l, id)
  {
    var r := Insert(l, e);
    InsertSorts(l, e);
    FindFirst(r, id);
    if l == [] {
      assert r[1..] == [];
    } else {
      FindFirst(l, id);
      if l[0].jobId < e.jobId {
        InsertFinds(l[1..], e, id);
        assert r[1..] == Insert(l[1..], e);
      } else if l[0].jobId == e.jobId {
        assert r[1..] == l[1..];
      } else {
        assert r[1..] == l;
      }
    }
  }

  /** insertIfNovel */
  function Inserted(l: seq<Event>, e: Event): seq<Event>
  {
    if e.epoch < 0 then l
    else
      var x := Find(l, e.jobId);
      if x.None? || Dominates(e, x.value) then Insert(l, e) else l
  }

  lemma {:induction false} InsertedFacts(l: seq<Event>, e: Event, id: int)
    requires Sorted(l)
    ensures Sorted(Inserted(l, e))
    ensures Find(Inserted(l, e), id) == if id == e.jobId then Updated(Find(l, id), Some(e)) else Find(l, id)
  {
    InsertSorts(l, e);
    InsertFinds(l, e, id);
  }

  /** updateBy */
  function UpdatedBy(l: seq<Event>, other: seq<Event>): seq<Event>
  {
    if other == [] then l else Inserted(UpdatedBy(l, other[..|other| - 1]), other[|other| - 1])
  }

  lemma {:induction false} UpdatedByFacts(l: seq<Event>, other: seq<Event>, id: int)
    requires Sorted(l) && Sorted(other)
    ensures Sorted(UpdatedBy(l, other)) && Find(UpdatedBy(l, other), id) == Updated(Find(l, id), Find(other, id))
  {
    if other != [] {
      var n := |other| - 1;
      UpdatedByFacts(l, other[..n], id);
      InsertedFacts(UpdatedBy(l, other[..n]), other[n], id);
      if Find(other[..n], id).Some? { var k := FoundAt(other[..n], id); }
    }
  }

  /** insertIfNovel takes this event. */
  predicate IsNews(l: seq<Event>, e: Event)
  {
    e.epoch >= 0 && (Find(l, e.jobId).None? || Dominates(e, Find(l, e.jobId).value))
  }

  /** Each further event of the other map can only add to the changes made so far. */
  lemma {:induction false} NextIsNews(l: seq<Event>, other: seq<Event>, i: nat)
    requires Sorted(l) && Sorted(other) && i < |other|
    ensures var l', e := UpdatedBy(l, other[..i]), other[i];
      UpdatedBy(l, other[..i + 1]) == Inserted(l', e) && (Inserted(l', e) != l <==> l' != l || IsNews(l', e))
  {
    var l', e, id := UpdatedBy(l, other[..i]), other[i], other[i].jobId;
    assert other[..i + 1][..i] == other[..i];
    if Find(other[..i], id).Some? { var k := FoundAt(other[..i], id); }
    UpdatedByFacts(l, other[..i], id);
    InsertedFacts(l', e, id);
    if l' != l && Inserted(l', e) == l {
      forall j ensures Find(l', j) == Find(l, j) { InsertedFacts(l', e, j); }
      Extensional(l', l);
    }
  }

  /** filterBy: keep only what the other map does not have, or has with an older epoch. */
  function FilteredBy(l: seq<Event>, other: seq<Event>): seq<Event>
  {
    if l == [] then []
    else
      var rest, e := FilteredBy(l[..|l| - 1], other), l[|l| - 1];
      var x := Find(other, e.jobId);
      if x.Some? && x.value.epoch >= e.epoch then rest else rest + [e]
  }

  /** The other map has a different event of the same job and epoch. */
  predicate InConflict(e: Event, other: seq<Event>)
  {
    var x := Find(other, e.jobId);
    x.Some? && x.value.epoch == e.epoch && (x.value.priority != e.priority || x.value.demand != e.demand)
  }

  predicate Conflict(l: seq<Event>, other: seq<Event>)
  {
    exists k {:trigger l[k]} :: 0 <= k < |l| && InConflict(l[k], other)
  }

  /** removeOldZeros */
  function WithoutOldZeros(l: seq<Event>): seq<Event>
  {
    if l == [] then []
    else
      var rest, e := WithoutOldZeros(l[..|l| - 1]), l[|l| - 1];
      if e.demand == 0 && e.priority <= 0.0 then rest else rest + [e]
  }

  lemma {:induction false} LastIsLargest(l: seq<Event>, e: Event)
    requires Sorted(l) && forall x :: x in l ==> x.jobId < e.jobId
    ensures Sorted(l + [e])
  {
  }

  lemma {:induction false} FilteredSorted(l: seq<Event>, other: seq<Event>)
    requires Sorted(l)
    ensures Sorted(FilteredBy(l, other)) && forall x :: x in FilteredBy(l, other) ==> x in l
  {
    if l != [] {
      var n := |l| - 1;
      FilteredSorted(l[..n], other);
      LastIsLargest(FilteredBy(l[..n], other), l[n]);
    }
  }

  lemma {:induction false} FilteredFinds(l: seq<Event>, other: seq<Event>, id: int)
    requires Sorted(l)
    ensures var x, y := Find(l, id), Find(other, id);
      Find(FilteredBy(l, other), id) == if x.Some? && y.Some? && y.value.epoch >= x.value.epoch then None else x
  {
    if l != [] {
      var n := |l| - 1;
      FilteredFinds(l[..n], other, id);
      FindConcat(FilteredBy(l[..n], other), l[n], id);
      NotBefore(l, id);
    }
  }

  /** The last event's job does not occur before. */
  lemma {:induction false} NotBefore(l: seq<Event>, id: int)
    requires Sorted(l) && l != []
    ensures id == l[|l| - 1].jobId ==> Find(l[..|l| - 1], id).None?
  {
    if Find(l[..|l| - 1], id).Some? { var k := FoundAt(l[..|l| - 1], id); }
  }

  lemma {:induction false} WithoutZerosSorted(l: seq<Event>)
    requires Sorted(l)
    ensures Sorted(WithoutOldZeros(l)) && forall x :: x in WithoutOldZeros(l) ==> x in l
  {
    if l != [] {
      var n := |l| - 1;
      WithoutZerosSorted(l[..n]);
      LastIsLargest(WithoutOldZeros(l[..n]), l[n]);
    }
  }

  lemma {:induction false} WithoutZerosFinds(l: seq<Event>, id: int)
    requires Sorted(l)
    ensures var x := Find(l, id);
      Find(WithoutOldZeros(l), id) == if x.Some? && x.value.demand == 0 && x.value.priority <= 0.0 then None else x
  {
    if l != [] {
      var n := |l| - 1;
      WithoutZerosFinds(l[..n], id);
      FindConcat(WithoutOldZeros(l[..n]), l[n], id);
      NotBefore(l, id);
    }
  }

  // ---------------------------------------------------------------------
  // The object
  // ---------------------------------------------------------------------

  class EventMap {
    var list: seq<Event>
    var globalEpoch: nat

    constructor ()
      ensures list == [] && globalEpoch == 0
    {
      list, globalEpoch := [], 0;
    }

    ghost predicate Valid()
      reads this
    {
      Sorted(list)
    }

    /** The merge loop of aggregate, over both maps in the order of job IDs. */
    method Aggregate(other: EventMap)
      requires Valid() && other.Valid()
      modifies this
      ensures Valid() && globalEpoch ==
        (if old(globalEpoch) < old(other.globalEpoch) then old(other.globalEpoch) else old(globalEpoch))
      ensures forall id :: Find(list, id) == Aggregated(Find(old(list), id), Find(old(other.list), id))
    {
      if globalEpoch < other.globalEpoch { globalEpoch := other.globalEpoch; }
      list := Merge(list, other.list);
    }

    method InsertIfNovel(e: Event) returns (inserted: bool)
      requires Valid()
      modifies this`list
      ensures Valid() && list == Inserted(old(list), e)
      ensures inserted <==> IsNews(old(list), e)
    {
      InsertSorts(list, e);
      if e.epoch < 0 {
        return false;
      }
      var x := Find(list, e.jobId);
      if x.None? || Dominates(e, x.value) {
        list := Insert(list, e);
        return true;
      }
      inserted := false;
    }

    method UpdateBy(other: EventMap) returns (change: bool)
      requires Valid() && other.Valid() && other != this
      modifies this
      ensures Valid() && list == UpdatedBy(old(list), other.list)
      ensures globalEpoch == (if old(globalEpoch) < other.globalEpoch then other.globalEpoch else old(globalEpoch))
      ensures change <==> list != old(list) || globalEpoch != old(globalEpoch)
    {
      change := false;
      var i, events := 0, other.list;
      ghost var l := list;
      while i < |events|
        invariant 0 <= i <= |events| && Valid() && unchanged(other) && globalEpoch == old(globalEpoch)
        invariant list == UpdatedBy(l, events[..i]) && (change <==> list != l)
      {
        NextIsNews(l, events, i);
        var inserted := InsertIfNovel(events[i]);
        change := change || inserted;
        i := i + 1;
      }
      assert events[..i] == events;
      change := change || other.globalEpoch > globalEpoch;
      if globalEpoch < other.globalEpoch { globalEpoch := other.globalEpoch; }
    }

    /** The process aborts if the maps hold different events of the same job and epoch. */
    method FilterBy(other: EventMap) returns (ok: bool)
      requires Valid() && other.Valid()
      modifies this
      ensures Valid() && (ok <==> !Conflict(old(list), old(other.list)))
      ensures ok ==> list == FilteredBy(old(list), old(other.list))
      ensures ok ==> globalEpoch == (if old(globalEpoch) < old(other.globalEpoch) then old(other.globalEpoch)
                                     else old(globalEpoch))
      ensures !ok ==> unchanged(this)
    {
      var kept, i := [], 0;
      var l, o := list, other.list;
      while i < |l|
        invariant 0 <= i <= |l| && kept == FilteredBy(l[..i], o) && list == l && globalEpoch == old(globalEpoch)
        invariant forall k {:trigger l[k]} :: 0 <= k < i ==> !InConflict(l[k], o)
      {
        assert l[..i + 1][..i] == l[..i];
        if InConflict(l[i], o) {
          return false;
        }
        var x := Find(o, l[i].jobId);
        if !(x.Some? && x.value.epoch >= l[i].epoch) {
          kept := kept + [l[i]];
        }
        i := i + 1;
      }
      assert l[..i] == l;
      FilteredSorted(l, o);
      var e := other.globalEpoch;
      list := kept;
      if globalEpoch < e { globalEpoch := e; }
      ok := true;
    }

    method RemoveOldZeros()
      requires Valid()
      modifies this`list
      ensures Valid() && list == WithoutOldZeros(old(list))
    {
      var kept, i, l := [], 0, list;
      while i < |l|
        invariant 0 <= i <= |l| && kept == WithoutOldZeros(l[..i])
      {
        assert l[..i + 1][..i] == l[..i];
        if !(l[i].demand == 0 && l[i].priority <= 0.0) {
          kept := kept + [l[i]];
        }
        i := i + 1;
      }
      assert l[..i] == l;
      WithoutZerosSorted(l);
      list := kept;
    }
  }

  /** Iterate over both lists simultaneously. */
  method Merge(a: seq<Event>, b: seq<Event>) returns (r: seq<Event>)
    requires Sorted(a) && Sorted(b)
    ensures Sorted(r) && forall id :: Find(r, id) == Aggregated(Find(a, id), Find(b, id))
  {
    r := [];
    var i, k := 0, 0;
    while i < |a| || k < |b|
      invariant 0 <= i <= |a| && 0 <= k <= |b| && Sorted(r)
      invariant forall x :: x in r ==> (i < |a| ==> x.jobId < a[i].jobId) && (k < |b| ==> x.jobId < b[k].jobId)
      invariant Merged(a, b, i, k, r)
      decreases |a| - i + |b| - k
    {
      ghost var r0 := r;
      if i < |a| && k < |b| {
        if a[i].jobId == b[k].jobId {
          var e := if Dominates(a[i], b[k]) then a[i] else b[k];
          LastIsLargest(r, e);
          r := r + [e];
          TakenBoth(a, b, i, k, r0);
          i, k := i + 1, k + 1;
        } else if a[i].jobId < b[k].jobId {
          LastIsLargest(r, a[i]);
          r := r + [a[i]];
          TakenLeft(a, b, i, k, r0);
          i := i + 1;
        } else {
          LastIsLargest(r, b[k]);
          r := r + [b[k]];
          TakenRight(a, b, i, k, r0);
          k := k + 1;
        }
      } else if i < |a| {
        LastIsLargest(r, a[i]);
        r := r + [a[i]];
        TakenLeft(a, b, i, k, r0);
        i := i + 1;
      } else {
        LastIsLargest(r, b[k]);
        r := r + [b[k]];
        TakenRight(a, b, i, k, r0);
        k := k + 1;
      }
    }
    assert a[..i] == a && b[..k] == b;
    forall id ensures Find(r, id) == Aggregated(Find(a, id), Find(b, id)) {
      assert MergedFor(a, b, i, k, r, id);
    }
  }

  ghost predicate MergedFor(a: seq<Event>, b: seq<Event>, i: nat, k: nat, r: seq<Event>, id: int)
    requires i <= |a| && k <= |b|
  {
    Find(r, id) == Aggregated(Find(a[..i], id), Find(b[..k], id))
  }

  /** r is the result for the first i and k events. */
  ghost predicate Merged(a: seq<Event>, b: seq<Event>, i: nat, k: nat, r: seq<Event>)
    requires i <= |a| && k <= |b|
  {
    forall id {:trigger MergedFor(a, b, i, k, r, id)} :: MergedFor(a, b, i, k, r, id)
  }

  lemma {:induction false} NextFind(l: seq<Event>, i: nat, id: int)
    requires i < |l|
    ensures Find(l[..i + 1], id) == if id == l[i].jobId then Some(l[i]) else Find(l[..i], id)
  {
    assert l[..i + 1][..i] == l[..i];
  }

  lemma {:induction false} TakenBoth(a: seq<Event>, b: seq<Event>, i: nat, k: nat, r: seq<Event>)
    requires Sorted(a) && Sorted(b) && i < |a| && k < |b| && a[i].jobId == b[k].jobId && Merged(a, b, i, k, r)
    ensures Merged(a, b, i + 1, k + 1, r + [if Dominates(a[i], b[k]) then a[i] else b[k]])
  {
    var e := if Dominates(a[i], b[k]) then a[i] else b[k];
    var r', i', k' := r + [e], i + 1, k + 1;
    forall id ensures MergedFor(a, b, i', k', r', id) {
      assert MergedFor(a, b, i, k, r, id);
      FindConcat(r, e, id);
      NextFind(a, i, id);
      NextFind(b, k, id);
    }
  }

  lemma {:induction false} TakenLeft(a: seq<Event>, b: seq<Event>, i: nat, k: nat, r: seq<Event>)
    requires Sorted(a) && Sorted(b) && i < |a| && k <= |b| && (k < |b| ==> a[i].jobId < b[k].jobId) &&
      Merged(a, b, i, k, r)
    requires forall x :: x in r ==> x.jobId < a[i].jobId
    ensures Merged(a, b, i + 1, k, r + [a[i]])
  {
    var r', i' := r + [a[i]], i + 1;
    forall id ensures MergedFor(a, b, i', k, r', id) {
      assert MergedFor(a, b, i, k, r, id);
      FindConcat(r, a[i], id);
      NextFind(a, i, id);
      if id == a[i].jobId && Find(r, id).Some? { var j := FoundAt(r, id); }
    }
  }

  lemma {:induction false} TakenRight(a: seq<Event>, b: seq<Event>, i: nat, k: nat, r: seq<Event>)
    requires Sorted(a) && Sorted(b) && i <= |a| && k < |b| && (i < |a| ==> b[k].jobId < a[i].jobId) &&
      Merged(a, b, i, k, r)
    requires forall x :: x in r ==> x.jobId < b[k].jobId
    ensures Merged(a, b, i, k + 1, r + [b[k]])
  {
    var r', k' := r + [b[k]], k + 1;
    forall id ensures MergedFor(a, b, i, k', r', id) {
      assert MergedFor(a, b, i, k, r, id);
      FindConcat(r, b[k], id);
      NextFind(b, k, id);
      if id == b[k].jobId && Find(r, id).Some? { var j := FoundAt(r, id); }
    }
  }

  /** Under the same conditions, the two operations result in the same map. */
  lemma {:induction false} SameResult(a: seq<Event>, b: seq<Event>, r: seq<Event>)
    requires Sorted(a) && Sorted(b) && Sorted(r)
    requires forall id :: Find(r, id) == Aggregated(Find(a, id), Find(b, id))
    requires forall id :: Consistent(Find(a, id), Find(b, id)) && Proper(Find(b, id))
    ensures r == UpdatedBy(a, b) && forall id :: Find(r, id) == Join(Find(a, id), Find(b, id))
  {
    UpdatedByFacts(a, b, 0);
    forall id ensures Find(r, id) == Find(UpdatedBy(a, b), id) && Find(r, id) == Join(Find(a, id), Find(b, id)) {
      UpdatedByFacts(a, b, id);
      BothJoin(Find(a, id), Find(b, id));
    }
    Extensional(r, UpdatedBy(a, b));
  }

  // ---------------------------------------------------------------------
  // The laws of updates
  // ---------------------------------------------------------------------

  lemma {:induction false} SameFinds(a: seq<Event>, b: seq<Event>, c: seq<Event>, d: seq<Event>)
    requires Sorted(a) && Sorted(b) && Sorted(c) && Sorted(d)
    requires forall id :: Updated(Find(a, id), Find(b, id)) == Updated(Find(c, id), Find(d, id))
    ensures UpdatedBy(a, b) == UpdatedBy(c, d)
  {
    UpdatedByFacts(a, b, 0);
    UpdatedByFacts(c, d, 0);
    forall id ensures Find(UpdatedBy(a, b), id) == Find(UpdatedBy(c, d), id) {
      UpdatedByFacts(a, b, id);
      UpdatedByFacts(c, d, id);
    }
    Extensional(UpdatedBy(a, b), UpdatedBy(c, d));
  }

  /** Updates are associative and idempotent on all maps. */
  lemma {:induction false} UpdateLaws(a: seq<Event>, b: seq<Event>, c: seq<Event>)
    requires Sorted(a) && Sorted(b) && Sorted(c)
    ensures UpdatedBy(a, a) == a && UpdatedBy(UpdatedBy(a, b), b) == UpdatedBy(a, b)
    ensures UpdatedBy(UpdatedBy(a, b), c) == UpdatedBy(a, UpdatedBy(b, c))
  {
    UpdatedByFacts(a, b, 0);
    UpdatedByFacts(b, c, 0);
    forall id
      ensures Updated(Find(a, id), Find(a, id)) == Updated(Find(a, id), Find([], id))
      ensures Updated(Find(UpdatedBy(a, b), id), Find(b, id)) == Updated(Find(a, id), Find(b, id))
      ensures Updated(Find(UpdatedBy(a, b), id), Find(c, id)) == Updated(Find(a, id), Find(UpdatedBy(b, c), id))
    {
      UpdatedByFacts(a, b, id);
      UpdatedByFacts(b, c, id);
    }
    SameFinds(a, a, a, []);
    SameFinds(UpdatedBy(a, b), b, a, b);
    SameFinds(UpdatedBy(a, b), c, a, UpdatedBy(b, c));
  }

  /** It does not matter which of the two maps is updated by the other one. */
  predicate EitherWay(x: Option<Event>, y: Option<Event>)
  {
    || x == y
    || (x.None? && Proper(y)) || (y.None? && Proper(x))
    || (x.Some? && y.Some? && x.value.epoch != y.value.epoch && (x.value.epoch >= 0 || y.value.epoch >= 0))
  }

  predicate EitherWayFor(a: seq<Event>, b: seq<Event>, id: int)
  {
    EitherWay(Find(a, id), Find(b, id))
  }

  /** Updates commute exactly for maps which agree on equal epochs and have no lone event of a negative epoch. */
  lemma {:induction false} UpdatesCommuteExactly(a: seq<Event>, b: seq<Event>)
    requires Sorted(a) && Sorted(b)
    ensures UpdatedBy(a, b) == UpdatedBy(b, a) <==> forall id :: EitherWayFor(a, b, id)
  {
    forall id
      ensures UpdatedBy(a, b) == UpdatedBy(b, a) ==> EitherWayFor(a, b, id)
      ensures EitherWayFor(a, b, id) ==> Updated(Find(a, id), Find(b, id)) == Updated(Find(b, id), Find(a, id))
    {
      UpdatedByFacts(a, b, id);
      UpdatedByFacts(b, a, id);
    }
    if forall id :: EitherWayFor(a, b, id) {
      forall id ensures Updated(Find(a, id), Find(b, id)) == Updated(Find(b, id), Find(a, id)) {
        assert EitherWayFor(a, b, id);
      }
      SameFinds(a, b, b, a);
    }
  }

  predicate ConsistentFor(a: seq<Event>, b: seq<Event>, id: int)
  {
    Consistent(Find(a, id), Find(b, id))
  }

  /** What the merge loop makes of two maps does not depend on their order exactly if they agree on equal epochs. */
  lemma {:induction false} MergesCommuteExactly(a: seq<Event>, b: seq<Event>, ab: seq<Event>, ba: seq<Event>)
    requires Sorted(a) && Sorted(b) && Sorted(ab) && Sorted(ba)
    requires forall id :: Find(ab, id) == Aggregated(Find(a, id), Find(b, id))
    requires forall id :: Find(ba, id) == Aggregated(Find(b, id), Find(a, id))
    ensures ab == ba <==> forall id :: ConsistentFor(a, b, id)
  {
    forall id ensures Find(ab, id) == Find(ba, id) <==> ConsistentFor(a, b, id) {
      assert Find(ab, id) == Aggregated(Find(a, id), Find(b, id));
      assert Find(ba, id) == Aggregated(Find(b, id), Find(a, id));
    }
    if forall id :: ConsistentFor(a, b, id) {
      forall id ensures Find(ab, id) == Find(ba, id) {
        assert ConsistentFor(a, b, id);
      }
      Extensional(ab, ba);
    }
  }

  /** And it is associative and idempotent. */
  lemma {:induction false} MergeLaws(a: seq<Event>, b: seq<Event>, c: seq<Event>, aa: seq<Event>,
                                     ab: seq<Event>, bc: seq<Event>, r: seq<Event>, t: seq<Event>)
    requires Sorted(a) && Sorted(b) && Sorted(c) && Sorted(aa) && Sorted(ab) && Sorted(bc) && Sorted(r) && Sorted(t)
    requires forall id :: Find(aa, id) == Aggregated(Find(a, id), Find(a, id))
    requires forall id :: Find(ab, id) == Aggregated(Find(a, id), Find(b, id))
    requires forall id :: Find(bc, id) == Aggregated(Find(b, id), Find(c, id))
    requires forall id :: Find(r, id) == Aggregated(Find(ab, id), Find(c, id))
    requires forall id :: Find(t, id) == Aggregated(Find(a, id), Find(bc, id))
    ensures aa == a && r == t
  {
    forall id ensures Find(aa, id) == Find(a, id) && Find(r, id) == Find(t, id) {
      assert Find(aa, id) == Aggregated(Find(a, id), Find(a, id));
      assert Find(ab, id) == Aggregated(Find(a, id), Find(b, id));
      assert Find(bc, id) == Aggregated(Find(b, id), Find(c, id));
      assert Find(r, id) == Aggregated(Find(ab, id), Find(c, id));
      assert Find(t, id) == Aggregated(Find(a, id), Find(bc, id));
    }
    Extensional(aa, a);
    Extensional(r, t);
  }
}
