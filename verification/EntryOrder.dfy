/** The order in which entries are sorted (EntryComparatorByPriority). */
module EntryOrder {
  import opened BalancingEntries

  predicate Before(hash: int -> int, a: Entry, b: Entry)
  {
    if a.priority != b.priority then a.priority > b.priority
    else if a.originalDemand != b.originalDemand then a.originalDemand > b.originalDemand
    else if hash(a.jobId) != hash(b.jobId) then hash(a.jobId) < hash(b.jobId)
    else a.jobId < b.jobId
  }

  ghost predicate Ordered(hash: int -> int, s: seq<Entry>)
  {
    forall i, k :: 0 <= i < k < |s| ==> !Before(hash, s[k], s[i])
  }

  function InsertSorted(hash: int -> int, e: Entry, s: seq<Entry>): seq<Entry>
  {
    if s == [] || !Before(hash, s[0], e) then [e] + s else [s[0]] + InsertSorted(hash, e, s[1..])
  }

  function Sorted(hash: int -> int, s: seq<Entry>): (r: seq<Entry>)
    ensures |r| == |s|
  {
    if s == [] then [] else
      var r := InsertSorted(hash, s[0], Sorted(hash, s[1..]));
      InsertPermutes(hash, s[0], Sorted(hash, s[1..]));
      r
  }

  lemma {:induction false} InsertPermutes(hash: int -> int, e: Entry, s: seq<Entry>)
    ensures multiset(InsertSorted(hash, e, s)) == multiset(s) + multiset{e}
    ensures |InsertSorted(hash, e, s)| == |s| + 1
  {
    if s != [] && Before(hash, s[0], e) {
      InsertPermutes(hash, e, s[1..]);
      assert s == [s[0]] + s[1..];
    }
  }

  lemma {:induction false} InsertOrders(hash: int -> int, e: Entry, s: seq<Entry>)
    requires Ordered(hash, s)
    ensures Ordered(hash, InsertSorted(hash, e, s))
  {
    var r := InsertSorted(hash, e, s);
    if s != [] && Before(hash, s[0], e) {
      InsertOrders(hash, e, s[1..]);
      InsertPermutes(hash, e, s[1..]);
      var t := InsertSorted(hash, e, s[1..]);
      forall k | 0 <= k < |t| ensures !Before(hash, t[k], s[0]) {
        assert t[k] in multiset(t);
        assert t[k] == e || t[k] in s[1..];
      }
    } else {
      forall k | 0 <= k < |s| ensures !Before(hash, s[k], e) {
        assert k > 0 ==> !Before(hash, s[k], s[0]);
      }
    }
  }

  /** Sorting yields an ordered permutation. */
  lemma {:induction false} SortedFacts(hash: int -> int, s: seq<Entry>)
    ensures multiset(Sorted(hash, s)) == multiset(s) && Ordered(hash, Sorted(hash, s))
  {
    if s != [] {
      SortedFacts(hash, s[1..]);
      InsertPermutes(hash, s[0], Sorted(hash, s[1..]));
      InsertOrders(hash, s[0], Sorted(hash, s[1..]));
      assert s == [s[0]] + s[1..];
    }
  }

  /** Higher priorities come first, then larger original demands, then smaller hashes. */
  lemma {:induction false} SortedByKeys(hash: int -> int, s: seq<Entry>, i: nat, k: nat)
    requires i < k < |s|
    ensures var a, b := Sorted(hash, s)[i], Sorted(hash, s)[k];
      && a.priority >= b.priority
      && (a.priority == b.priority ==> a.originalDemand >= b.originalDemand)
      && (a.priority == b.priority && a.originalDemand == b.originalDemand ==> hash(a.jobId) <= hash(b.jobId))
  {
    SortedFacts(hash, s);
  }

  ghost predicate DistinctIds(s: seq<Entry>)
  {
    forall a, b :: a in s && b in s && a.jobId == b.jobId ==> a == b
  }

  /** The first entries of ordered lists with the same members are equal. */
  lemma {:induction false} SameFirst(hash: int -> int, s: seq<Entry>, t: seq<Entry>)
    requires Ordered(hash, s) && Ordered(hash, t) && s != [] && t != []
    requires s[0] in t && t[0] in s && DistinctIds(s)
    ensures s[0] == t[0]
  {
    var i :| 0 <= i < |t| && t[i] == s[0];
    var k :| 0 <= k < |s| && s[k] == t[0];
    assert i == 0 || !Before(hash, t[i], t[0]);
    assert k == 0 || !Before(hash, s[k], s[0]);
    assert s[0] in s && s[k] in s;
  }

  lemma {:induction false} SameRest(s: seq<Entry>, t: seq<Entry>)
    requires multiset(s) == multiset(t) && s != []
    ensures t != [] && s[0] in t && t[0] in s
    ensures s[0] == t[0] ==> multiset(s[1..]) == multiset(t[1..])
  {
    assert |multiset(s)| == |s| && |multiset(t)| == |t|;
    assert s[0] in multiset(t) && t[0] in multiset(s);
    assert s == [s[0]] + s[1..] && t == [t[0]] + t[1..];
    if s[0] == t[0] {
      assert multiset(s[1..]) == multiset(s) - multiset{s[0]} && multiset(t[1..]) == multiset(t) - multiset{t[0]};
    }
  }

  /** Ordered lists of the same entries are equal. */
  lemma {:induction false} OrderIsUnique(hash: int -> int, s: seq<Entry>, t: seq<Entry>)
    requires Ordered(hash, s) && Ordered(hash, t) && multiset(s) == multiset(t) && DistinctIds(s)
    ensures s == t
  {
    assert |multiset(s)| == |s| && |multiset(t)| == |t|;
    if s != [] {
      SameRest(s, t);
      SameFirst(hash, s, t);
      assert forall a :: a in s[1..] ==> a in s;
      assert DistinctIds(s[1..]) && Ordered(hash, s[1..]) && Ordered(hash, t[1..]);
      OrderIsUnique(hash, s[1..], t[1..]);
      assert s == [s[0]] + s[1..] && t == [t[0]] + t[1..];
    }
  }

  /** All processes sort the same entries into the same order, however they are listed at first. */
  lemma {:induction false} SortingIsCanonical(hash: int -> int, s: seq<Entry>, t: seq<Entry>)
    requires multiset(s) == multiset(t) && DistinctIds(s)
    ensures Sorted(hash, s) == Sorted(hash, t)
  {
    SortedFacts(hash, s);
    SortedFacts(hash, t);
    forall a, b | a in Sorted(hash, s) && b in Sorted(hash, s) && a.jobId == b.jobId ensures a == b {
      assert a in multiset(Sorted(hash, s)) && b in multiset(Sorted(hash, s));
      assert a in s && b in s;
    }
    OrderIsUnique(hash, Sorted(hash, s), Sorted(hash, t));
  }
}
