/**
 Lists of inactive job nodes (src/scheduling/job_scheduling_update.hpp).
 A std::set<InactiveJobNode> is the sequence of its elements in iteration order.
 */
module JobNodes {
  import opened JobTreeIndex

  datatype Status = Available | Busy | Lost

  datatype Node = Node(rank: int, index: nat, epoch: int, status: Status)

  /** operator<: by index, then newest epoch first, then by rank. The status is not part of the key. */
  predicate Before(a: Node, b: Node)
  {
    if a.index != b.index then a.index < b.index
    else if a.epoch != b.epoch then a.epoch > b.epoch
    else a.rank < b.rank
  }

  predicate SameKey(a: Node, b: Node)
  {
    a.rank == b.rank && a.index == b.index && a.epoch == b.epoch
  }

  ghost predicate Ordered(s: seq<Node>)
  {
    forall i, j :: 0 <= i < j < |s| ==> Before(s[i], s[j])
  }

  predicate HasKey(s: seq<Node>, n: Node)
  {
    exists m :: m in s && SameKey(m, n)
  }

  lemma {:induction false} OrderedCons(n: Node, s: seq<Node>)
    requires Ordered(s)
    requires forall m :: m in s ==> Before(n, m)
    ensures Ordered([n] + s)
  {
    forall i, j | 0 <= i < j < |s| + 1
      ensures Before(([n] + s)[i], ([n] + s)[j])
    {
      assert ([n] + s)[j] == s[j - 1] && s[j - 1] in s;
    }
  }

  /** std::set::insert: an element with an equal key stays as it is. */
  function Insert(s: seq<Node>, n: Node): (r: seq<Node>)
    requires Ordered(s)
    ensures Ordered(r)
    ensures forall m :: m in r <==> m in s || (m == n && !HasKey(s, n))
  {
    if s == [] then [n]
    else if Before(n, s[0]) then
      assert forall m :: m in s ==> Before(n, m);
      OrderedCons(n, s);
      [n] + s
    else if SameKey(n, s[0]) then
      assert s[0] in s;
      s
    else
      var r := Insert(s[1..], n);
      assert s == [s[0]] + s[1..];
      assert HasKey(s, n) <==> HasKey(s[1..], n);
      OrderedCons(s[0], r);
      [s[0]] + r
  }

  /** std::set::insert(begin, end) */
  function InsertAll(s: seq<Node>, t: seq<Node>): (r: seq<Node>)
    requires Ordered(s)
    ensures Ordered(r)
    ensures forall m :: m in s ==> m in r
    ensures forall m :: m in r ==> m in s || m in t
    ensures forall m :: m in t ==> HasKey(r, m)
    decreases |t|
  {
    if t == [] then s
    else
      var s' := Insert(s, t[0]);
      assert HasKey(s', t[0]) by {
        if !HasKey(s, t[0]) { assert t[0] in s'; }
        else { var m :| m in s && SameKey(m, t[0]); assert m in s'; }
      }
      var r := InsertAll(s', t[1..]);
      assert HasKey(r, t[0]) by {
        var m :| m in s' && SameKey(m, t[0]);
        assert m in r;
      }
      r
  }

  lemma {:induction false} InsertLast(s: seq<Node>, n: Node)
    requires Ordered(s + [n])
    ensures Ordered(s)
    ensures Insert(s, n) == s + [n]
  {
    assert forall i :: 0 <= i < |s| ==> (s + [n])[i] == s[i];
    if s != [] {
      assert Before((s + [n])[0], (s + [n])[|s|]);
      assert (s + [n])[1..] == s[1..] + [n];
      InsertLast(s[1..], n);
      assert s + [n] == [s[0]] + (s[1..] + [n]);
    }
  }

  /** std::set::erase(key) */
  function Erase(s: seq<Node>, n: Node): (r: seq<Node>)
    ensures forall m :: m in r <==> m in s && !SameKey(m, n)
    ensures Ordered(s) ==> Ordered(r)
  {
    if s == [] then []
    else
      var r := Erase(s[1..], n);
      assert s == [s[0]] + s[1..];
      if SameKey(s[0], n) then r
      else
        assert Ordered(s) ==> Ordered([s[0]] + r) by {
          if Ordered(s) { OrderedCons(s[0], r); }
        }
        [s[0]] + r
  }

  function EraseAll(s: seq<Node>, t: seq<Node>): (r: seq<Node>)
    ensures forall m :: m in r <==> m in s && !HasKey(t, m)
    ensures Ordered(s) ==> Ordered(r)
    decreases |t|
  {
    if t == [] then s
    else
      assert t == [t[0]] + t[1..];
      assert forall m :: HasKey(t, m) <==> SameKey(t[0], m) || HasKey(t[1..], m);
      EraseAll(Erase(s, t[0]), t[1..])
  }

  /** Two ordered lists with the same elements are equal. */
  lemma {:induction false} OrderedExtensional(s: seq<Node>, t: seq<Node>)
    requires Ordered(s) && Ordered(t)
    requires forall m :: m in s <==> m in t
    ensures s == t
  {
    assert s != [] ==> s[0] in t;
    assert t != [] ==> t[0] in s;
    if s != [] {
      assert s[0] in t && t[0] in s;
      assert s[0] == t[0];
      assert s == [s[0]] + s[1..] && t == [t[0]] + t[1..];
      forall m ensures m in s[1..] <==> m in t[1..] {
        if m in s[1..] { assert m in t && Before(s[0], m); }
        if m in t[1..] { assert m in s && Before(t[0], m); }
      }
      OrderedExtensional(s[1..], t[1..]);
    }
  }

  /** In an ordered list, elements with equal keys are the same element. */
  lemma {:induction false} KeysDistinct(s: seq<Node>, a: Node, b: Node)
    requires Ordered(s) && a in s && b in s && SameKey(a, b)
    ensures a == b
  {
    assert forall i, j :: 0 <= i < j < |s| ==> !SameKey(s[i], s[j]) && !SameKey(s[j], s[i]);
    var i :| 0 <= i < |s| && s[i] == a;
    var j :| 0 <= j < |s| && s[j] == b;
  }

  // ---------------------------------------------------------------------
  // extractSubtree
  // ---------------------------------------------------------------------

  predicate InSubtree(root: nat, excludeRoot: bool, i: nat)
  {
    Below(root, i) && !(excludeRoot && i == root)
  }

  /** The nodes inside (or outside) a subtree, in order. */
  function Select(s: seq<Node>, root: nat, excludeRoot: bool, inside: bool): (r: seq<Node>)
    ensures forall m :: m in r <==> m in s && InSubtree(root, excludeRoot, m.index) == inside
    ensures Ordered(s) ==> Ordered(r)
  {
    if s == [] then []
    else
      var r := Select(s[1..], root, excludeRoot, inside);
      assert s == [s[0]] + s[1..];
      if InSubtree(root, excludeRoot, s[0].index) != inside then r
      else
        assert Ordered(s) ==> Ordered([s[0]] + r) by {
          if Ordered(s) { OrderedCons(s[0], r); }
        }
        [s[0]] + r
  }

  /**
   extractSubtree: one pass over the ordered nodes with a running window [left..right] of tree
   layers. The nodes taken out are exactly the descendants, and the others stay.
   */
  method ExtractSubtree(s: seq<Node>, root: nat, excludeRoot: bool) returns (result: seq<Node>, rest: seq<Node>)
    requires Ordered(s)
    ensures result == Select(s, root, excludeRoot, true)
    ensures rest == Select(s, root, excludeRoot, false)
  {
    var left: nat, right: nat := root, root;
    if excludeRoot {
      left, right := 2 * left + 1, 2 * right + 2;
    }
    ghost var l0: nat, r0: nat := left, right;
    forall i: nat
      ensures InLayers(l0, r0, i) <==> InSubtree(root, excludeRoot, i)
    {
      LayersAreSubtree(root, i);
      LayersBelowRoot(root, i);
    }
    result := [];
    var k := 0;
    while k < |s|
      invariant 0 <= k <= |s| && left <= right
      invariant Ordered(result)
      invariant forall m :: m in result <==> m in s[..k] && InSubtree(root, excludeRoot, m.index)
      invariant forall j :: k <= j < |s| ==> (InLayers(left, right, s[j].index) <==> InLayers(l0, r0, s[j].index))
    {
      var node := s[k];
      assert forall j :: k <= j < |s| ==> node.index <= s[j].index;
      while node.index > right
        invariant left <= right
        invariant forall j :: k <= j < |s| ==> (InLayers(left, right, s[j].index) <==> InLayers(l0, r0, s[j].index))
        decreases node.index - right
      {
        left, right := 2 * left + 1, 2 * right + 2;
      }
      assert s[..k + 1] == s[..k] + [node];
      if left <= node.index <= right {
        assert forall m :: m in s[..k] ==> Before(m, node);
        assert !HasKey(result, node);
        result := Insert(result, node);
      }
      k := k + 1;
    }
    assert s[..|s|] == s;
    OrderedExtensional(result, Select(s, root, excludeRoot, true));
    rest := EraseAll(s, result);
    forall m
      ensures m in rest <==> m in Select(s, root, excludeRoot, false)
    {
      if m in s && HasKey(result, m) {
        var m' :| m' in result && SameKey(m', m);
        KeysDistinct(s, m, m');
      }
    }
    OrderedExtensional(rest, Select(s, root, excludeRoot, false));
  }

  // ---------------------------------------------------------------------
  // split
  // ---------------------------------------------------------------------

  /** Whether split puts a node into the left part, given the sizes of the parts so far. */
  predicate GoesLeft(index: nat, i: nat, leftSize: nat, rightSize: nat)
  {
    if i < 2 * index + 1 then leftSize < rightSize
    else LeftOf(2 * index + 1, 2 * index + 2, i)
  }

  function SplitParts(s: seq<Node>, index: nat): (p: (seq<Node>, seq<Node>))
    requires Ordered(s)
    ensures Ordered(p.0) && Ordered(p.1)
    ensures forall m :: m in s <==> m in p.0 || m in p.1
    ensures forall m :: !(m in p.0 && m in p.1)
    decreases |s|
  {
    if s == [] then ([], [])
    else
      var k := |s| - 1;
      var p := SplitParts(s[..k], index);
      assert s == s[..k] + [s[k]];
      assert forall m :: m in s[..k] ==> Before(m, s[k]);
      assert !HasKey(p.0, s[k]) && !HasKey(p.1, s[k]);
      if GoesLeft(index, s[k].index, |p.0|, |p.1|) then (Insert(p.0, s[k]), p.1)
      else (p.0, Insert(p.1, s[k]))
  }

  /** split: a partition that keeps every left descendant left and every right descendant right. */
  lemma {:induction false} SplitRespectsSubtrees(s: seq<Node>, index: nat, n: Node)
    requires Ordered(s) && n in s
    ensures Below(2 * index + 1, n.index) ==> n in SplitParts(s, index).0
    ensures Below(2 * index + 2, n.index) ==> n in SplitParts(s, index).1
    decreases |s|
  {
    var k := |s| - 1;
    var p := SplitParts(s[..k], index);
    assert s == s[..k] + [s[k]];
    if n in s[..k] {
      SplitRespectsSubtrees(s[..k], index, n);
    } else {
      assert forall m :: m in s[..k] ==> Before(m, s[k]);
      assert !HasKey(p.0, n) && !HasKey(p.1, n);
      SidesOfSubtrees(index, n.index);
    }
  }

  /** The parts of a list of k + 1 nodes are those of the first k, and the next node in one of them. */
  lemma {:induction false} SplitStep(s: seq<Node>, index: nat, k: nat)
    requires Ordered(s) && k < |s|
    ensures Ordered(s[..k]) && Ordered(s[..k + 1])
    ensures var p := SplitParts(s[..k], index);
      && SplitParts(s[..k + 1], index) ==
         (if GoesLeft(index, s[k].index, |p.0|, |p.1|) then (Insert(p.0, s[k]), p.1) else (p.0, Insert(p.1, s[k])))
  {
    assert s[..k + 1][..k] == s[..k];
  }

  lemma {:induction false} NextIsNew(s: seq<Node>, k: nat, p: seq<Node>)
    requires Ordered(s) && k < |s| && Ordered(p) && forall m :: m in p ==> m in s[..k]
    ensures !HasKey(p, s[k])
  {
    forall m | m in p
      ensures !SameKey(m, s[k])
    {
      var j :| 0 <= j < k && s[j] == m;
      assert Before(s[j], s[k]);
    }
  }

  lemma {:induction false} InsertAddsOne(s: seq<Node>, n: Node)
    requires Ordered(s) && !HasKey(s, n)
    ensures |Insert(s, n)| == |s| + 1
  {
    if s != [] && !Before(n, s[0]) {
      assert s[0] in s && s == [s[0]] + s[1..];
      assert forall m :: m in s[1..] ==> m in s;
      InsertAddsOne(s[1..], n);
    }
  }

  /** The nodes above the children come first in the list, and split deals them out evenly. */
  lemma {:induction false} SplitDealsEvenly(s: seq<Node>, index: nat, k: nat)
    requires Ordered(s) && k <= |s| && forall j :: 0 <= j < k ==> s[j].index < 2 * index + 1
    ensures Ordered(s[..k])
    ensures var p := SplitParts(s[..k], index); |p.0| + |p.1| == k && |p.0| <= |p.1| <= |p.0| + 1
  {
    if k > 0 {
      var m := k - 1;
      SplitDealsEvenly(s, index, m);
      SplitStep(s, index, m);
      var p := SplitParts(s[..m], index);
      NextIsNew(s, m, p.0);
      NextIsNew(s, m, p.1);
      InsertAddsOne(p.0, s[m]);
      InsertAddsOne(p.1, s[m]);
    }
  }

  /** Where a node goes does not depend on the nodes after it. */
  lemma {:induction false} SplitGoesOn(s: seq<Node>, index: nat, k: nat, i: nat)
    requires Ordered(s) && i < k <= |s|
    ensures Ordered(s[..i + 1]) && Ordered(s[..k])
    ensures s[i] in SplitParts(s[..i + 1], index).0 <==> s[i] in SplitParts(s[..k], index).0
    decreases k
  {
    if i + 1 < k {
      var m := k - 1;
      SplitGoesOn(s, index, m, i);
      SplitStep(s, index, m);
      var n, p, q := s[i], SplitParts(s[..m], index), SplitParts(s[..k], index);
      assert n != s[m] by {
        assert Before(n, s[m]);
      }
      assert q.0 == p.0 || q.0 == Insert(p.0, s[m]);
    }
  }

  method Split(s: seq<Node>, index: nat) returns (left: seq<Node>, right: seq<Node>)
    requires Ordered(s)
    ensures (left, right) == SplitParts(s, index)
  {
    left, right := [], [];
    var k := 0;
    while k < |s|
      invariant 0 <= k <= |s|
      invariant (left, right) == SplitParts(s[..k], index)
    {
      var node := s[k];
      var leftMax: nat, rightMax: nat := 2 * index + 1, 2 * index + 2;
      ghost var goesLeft := GoesLeft(index, node.index, |left|, |right|);
      if node.index < leftMax {
        if |left| < |right| {
          left := Insert(left, node);
        } else {
          right := Insert(right, node);
        }
      } else {
        while node.index > rightMax
          invariant goesLeft <==> LeftOf(leftMax, rightMax, node.index)
          decreases node.index - rightMax
        {
          leftMax, rightMax := 2 * leftMax + 2, 2 * rightMax + 2;
        }
        if node.index > leftMax {
          right := Insert(right, node);
        } else {
          left := Insert(left, node);
        }
      }
      assert s[..k + 1][..k] == s[..k];
      k := k + 1;
    }
    assert s[..|s|] == s;
  }

  // ---------------------------------------------------------------------
  // cleanUpStatuses
  // ---------------------------------------------------------------------

  /** Lost nodes are dropped, all others become available again. */
  function Cleaned(s: seq<Node>): (r: seq<Node>)
    ensures Ordered(s) ==> Ordered(r)
    ensures forall m :: m in s && m.status != Lost ==> m.(status := Available) in r
    ensures forall m :: m in r ==> exists n :: n in s && n.status != Lost && m == n.(status := Available)
  {
    if s == [] then []
    else
      var r := Cleaned(s[1..]);
      assert s == [s[0]] + s[1..];
      if s[0].status == Lost then r
      else
        assert Ordered(s) ==> Ordered([s[0].(status := Available)] + r) by {
          if Ordered(s) { OrderedCons(s[0].(status := Available), r); }
        }
        [s[0].(status := Available)] + r
  }

  lemma {:induction false} DeletedUnderKey(s: seq<Node>, deleted: seq<Node>, n: Node)
    requires Ordered(s) && n in s && forall m :: m in deleted <==> m in s && m.status == Lost
    ensures HasKey(deleted, n) <==> n.status == Lost
  {
    if HasKey(deleted, n) {
      var d :| d in deleted && SameKey(d, n);
      KeysDistinct(s, d, n);
    }
  }

  method CleanUpStatuses(s: seq<Node>) returns (r: seq<Node>)
    requires Ordered(s)
    ensures r == Cleaned(s)
  {
    r := s;
    var toDelete := [];
    var k := 0;
    while k < |s|
      invariant 0 <= k <= |s| == |r|
      invariant forall j {:trigger r[j]} :: 0 <= j < |s| ==>
        r[j] == if j < k && s[j].status != Lost then s[j].(status := Available) else s[j]
      invariant forall m :: m in toDelete <==> m in s[..k] && m.status == Lost
    {
      assert s[..k + 1] == s[..k] + [s[k]];
      if r[k].status == Lost {
        toDelete := toDelete + [r[k]];
      } else {
        r := r[k := r[k].(status := Available)];
      }
      k := k + 1;
    }
    assert s[..|s|] == s;
    CleanedByErasing(s, r, toDelete);
    r := EraseAll(r, toDelete);
  }

  lemma {:induction false} CleanedByErasing(s: seq<Node>, all: seq<Node>, toDelete: seq<Node>)
    requires Ordered(s) && |all| == |s| && forall m :: m in toDelete <==> m in s && m.status == Lost
    requires forall j {:trigger all[j]} :: 0 <= j < |s| ==>
      all[j] == if s[j].status != Lost then s[j].(status := Available) else s[j]
    ensures Ordered(all) && EraseAll(all, toDelete) == Cleaned(s)
  {
    assert Ordered(all);
    var r := EraseAll(all, toDelete);
    forall m | m in r ensures m in Cleaned(s) {
      var j :| 0 <= j < |s| && all[j] == m;
      DeletedUnderKey(s, toDelete, s[j]);
    }
    forall m | m in Cleaned(s) ensures m in r {
      var n :| n in s && n.status != Lost && m == n.(status := Available);
      var j :| 0 <= j < |s| && s[j] == n;
      assert all[j] == m;
      DeletedUnderKey(s, toDelete, n);
    }
    OrderedExtensional(r, Cleaned(s));
  }

  // ---------------------------------------------------------------------
  // mergePreferringNewer
  // ---------------------------------------------------------------------

  /** n is the record kept for its rank: the newest one, and among equally new ones the first. */
  predicate Newest(all: seq<Node>, n: Node)
  {
    forall m :: m in all && m.rank == n.rank && m != n ==> m.epoch < n.epoch || (m.epoch == n.epoch && Before(n, m))
  }

  function KeepNewest(s: seq<Node>, all: seq<Node>): (r: seq<Node>)
    ensures forall m :: m in r <==> m in s && Newest(all, m)
    ensures Ordered(s) ==> Ordered(r)
  {
    if s == [] then []
    else
      var r := KeepNewest(s[1..], all);
      assert s == [s[0]] + s[1..];
      if !Newest(all, s[0]) then r
      else
        assert Ordered(s) ==> Ordered([s[0]] + r) by {
          if Ordered(s) { OrderedCons(s[0], r); }
        }
        [s[0]] + r
  }

  function Merged(s: seq<Node>, t: seq<Node>): (r: seq<Node>)
    requires Ordered(s)
    ensures Ordered(r)
  {
    var u := InsertAll(s, t);
    KeepNewest(u, u)
  }

  /** Some record of each rank is the newest one, and it is at least as new as any given one. */
  lemma {:induction false} NewestExists(s: seq<Node>, n: Node) returns (best: Node)
    requires Ordered(s) && n in s
    ensures best in s && best.rank == n.rank && best.epoch >= n.epoch && Newest(s, best)
  {
    best := n;
    var k := 0;
    while k < |s|
      invariant 0 <= k <= |s|
      invariant best in s && best.rank == n.rank && best.epoch >= n.epoch
      invariant forall m :: m in s[..k] && m.rank == best.rank && m != best ==>
                  m.epoch < best.epoch || (m.epoch == best.epoch && Before(best, m))
    {
      var c := s[k];
      assert s[..k + 1] == s[..k] + [c];
      if c.rank == best.rank && c != best && (c.epoch > best.epoch || (c.epoch == best.epoch && !Before(best, c))) {
        var i :| 0 <= i < |s| && s[i] == best;
        assert i < k ==> Before(best, c);
        assert k < i ==> Before(c, best);
        best := c;
      }
      k := k + 1;
    }
    assert s[..|s|] == s;
  }

  /**
   mergePreferringNewer leaves exactly one record per rank, it is one of the given records, and
   it is the one with the maximal epoch.
   */
  lemma {:induction false} MergeKeepsNewest(s: seq<Node>, t: seq<Node>)
    requires Ordered(s)
    ensures forall a, b :: a in Merged(s, t) && b in Merged(s, t) && a.rank == b.rank ==> a == b
    ensures forall n :: n in Merged(s, t) ==> n in s || n in t
    ensures forall n :: n in s || n in t ==>
              exists m :: m in Merged(s, t) && m.rank == n.rank && m.epoch >= n.epoch
  {
    var u := InsertAll(s, t);
    forall a, b | a in Merged(s, t) && b in Merged(s, t) && a.rank == b.rank
      ensures a == b
    {
      assert Newest(u, a) && Newest(u, b);
    }
    forall n | n in s || n in t
      ensures exists m :: m in Merged(s, t) && m.rank == n.rank && m.epoch >= n.epoch
    {
      assert HasKey(u, n) by {
        if n in s { assert n in u && SameKey(n, n); }
      }
      var n' :| n' in u && SameKey(n', n);
      var best := NewestExists(u, n');
      assert best in Merged(s, t);
    }
  }

  /** The pass has seen these nodes: it knows the newest one of each rank and deletes the others. */
  ghost predicate Filtering(seen: seq<Node>, byRank: map<int, Node>, toDelete: seq<Node>)
  {
    && (forall rank :: rank in byRank ==>
          byRank[rank].rank == rank && byRank[rank] in seen && Newest(seen, byRank[rank]))
    && (forall m :: m in seen ==> m.rank in byRank)
    && (forall m :: m in toDelete <==> m in seen && m != byRank[m.rank])
  }

  /** A first node of its rank or one which is newer takes the place in the table. */
  lemma {:induction false} FilteringIn(seen: seq<Node>, byRank: map<int, Node>, toDelete: seq<Node>, node: Node)
    requires Filtering(seen, byRank, toDelete) && forall m :: m in seen ==> Before(m, node)
    requires node.rank in byRank ==> node.epoch > byRank[node.rank].epoch
    ensures Filtering(seen + [node], byRank[node.rank := node],
                      if node.rank in byRank then toDelete + [byRank[node.rank]] else toDelete)
  {
    var seen', byRank' := seen + [node], byRank[node.rank := node];
    var toDelete' := if node.rank in byRank then toDelete + [byRank[node.rank]] else toDelete;
    assert node !in seen;
    forall rank | rank in byRank'
      ensures byRank'[rank].rank == rank && byRank'[rank] in seen' && Newest(seen', byRank'[rank])
    {
      if rank != node.rank { assert Newest(seen, byRank[rank]); }
    }
    forall m ensures m in toDelete' <==> m in seen' && m != byRank'[m.rank] {
      assert m in toDelete <==> m in seen && m != byRank[m.rank];
    }
  }

  lemma {:induction false} FilteringOut(seen: seq<Node>, byRank: map<int, Node>, toDelete: seq<Node>, node: Node)
    requires Filtering(seen, byRank, toDelete) && forall m :: m in seen ==> Before(m, node)
    requires node.rank in byRank && node.epoch <= byRank[node.rank].epoch
    ensures Filtering(seen + [node], byRank, toDelete + [node])
  {
    var seen' := seen + [node];
    assert node !in seen;
    forall rank | rank in byRank ensures Newest(seen', byRank[rank]) {
      assert Newest(seen, byRank[rank]);
    }
  }

  lemma {:induction false} FilteredIsNewest(s: seq<Node>, byRank: map<int, Node>, toDelete: seq<Node>)
    requires Ordered(s) && Filtering(s, byRank, toDelete)
    ensures EraseAll(s, toDelete) == KeepNewest(s, s)
  {
    forall m ensures m in EraseAll(s, toDelete) <==> m in KeepNewest(s, s) {
      if m in s {
        if HasKey(toDelete, m) {
          var d :| d in toDelete && SameKey(d, m);
          KeysDistinct(s, d, m);
        }
        assert m in toDelete ==> SameKey(m, m);
        var best := byRank[m.rank];
        assert Newest(s, best) && (Newest(s, m) ==> m == best);
      }
    }
    OrderedExtensional(EraseAll(s, toDelete), KeepNewest(s, s));
  }

  /** filterDuplicates: one pass that remembers the best node per rank and what to delete. */
  method FilterDuplicates(s: seq<Node>) returns (r: seq<Node>)
    requires Ordered(s)
    ensures r == KeepNewest(s, s)
  {
    var toDelete: seq<Node> := [];
    var byRank: map<int, Node> := map[];
    var k := 0;
    while k < |s|
      invariant 0 <= k <= |s|
      invariant Filtering(s[..k], byRank, toDelete)
    {
      var node := s[k];
      assert s[..k + 1] == s[..k] + [node];
      if node.rank in byRank {
        var other := byRank[node.rank];
        if node.epoch > other.epoch {
          FilteringIn(s[..k], byRank, toDelete, node);
          toDelete := toDelete + [other];
          byRank := byRank[node.rank := node];
        } else {
          FilteringOut(s[..k], byRank, toDelete, node);
          toDelete := toDelete + [node];
        }
      } else {
        FilteringIn(s[..k], byRank, toDelete, node);
        byRank := byRank[node.rank := node];
      }
      k := k + 1;
    }
    assert s[..|s|] == s;
    FilteredIsNewest(s, byRank, toDelete);
    r := EraseAll(s, toDelete);
  }

  method MergePreferringNewer(s: seq<Node>, t: seq<Node>) returns (r: seq<Node>)
    requires Ordered(s)
    ensures r == Merged(s, t)
  {
    var u := InsertAll(s, t);
    r := FilterDuplicates(u);
  }
}
