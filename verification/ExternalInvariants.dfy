/** What the operations keep: every block of the file is free or belongs to one address. */
module ExternalInvariants {
  import opened ExternalBlocks

  const FREE := -1

  ghost predicate ListGood(bs: nat, m: nat, disk: Bytes, k: nat, owner: seq<int>, a: int, l: seq<Block>)
  {
    && |owner| == k && ListOk(bs, m, disk, k, l)
    && (forall i {:trigger l[i]} :: 0 <= i < |l| ==> owner[l[i].address] == a)
    && (forall i, j {:trigger l[i], l[j]} :: 0 <= i < j < |l| ==> l[i].address != l[j].address)
  }

  ghost predicate FreeGood(k: nat, owner: seq<int>, free: seq<nat>)
  {
    && |owner| == k && (forall i {:trigger free[i]} :: 0 <= i < |free| ==> free[i] < k && owner[free[i]] == FREE)
    && (forall i, j {:trigger free[i], free[j]} :: 0 <= i < j < |free| ==> free[i] != free[j])
  }

  ghost predicate HasAddress(l: seq<Block>, x: nat)
  {
    exists i {:trigger l[i]} :: 0 <= i < |l| && l[i].address == x
  }

  ghost predicate Located(blocks: seq<seq<Block>>, free: seq<nat>, owner: int, x: nat)
  {
    if owner == FREE then x in free else 0 <= owner < |blocks| && HasAddress(blocks[owner], x)
  }

  ghost predicate Good(bs: nat, m: nat, s: Memory, owner: seq<int>)
  {
    && |s.disk| == Pos(bs, s.numBlocks) && |owner| == s.numBlocks
    && (forall a {:trigger s.blocks[a]} :: 0 <= a < |s.blocks| ==>
      ListGood(bs, m, s.disk, s.numBlocks, owner, a, s.blocks[a]))
    && FreeGood(s.numBlocks, owner, s.free)
    && (forall x {:trigger owner[x]} :: 0 <= x < s.numBlocks ==> Located(s.blocks, s.free, owner[x], x))
  }

  /** The objects at an address. */
  ghost function ObjectsAt(bs: nat, m: nat, s: Memory, owner: seq<int>, a: nat): seq<Bytes>
    requires Good(bs, m, s, owner)
  {
    if a < |s.blocks| then Objects(bs, m, s.disk, s.numBlocks, s.blocks[a]) else []
  }

  // ---------------------------------------------------------------------
  // The file grows
  // ---------------------------------------------------------------------

  function Grown(bs: nat, s: Memory): Memory
  {
    s.(disk := s.disk + Zeros(bs), numBlocks := s.numBlocks + 1, free := s.free + [s.numBlocks])
  }

  lemma {:induction false} GrownList(bs: nat, m: nat, s: Memory, owner: seq<int>, a: int, l: seq<Block>)
    requires a != FREE && ListGood(bs, m, s.disk, s.numBlocks, owner, a, l)
    ensures var s' := Grown(bs, s); ListGood(bs, m, s'.disk, s'.numBlocks, owner + [FREE], a, l)
    ensures var s' := Grown(bs, s); Objects(bs, m, s'.disk, s'.numBlocks, l) == Objects(bs, m, s.disk, s.numBlocks, l)
  {
    var s' := Grown(bs, s);
    PosOrder(bs, s.numBlocks, s'.numBlocks);
    forall i | 0 <= i < |l| ensures BlockOk(bs, m, s'.disk, s'.numBlocks, l[i]) && Same(bs, s.disk, s'.disk, l[i]) {
      BlockFits(bs, m, s.disk, s.numBlocks, l[i]);
    }
    ObjectsFrame(bs, m, s.disk, s.numBlocks, s'.disk, s'.numBlocks, l);
  }

  lemma {:induction false} GrownGood(bs: nat, m: nat, s: Memory, owner: seq<int>)
    requires Good(bs, m, s, owner)
    ensures Good(bs, m, Grown(bs, s), owner + [FREE])
    ensures forall a: nat :: ObjectsAt(bs, m, Grown(bs, s), owner + [FREE], a) == ObjectsAt(bs, m, s, owner, a)
  {
    var s', owner' := Grown(bs, s), owner + [FREE];
    PosOrder(bs, s.numBlocks, s'.numBlocks);
    forall a | 0 <= a < |s.blocks|
      ensures ListGood(bs, m, s'.disk, s'.numBlocks, owner', a, s'.blocks[a])
      ensures Objects(bs, m, s'.disk, s'.numBlocks, s.blocks[a]) == Objects(bs, m, s.disk, s.numBlocks, s.blocks[a])
    {
      GrownList(bs, m, s, owner, a, s.blocks[a]);
    }
    forall x | 0 <= x < s'.numBlocks ensures Located(s'.blocks, s'.free, owner'[x], x) {
      if x < s.numBlocks { assert Located(s.blocks, s.free, owner[x], x); }
    }
  }

  // ---------------------------------------------------------------------
  // A fresh block comes last in a list
  // ---------------------------------------------------------------------

  function Fresh(s: Memory, a: nat): Memory
    requires s.free != [] && a < |s.blocks|
  {
    var n := |s.free| - 1;
    s.(free := s.free[..n], blocks := s.blocks[a := s.blocks[a] + [Block(s.free[n], 0, [])]])
  }

  lemma {:induction false} FreshObjects(bs: nat, m: nat, disk: Bytes, k: nat, l: seq<Block>, x: nat)
    requires ListOk(bs, m, disk, k, l) && x < k
    ensures var l' := l + [Block(x, 0, [])];
      ListOk(bs, m, disk, k, l') && Objects(bs, m, disk, k, l') == Objects(bs, m, disk, k, l)
  {
    var b := Block(x, 0, []);
    PosOrder(bs, x, k);
    LastObjects(bs, m, disk, k, l, b);
    assert Chunks(BlockBytes(bs, disk, b), m) == [];
  }

  /** The free block comes into the list of a. */
  lemma {:induction false} FreshList(bs: nat, m: nat, disk: Bytes, k: nat, owner: seq<int>, a: int, b: int,
      l: seq<Block>, x: nat)
    requires ListGood(bs, m, disk, k, owner, b, l) && x < k && owner[x] == FREE && a != FREE && b != FREE
    ensures ListGood(bs, m, disk, k, owner[x := a], b, if b == a then l + [Block(x, 0, [])] else l)
  {
    FreshOk(bs, m, disk, k, x);
    assert forall i {:trigger l[i]} :: 0 <= i < |l| ==> l[i].address != x;
  }

  lemma {:induction false} FreshOk(bs: nat, m: nat, disk: Bytes, k: nat, x: nat)
    requires |disk| == Pos(bs, k) && x < k
    ensures BlockOk(bs, m, disk, k, Block(x, 0, []))
  {
  }

  lemma {:induction false} FreshGood(bs: nat, m: nat, s: Memory, owner: seq<int>, a: nat)
    requires Good(bs, m, s, owner) && s.free != [] && a < |s.blocks|
    ensures s.free[|s.free| - 1] < |owner|
    ensures Good(bs, m, Fresh(s, a), owner[s.free[|s.free| - 1] := a])
    ensures forall b: nat ::
      ObjectsAt(bs, m, Fresh(s, a), owner[s.free[|s.free| - 1] := a], b) == ObjectsAt(bs, m, s, owner, b)
  {
    var n := |s.free| - 1;
    var x, s' := s.free[n], Fresh(s, a);
    var owner' := owner[x := a];
    assert owner[x] == FREE;
    forall b | 0 <= b < |s.blocks| ensures ListGood(bs, m, s'.disk, s'.numBlocks, owner', b, s'.blocks[b]) {
      assert ListGood(bs, m, s.disk, s.numBlocks, owner, b, s.blocks[b]);
      FreshList(bs, m, s.disk, s.numBlocks, owner, a, b, s.blocks[b], x);
    }
    FreshObjects(bs, m, s.disk, s.numBlocks, s.blocks[a], x);
    forall y | 0 <= y < s'.numBlocks ensures Located(s'.blocks, s'.free, owner'[y], y) {
      assert Located(s.blocks, s.free, owner[y], y);
      FreshLocated(s, a, owner[y], owner'[y], y);
    }
  }

  lemma {:induction false} FreshLocated(s: Memory, a: nat, o: int, o': int, y: nat)
    requires s.free != [] && a < |s.blocks| && Located(s.blocks, s.free, o, y)
    requires o' == if y == s.free[|s.free| - 1] then a else o
    ensures var s' := Fresh(s, a); Located(s'.blocks, s'.free, o', y)
  {
    var n, l := |s.free| - 1, s.blocks[a];
    var s' := Fresh(s, a);
    if y == s.free[n] {
      assert s'.blocks[a][|l|].address == y;
    } else if o == FREE {
      var i :| 0 <= i < |s.free| && s.free[i] == y;
      assert s'.free[i] == y;
    } else {
      var i :| 0 <= i < |s.blocks[o]| && s.blocks[o][i].address == y;
      assert s'.blocks[o][i] == s.blocks[o][i];
    }
  }

  // ---------------------------------------------------------------------
  // The last block of a list changes
  // ---------------------------------------------------------------------

  ghost function Replaced(s: Memory, a: nat, b: Block, disk: Bytes): Memory
    requires a < |s.blocks| && s.blocks[a] != []
  {
    var n := |s.blocks[a]| - 1;
    s.(disk := disk, blocks := s.blocks[a := s.blocks[a][..n] + [b]])
  }

  /** Only the given block of the file may be different. */
  ghost predicate OnlyAt(bs: nat, m: nat, s: Memory, x: nat, disk: Bytes)
  {
    |disk| == |s.disk| && forall b {:trigger Same(bs, s.disk, disk, b)} ::
      BlockOk(bs, m, s.disk, s.numBlocks, b) && b.address != x ==> Same(bs, s.disk, disk, b)
  }

  /** A list without the block is as before. */
  lemma {:induction false} UntouchedList(bs: nat, m: nat, s: Memory, x: nat, disk: Bytes, l: seq<Block>)
    requires ListOk(bs, m, s.disk, s.numBlocks, l) && OnlyAt(bs, m, s, x, disk)
    requires forall i {:trigger l[i]} :: 0 <= i < |l| ==> l[i].address != x
    ensures ListOk(bs, m, disk, s.numBlocks, l)
    ensures Objects(bs, m, disk, s.numBlocks, l) == Objects(bs, m, s.disk, s.numBlocks, l)
  {
    forall i | 0 <= i < |l| ensures BlockOk(bs, m, disk, s.numBlocks, l[i]) && Same(bs, s.disk, disk, l[i]) {
      assert Same(bs, s.disk, disk, l[i]);
    }
    ObjectsFrame(bs, m, s.disk, s.numBlocks, disk, s.numBlocks, l);
  }

  lemma {:induction false} ReplacedList(bs: nat, m: nat, s: Memory, owner: seq<int>, a: int, l: seq<Block>, b: Block,
      disk: Bytes)
    requires l != [] && ListGood(bs, m, s.disk, s.numBlocks, owner, a, l) && b.address == l[|l| - 1].address
    requires OnlyAt(bs, m, s, b.address, disk) && BlockOk(bs, m, disk, s.numBlocks, b)
    ensures var l' := l[..|l| - 1] + [b]; ListGood(bs, m, disk, s.numBlocks, owner, a, l')
    ensures ListOk(bs, m, s.disk, s.numBlocks, l[..|l| - 1])
    ensures |BlockBytes(bs, disk, b)| == b.size
    ensures Objects(bs, m, disk, s.numBlocks, l[..|l| - 1] + [b]) ==
            Objects(bs, m, s.disk, s.numBlocks, l[..|l| - 1]) + Chunks(BlockBytes(bs, disk, b), m)
  {
    var n := |l| - 1;
    UntouchedList(bs, m, s, b.address, disk, l[..n]);
    BlockFits(bs, m, disk, s.numBlocks, b);
    LastObjects(bs, m, disk, s.numBlocks, l[..n], b);
  }

  lemma {:induction false} ReplacedLocated(s: Memory, a: nat, b: Block, disk: Bytes, o: int, y: nat)
    requires a < |s.blocks| && s.blocks[a] != [] && b.address == s.blocks[a][|s.blocks[a]| - 1].address
    requires Located(s.blocks, s.free, o, y)
    ensures var s' := Replaced(s, a, b, disk); Located(s'.blocks, s'.free, o, y)
  {
    var s' := Replaced(s, a, b, disk);
    if o != FREE {
      var i :| 0 <= i < |s.blocks[o]| && s.blocks[o][i].address == y;
      assert s'.blocks[o][i].address == y;
    }
  }

  lemma {:induction false} OtherOwner(bs: nat, m: nat, s: Memory, owner: seq<int>, a: nat, b: nat, x: nat)
    requires Good(bs, m, s, owner) && a < |s.blocks| && b < |s.blocks| && a != b && x < |owner| && owner[x] == a
    ensures forall i {:trigger s.blocks[b][i]} :: 0 <= i < |s.blocks[b]| ==> s.blocks[b][i].address != x
  {
    assert ListGood(bs, m, s.disk, s.numBlocks, owner, b, s.blocks[b]);
  }

  lemma {:induction false} ReplacedGood(bs: nat, m: nat, s: Memory, owner: seq<int>, a: nat, b: Block, disk: Bytes)
    requires Good(bs, m, s, owner) && a < |s.blocks| && s.blocks[a] != []
    requires b.address == s.blocks[a][|s.blocks[a]| - 1].address
    requires OnlyAt(bs, m, s, b.address, disk) && BlockOk(bs, m, disk, s.numBlocks, b)
    ensures Good(bs, m, Replaced(s, a, b, disk), owner)
    ensures forall c: nat :: c != a ==>
      ObjectsAt(bs, m, Replaced(s, a, b, disk), owner, c) == ObjectsAt(bs, m, s, owner, c)
  {
    var s', x := Replaced(s, a, b, disk), b.address;
    assert ListGood(bs, m, s.disk, s.numBlocks, owner, a, s.blocks[a]);
    ReplacedList(bs, m, s, owner, a, s.blocks[a], b, disk);
    forall c | 0 <= c < |s.blocks| && c != a
      ensures ListGood(bs, m, s'.disk, s'.numBlocks, owner, c, s'.blocks[c])
      ensures Objects(bs, m, disk, s.numBlocks, s.blocks[c]) == Objects(bs, m, s.disk, s.numBlocks, s.blocks[c])
    {
      assert ListGood(bs, m, s.disk, s.numBlocks, owner, c, s.blocks[c]);
      OtherOwner(bs, m, s, owner, a, c, x);
      UntouchedList(bs, m, s, x, disk, s.blocks[c]);
    }
    forall y | 0 <= y < s'.numBlocks ensures Located(s'.blocks, s'.free, owner[y], y) {
      ReplacedLocated(s, a, b, disk, owner[y], y);
    }
  }

  /** The objects of the list, with those of its last block apart. */
  lemma {:induction false} LastApart(bs: nat, m: nat, s: Memory, l: seq<Block>)
    requires ListOk(bs, m, s.disk, s.numBlocks, l) && l != []
    ensures var n := |l| - 1;
      && ListOk(bs, m, s.disk, s.numBlocks, l[..n]) && |BlockBytes(bs, s.disk, l[n])| == l[n].size
      && Objects(bs, m, s.disk, s.numBlocks, l) ==
        Objects(bs, m, s.disk, s.numBlocks, l[..n]) + Chunks(BlockBytes(bs, s.disk, l[n]), m)
  {
    var n := |l| - 1;
    assert l == l[..n] + [l[n]];
    BlockFits(bs, m, s.disk, s.numBlocks, l[n]);
    LastObjects(bs, m, s.disk, s.numBlocks, l[..n], l[n]);
  }

  /** The new block holds some more whole objects. */
  lemma {:induction false} ReplacedObjects(bs: nat, m: nat, s: Memory, owner: seq<int>, a: int, l: seq<Block>,
      b: Block, disk: Bytes, extra: Bytes)
    requires l != [] && ListGood(bs, m, s.disk, s.numBlocks, owner, a, l) && b.address == l[|l| - 1].address
    requires OnlyAt(bs, m, s, b.address, disk) && BlockOk(bs, m, disk, s.numBlocks, b) && Whole(|extra|, m)
    requires b.buffer == [] ==> Pos(bs, b.address) + b.size <= |disk|
    requires l[|l| - 1].buffer == [] ==> Pos(bs, b.address) + l[|l| - 1].size <= |s.disk|
    requires BlockBytes(bs, disk, b) == BlockBytes(bs, s.disk, l[|l| - 1]) + extra
    ensures ListOk(bs, m, disk, s.numBlocks, l[..|l| - 1] + [b])
    ensures Objects(bs, m, disk, s.numBlocks, l[..|l| - 1] + [b]) ==
      Objects(bs, m, s.disk, s.numBlocks, l) + Chunks(extra, m)
  {
    ReplacedList(bs, m, s, owner, a, l, b, disk);
    LastApart(bs, m, s, l);
    MoreChunks(Objects(bs, m, s.disk, s.numBlocks, l[..|l| - 1]), BlockBytes(bs, s.disk, l[|l| - 1]), extra, m);
  }

  lemma {:induction false} MoreChunks(objs: seq<Bytes>, b: Bytes, extra: Bytes, m: nat)
    requires Whole(|b|, m) && Whole(|extra|, m)
    ensures Whole(|b + extra|, m) && objs + Chunks(b + extra, m) == objs + Chunks(b, m) + Chunks(extra, m)
  {
    ChunksConcat(b, extra, m);
  }

  lemma {:induction false} ReplacedAll(bs: nat, m: nat, s: Memory, owner: seq<int>, a: nat, b: Block, disk: Bytes,
      extra: Bytes, s': Memory)
    requires Good(bs, m, s, owner) && a < |s.blocks| && s.blocks[a] != [] && s' == Replaced(s, a, b, disk)
    requires b.address == s.blocks[a][|s.blocks[a]| - 1].address
    requires OnlyAt(bs, m, s, b.address, disk) && BlockOk(bs, m, disk, s.numBlocks, b) && Whole(|extra|, m)
    requires b.buffer == [] ==> Pos(bs, b.address) + b.size <= |disk|
    requires var l := s.blocks[a][|s.blocks[a]| - 1];
      && (l.buffer == [] ==> Pos(bs, b.address) + l.size <= |s.disk|)
      && BlockBytes(bs, disk, b) == BlockBytes(bs, s.disk, l) + extra
    ensures Good(bs, m, s', owner)
    ensures forall c: nat :: c != a ==> ObjectsAt(bs, m, s', owner, c) == ObjectsAt(bs, m, s, owner, c)
    ensures ObjectsAt(bs, m, s', owner, a) == ObjectsAt(bs, m, s, owner, a) + Chunks(extra, m)
  {
    assert ListGood(bs, m, s.disk, s.numBlocks, owner, a, s.blocks[a]);
    ReplacedGood(bs, m, s, owner, a, b, disk);
    ReplacedObjects(bs, m, s, owner, a, s.blocks[a], b, disk, extra);
  }

  /** The last block is written to disk. */
  lemma {:induction false} SyncedDisk(bs: nat, m: nat, s: Memory, b: Block)
    requires BlockOk(bs, m, s.disk, s.numBlocks, b) && |s.disk| == Pos(bs, s.numBlocks) && |b.buffer| == b.size <= bs
    ensures Pos(bs, b.address) + bs <= |s.disk|
    ensures var disk := Written(s.disk, Pos(bs, b.address), b.buffer + Zeros(bs - |b.buffer|));
      && OnlyAt(bs, m, s, b.address, disk) && BlockOk(bs, m, disk, s.numBlocks, b.(buffer := []))
      && BlockBytes(bs, disk, b.(buffer := [])) == BlockBytes(bs, s.disk, b) + []
  {
    var data := b.buffer + Zeros(bs - |b.buffer|);
    WrittenHere(bs, s.numBlocks, s.disk, b.address, b.buffer);
    var disk := Written(s.disk, Pos(bs, b.address), data);
    forall c | BlockOk(bs, m, s.disk, s.numBlocks, c) && c.address != b.address ensures Same(bs, s.disk, disk, c) {
      WrittenElsewhere(bs, s.numBlocks, s.disk, b.address, data, c);
    }
  }

  lemma {:induction false} SyncedGood(bs: nat, m: nat, s: Memory, owner: seq<int>, a: nat, b: Block, disk: Bytes)
    requires Good(bs, m, s, owner) && a < |s.blocks| && s.blocks[a] != []
    requires b == s.blocks[a][|s.blocks[a]| - 1] && |b.buffer| == b.size <= bs
    requires Pos(bs, b.address) + bs <= |s.disk| &&
      disk == Written(s.disk, Pos(bs, b.address), b.buffer + Zeros(bs - |b.buffer|))
    ensures Good(bs, m, Replaced(s, a, b.(buffer := []), disk), owner)
    ensures forall c: nat ::
      ObjectsAt(bs, m, Replaced(s, a, b.(buffer := []), disk), owner, c) == ObjectsAt(bs, m, s, owner, c)
  {
    assert ListGood(bs, m, s.disk, s.numBlocks, owner, a, s.blocks[a]);
    SyncedDisk(bs, m, s, b);
    ReplacedAll(bs, m, s, owner, a, b.(buffer := []), disk, [], Replaced(s, a, b.(buffer := []), disk));
  }

  /** An object comes last in the last block. */
  ghost function Appended(s: Memory, a: nat, obj: Bytes): Memory
    requires a < |s.blocks| && s.blocks[a] != []
  {
    var b := s.blocks[a][|s.blocks[a]| - 1];
    Replaced(s, a, Block(b.address, b.size + |obj|, b.buffer + obj), s.disk)
  }

  lemma {:induction false} AppendedGood(bs: nat, m: nat, s: Memory, owner: seq<int>, a: nat, obj: Bytes, s': Memory)
    requires Good(bs, m, s, owner) && a < |s.blocks| && s.blocks[a] != [] && |obj| == m > 0
    requires var b := s.blocks[a][|s.blocks[a]| - 1]; |b.buffer| == b.size
    requires s' == Appended(s, a, obj)
    ensures Good(bs, m, s', owner)
    ensures forall c: nat :: c != a ==> ObjectsAt(bs, m, s', owner, c) == ObjectsAt(bs, m, s, owner, c)
    ensures ObjectsAt(bs, m, s', owner, a) == ObjectsAt(bs, m, s, owner, a) + [obj]
  {
    var b := s.blocks[a][|s.blocks[a]| - 1];
    assert ListGood(bs, m, s.disk, s.numBlocks, owner, a, s.blocks[a]);
    AppendedOk(bs, m, s, b, obj);
    ReplacedAll(bs, m, s, owner, a, Block(b.address, b.size + |obj|, b.buffer + obj), s.disk, obj, s');
  }

  lemma {:induction false} AppendedOk(bs: nat, m: nat, s: Memory, b: Block, obj: Bytes)
    requires |s.disk| == Pos(bs, s.numBlocks) && BlockOk(bs, m, s.disk, s.numBlocks, b) && |b.buffer| == b.size &&
      |obj| == m > 0
    ensures Whole(|obj|, m) && Chunks(obj, m) == [obj]
    ensures b.buffer == [] ==> Pos(bs, b.address) + b.size <= |s.disk|
    ensures var b' := Block(b.address, b.size + |obj|, b.buffer + obj);
      && OnlyAt(bs, m, s, b.address, s.disk) && BlockOk(bs, m, s.disk, s.numBlocks, b')
      && BlockBytes(bs, s.disk, b') == BlockBytes(bs, s.disk, b) + obj
  {
    ChunkOfOne(obj, m);
    WholeSum(b.size, m, m);
    BlockFits(bs, m, s.disk, s.numBlocks, b);
    forall c | BlockOk(bs, m, s.disk, s.numBlocks, c) ensures Same(bs, s.disk, s.disk, c) {
      BlockFits(bs, m, s.disk, s.numBlocks, c);
    }
  }

  // ---------------------------------------------------------------------
  // The first block of a list becomes free; new addresses
  // ---------------------------------------------------------------------

  function Popped(s: Memory, a: nat): Memory
    requires a < |s.blocks| && s.blocks[a] != []
  {
    s.(blocks := s.blocks[a := s.blocks[a][1..]], free := s.free + [s.blocks[a][0].address])
  }

  lemma {:induction false} PoppedLocated(s: Memory, a: nat, o: int, o': int, y: nat)
    requires a < |s.blocks| && s.blocks[a] != [] && Located(s.blocks, s.free, o, y)
    requires o' == if y == s.blocks[a][0].address then FREE else o
    ensures var s' := Popped(s, a); Located(s'.blocks, s'.free, o', y)
  {
    var s' := Popped(s, a);
    if y == s.blocks[a][0].address {
      assert s'.free[|s.free|] == y;
    } else if o != FREE {
      var i :| 0 <= i < |s.blocks[o]| && s.blocks[o][i].address == y;
      if o == a {
        var i' := i - 1;
        assert s'.blocks[a][i'].address == y;
      } else {
        assert s'.blocks[o][i].address == y;
      }
    } else {
      var i :| 0 <= i < |s.free| && s.free[i] == y;
      assert s'.free[i] == y;
    }
  }

  lemma {:induction false} PoppedGood(bs: nat, m: nat, s: Memory, owner: seq<int>, a: nat)
    requires Good(bs, m, s, owner) && a < |s.blocks| && s.blocks[a] != []
    ensures s.blocks[a][0].address < |owner|
    ensures Good(bs, m, Popped(s, a), owner[s.blocks[a][0].address := FREE])
    ensures forall c: nat :: c != a ==>
      ObjectsAt(bs, m, Popped(s, a), owner[s.blocks[a][0].address := FREE], c) == ObjectsAt(bs, m, s, owner, c)
  {
    var l, s' := s.blocks[a], Popped(s, a);
    assert ListGood(bs, m, s.disk, s.numBlocks, owner, a, l);
    var x := l[0].address;
    var owner' := owner[x := FREE];
    forall c | 0 <= c < |s.blocks| ensures ListGood(bs, m, s'.disk, s'.numBlocks, owner', c, s'.blocks[c]) {
      assert ListGood(bs, m, s.disk, s.numBlocks, owner, c, s.blocks[c]);
      if c != a { OtherOwner(bs, m, s, owner, a, c, x); }
    }
    assert forall i {:trigger s.free[i]} :: 0 <= i < |s.free| ==> s.free[i] != x;
    forall y | 0 <= y < s'.numBlocks ensures Located(s'.blocks, s'.free, owner'[y], y) {
      PoppedLocated(s, a, owner[y], owner'[y], y);
    }
  }

  function Resized(s: Memory, n: nat): Memory
    requires n >= |s.blocks|
  {
    s.(blocks := s.blocks + seq(n - |s.blocks|, _ => []))
  }

  lemma {:induction false} ResizedGood(bs: nat, m: nat, s: Memory, owner: seq<int>, n: nat)
    requires Good(bs, m, s, owner) && n >= |s.blocks|
    ensures Good(bs, m, Resized(s, n), owner)
    ensures forall c: nat :: ObjectsAt(bs, m, Resized(s, n), owner, c) == ObjectsAt(bs, m, s, owner, c)
  {
    var s' := Resized(s, n);
    forall c | 0 <= c < n ensures ListGood(bs, m, s'.disk, s'.numBlocks, owner, c, s'.blocks[c]) {
      if c < |s.blocks| { assert ListGood(bs, m, s.disk, s.numBlocks, owner, c, s.blocks[c]); }
    }
    forall y | 0 <= y < s'.numBlocks ensures Located(s'.blocks, s'.free, owner[y], y) {
      assert Located(s.blocks, s.free, owner[y], y);
      if owner[y] != FREE { assert s'.blocks[owner[y]] == s.blocks[owner[y]]; }
    }
  }
}
