/** The object with its file. */
module ExternalMemories {
  import opened ExternalBlocks
  import opened ExternalInvariants

  /** Sizes are computed as unsigned 64-bit numbers, and block sizes kept as signed 32-bit numbers. */
  const WORD: nat := 0x1_0000_0000_0000_0000

  const INT_LIMIT: nat := 0x8000_0000

  /** There is no room for another object. */
  predicate IsFull(bs: nat, m: nat, size: nat)
  {
    (bs - size) % WORD < m
  }

  lemma {:induction false} FullMeansFull(bs: nat, m: nat, size: nat)
    requires size < INT_LIMIT && m < INT_LIMIT && bs < INT_LIMIT
    ensures IsFull(bs, m, size) <==> size <= bs < size + m
  {
  }

  ghost predicate Buffered(bs: nat, m: nat, l: seq<Block>)
  {
    (l != [] ==> |l[|l| - 1].buffer| == l[|l| - 1].size) && SizesFit(bs, m, l)
  }

  ghost predicate SizesFit(bs: nat, m: nat, l: seq<Block>)
  {
    forall i {:trigger l[i]} :: 0 <= i < |l| ==> l[i].size < INT_LIMIT && (m <= bs ==> l[i].size <= bs)
  }

  /** The last block at the given address may have been written to disk. */
  ghost predicate AlmostBuffered(bs: nat, m: nat, blocks: seq<seq<Block>>, b: nat)
  {
    && b < |blocks| && SizesFit(bs, m, blocks[b])
    && forall a {:trigger blocks[a]} :: 0 <= a < |blocks| && a != b ==> Buffered(bs, m, blocks[a])
  }

  ghost predicate AllBuffered(bs: nat, m: nat, blocks: seq<seq<Block>>)
  {
    forall a {:trigger blocks[a]} :: 0 <= a < |blocks| ==> Buffered(bs, m, blocks[a])
  }

  // ---------------------------------------------------------------------
  // The contents which are represented
  // ---------------------------------------------------------------------

  ghost predicate Represents(bs: nat, m: nat, s: Memory, owner: seq<int>, contents: seq<seq<Bytes>>)
  {
    && Good(bs, m, s, owner) && |contents| == |s.blocks|
    && forall a {:trigger contents[a]} :: 0 <= a < |contents| ==> contents[a] == ObjectsAt(bs, m, s, owner, a)
  }

  function WithFree(bs: nat, s: Memory): Memory
  {
    if s.free == [] then Grown(bs, s) else s
  }

  lemma {:induction false} FreshBlock(bs: nat, m: nat, s: Memory, owner: seq<int>, contents: seq<seq<Bytes>>, a: nat)
    returns (owner': seq<int>)
    requires Represents(bs, m, s, owner, contents) && a < |s.blocks|
    ensures Represents(bs, m, Fresh(WithFree(bs, s), a), owner', contents)
  {
    var s1, o1 := s, owner;
    if s.free == [] {
      GrownGood(bs, m, s, owner);
      s1, o1 := Grown(bs, s), owner + [FREE];
    }
    FreshGood(bs, m, s1, o1, a);
    owner' := o1[s1.free[|s1.free| - 1] := a];
  }

  lemma {:induction false} SyncedBlock(bs: nat, m: nat, s: Memory, owner: seq<int>, contents: seq<seq<Bytes>>, a: nat,
      b: Block, disk: Bytes)
    requires Represents(bs, m, s, owner, contents) && a < |s.blocks| && s.blocks[a] != []
    requires b == s.blocks[a][|s.blocks[a]| - 1] && |b.buffer| == b.size <= bs
    requires Pos(bs, b.address) + bs <= |s.disk| &&
      disk == Written(s.disk, Pos(bs, b.address), b.buffer + Zeros(bs - |b.buffer|))
    ensures Represents(bs, m, Replaced(s, a, b.(buffer := []), disk), owner, contents)
  {
    SyncedGood(bs, m, s, owner, a, b, disk);
  }

  lemma {:induction false} AppendedBlock(bs: nat, m: nat, s: Memory, owner: seq<int>, contents: seq<seq<Bytes>>,
      a: nat, obj: Bytes)
    requires Represents(bs, m, s, owner, contents) && a < |s.blocks| && s.blocks[a] != [] && |obj| == m > 0
    requires var b := s.blocks[a][|s.blocks[a]| - 1]; |b.buffer| == b.size
    ensures Represents(bs, m, Appended(s, a, obj), owner, contents[a := contents[a] + [obj]])
  {
    AppendedGood(bs, m, s, owner, a, obj, Appended(s, a, obj));
  }

  /** The objects of the first block are the first ones at the address. */
  lemma {:induction false} PoppedBlock(bs: nat, m: nat, s: Memory, owner: seq<int>, contents: seq<seq<Bytes>>, a: nat)
    returns (owner': seq<int>, rest: seq<Bytes>)
    requires Represents(bs, m, s, owner, contents) && a < |s.blocks| && s.blocks[a] != []
    ensures Represents(bs, m, Popped(s, a), owner', contents[a := rest])
    ensures var b := s.blocks[a][0];
      && (b.buffer == [] ==> Pos(bs, b.address) + b.size <= |s.disk|)
      && Whole(|BlockBytes(bs, s.disk, b)|, m) && contents[a] == Chunks(BlockBytes(bs, s.disk, b), m) + rest
  {
    var l := s.blocks[a];
    assert ListGood(bs, m, s.disk, s.numBlocks, owner, a, l);
    FirstObjects(bs, m, s.disk, s.numBlocks, l);
    PoppedGood(bs, m, s, owner, a);
    owner' := owner[l[0].address := FREE];
    rest := ObjectsAt(bs, m, Popped(s, a), owner', a);
  }

  lemma {:induction false} ResizedBlocks(bs: nat, m: nat, s: Memory, owner: seq<int>, contents: seq<seq<Bytes>>, n: nat)
    requires Represents(bs, m, s, owner, contents) && n >= |s.blocks|
    ensures Represents(bs, m, Resized(s, n), owner, contents + seq(n - |s.blocks|, _ => []))
  {
    ResizedGood(bs, m, s, owner, n);
    var contents' := contents + seq(n - |s.blocks|, _ => []);
    forall a | 0 <= a < n ensures contents'[a] == ObjectsAt(bs, m, Resized(s, n), owner, a) {
      assert ObjectsAt(bs, m, Resized(s, n), owner, a) == ObjectsAt(bs, m, s, owner, a);
    }
  }

  lemma {:induction false} NoBlocks(bs: nat, m: nat, s: Memory, owner: seq<int>, contents: seq<seq<Bytes>>, a: nat)
    requires Represents(bs, m, s, owner, contents) && a < |s.blocks| && s.blocks[a] == []
    ensures contents[a] == []
  {
  }

  // ---------------------------------------------------------------------
  // The number of objects
  // ---------------------------------------------------------------------

  function Count(contents: seq<seq<Bytes>>): nat
  {
    if contents == [] then 0 else Count(contents[..|contents| - 1]) + |contents[|contents| - 1]|
  }

  lemma {:induction false} CountUpdate(contents: seq<seq<Bytes>>, a: nat, objs: seq<Bytes>)
    requires a < |contents|
    ensures Count(contents[a := objs]) == Count(contents) - |contents[a]| + |objs|
  {
    var n := |contents| - 1;
    var contents' := contents[a := objs];
    if a < n {
      assert contents'[..n] == contents[..n][a := objs];
      CountUpdate(contents[..n], a, objs);
    } else {
      assert contents'[..n] == contents[..n];
    }
  }

  /** Only addresses without objects come in. */
  ghost predicate Extends(contents: seq<seq<Bytes>>, contents': seq<seq<Bytes>>)
  {
    && |contents| <= |contents'|
    && forall i {:trigger contents'[i]} :: 0 <= i < |contents'| ==>
      contents'[i] == if i < |contents| then contents[i] else []
  }

  lemma {:induction false} CountResized(contents: seq<seq<Bytes>>, contents': seq<seq<Bytes>>)
    requires Extends(contents, contents')
    ensures Count(contents') == Count(contents)
    decreases |contents'|
  {
    if |contents'| == |contents| {
      assert contents' == contents;
    } else {
      CountResized(contents, contents'[..|contents'| - 1]);
    }
  }

  /** One object comes last at one address. */
  ghost predicate Added(contents: seq<seq<Bytes>>, contents': seq<seq<Bytes>>, a: nat, obj: Bytes)
  {
    exists c :: Extends(contents, c) && a < |c| && contents' == c[a := c[a] + [obj]]
  }

  ghost function ContentsOf(contents: seq<seq<Bytes>>, a: nat): seq<Bytes>
  {
    if a < |contents| then contents[a] else []
  }

  lemma {:induction false} AddedCount(contents: seq<seq<Bytes>>, contents': seq<seq<Bytes>>, a: nat, obj: Bytes)
    requires Added(contents, contents', a, obj)
    ensures Count(contents') == Count(contents) + 1
    ensures ContentsOf(contents', a) == ContentsOf(contents, a) + [obj]
    ensures forall b: nat :: b != a ==> ContentsOf(contents', b) == ContentsOf(contents, b)
  {
    var c :| Extends(contents, c) && a < |c| && contents' == c[a := c[a] + [obj]];
    CountResized(contents, c);
    CountUpdate(c, a, c[a] + [obj]);
  }

  lemma {:induction false} RemovedCount(contents: seq<seq<Bytes>>, a: nat)
    requires a < |contents|
    ensures var contents' := contents[a := []];
      && Count(contents') == Count(contents) - |ContentsOf(contents, a)| && ContentsOf(contents', a) == []
      && forall b: nat :: b != a ==> ContentsOf(contents', b) == ContentsOf(contents, b)
  {
    CountUpdate(contents, a, []);
  }

  class CategorizedExternalMemory {
    const blockSize: nat
    const objectSize: nat
    var disk: Bytes
    var numBlocks: nat
    var blocks: seq<seq<Block>>
    var free: seq<nat>
    var numElems: nat
    ghost var owner: seq<int>
    ghost var contents: seq<seq<Bytes>>

    ghost function View(): Memory
      reads this
    {
      Memory(disk, numBlocks, blocks, free)
    }

    ghost predicate Consistent()
      reads this
    {
      && 0 < objectSize < INT_LIMIT && blockSize < INT_LIMIT
      && Represents(blockSize, objectSize, View(), owner, contents)
    }

    ghost predicate Valid()
      reads this
    {
      Consistent() && AllBuffered(blockSize, objectSize, blocks) && numElems == Count(contents)
    }

    /** The objects at an address, in the order in which they were added. */
    ghost function Contents(a: nat): seq<Bytes>
      reads this
    {
      ContentsOf(contents, a)
    }

    constructor (blockSize: nat, objectSize: nat)
      requires blockSize < INT_LIMIT && 0 < objectSize < INT_LIMIT
      ensures Valid() && this.blockSize == blockSize && this.objectSize == objectSize
      ensures numElems == 0 && contents == []
    {
      this.blockSize, this.objectSize := blockSize, objectSize;
      disk, numBlocks, blocks, free, numElems := [], 0, [], [], 0;
      owner, contents := [], [];
    }

    method AppendBlockToDisk()
      modifies this`disk, this`numBlocks, this`free
      ensures View() == Grown(blockSize, old(View()))
    {
      disk := disk + Zeros(blockSize);
      free := free + [numBlocks];
      numBlocks := numBlocks + 1;
    }

    method FetchFreshBlock() returns (b: Block)
      modifies this`disk, this`numBlocks, this`free
      ensures var s := WithFree(blockSize, old(View())); var n := |s.free| - 1;
        b == Block(s.free[n], 0, []) && View() == s.(free := s.free[..n])
    {
      if free == [] {
        AppendBlockToDisk();
      }
      b := Block(free[|free| - 1], 0, []);
      free := free[..|free| - 1];
    }

    method PushFreshBlock(a: nat)
      requires Consistent() && AlmostBuffered(blockSize, objectSize, blocks, a)
      modifies this`disk, this`numBlocks, this`free, this`blocks, this`owner
      ensures Consistent() && AllBuffered(blockSize, objectSize, blocks)
      ensures |blocks| == old(|blocks|) && blocks[a] != [] && LastSize(a) == 0
    {
      ghost var s := View();
      ghost var owner' := FreshBlock(blockSize, objectSize, s, owner, contents, a);
      var b := FetchFreshBlock();
      blocks := blocks[a := blocks[a] + [b]];
      owner := owner';
      assert View() == Fresh(WithFree(blockSize, s), a);
    }

    /** The block is filled up with zeros on disk. */
    method Sync(b: Block) returns (b': Block)
      requires |b.buffer| <= blockSize && Pos(blockSize, b.address) + blockSize <= |disk|
      modifies this`disk
      ensures b' == b.(buffer := [])
      ensures disk == Written(old(disk), Pos(blockSize, b.address), b.buffer + Zeros(blockSize - |b.buffer|))
    {
      var pos := blockSize * b.address;
      disk := Written(disk, pos, b.buffer);
      disk := Written(disk, pos + |b.buffer|, Zeros(blockSize - |b.buffer|));
      b' := b.(buffer := []);
    }

    method SyncLast(a: nat)
      requires Consistent() && AllBuffered(blockSize, objectSize, blocks) && a < |blocks| && blocks[a] != []
      requires LastSize(a) <= blockSize
      modifies this`disk, this`blocks
      ensures Consistent() && AlmostBuffered(blockSize, objectSize, blocks, a) && |blocks| == old(|blocks|)
    {
      ghost var s := View();
      var l := blocks[a];
      var b := l[|l| - 1];
      assert Buffered(blockSize, objectSize, l);
      assert ListGood(blockSize, objectSize, disk, numBlocks, owner, a, l);
      PosOrder(blockSize, b.address, numBlocks);
      var b' := Sync(b);
      SyncedBlock(blockSize, objectSize, s, owner, contents, a, b, disk);
      blocks := blocks[a := l[..|l| - 1] + [b']];
      assert View() == Replaced(s, a, b', disk);
    }

    ghost function LastSize(a: nat): nat
      reads this
    {
      if a < |blocks| && blocks[a] != [] then blocks[a][|blocks[a]| - 1].size else 0
    }

    /** The last block at an address is not full. */
    ghost predicate HasRoom(a: nat)
      reads this
    {
      && a < |blocks| && blocks[a] != [] && LastSize(a) + objectSize < INT_LIMIT
      && (objectSize <= blockSize ==> LastSize(a) + objectSize <= blockSize)
    }

    method AppendObject(a: nat, obj: Bytes)
      requires Consistent() && AllBuffered(blockSize, objectSize, blocks) && HasRoom(a) && |obj| == objectSize
      modifies this`blocks, this`contents
      ensures Consistent() && AllBuffered(blockSize, objectSize, blocks)
      ensures contents == old(contents)[a := old(contents[a]) + [obj]]
    {
      ghost var s := View();
      assert Buffered(blockSize, objectSize, blocks[a]);
      AppendedBlock(blockSize, objectSize, s, owner, contents, a, obj);
      var l := blocks[a];
      var b := l[|l| - 1];
      blocks := blocks[a := l[..|l| - 1] + [Block(b.address, b.size + objectSize, b.buffer + obj)]];
      contents := contents[a := contents[a] + [obj]];
      assert View() == Appended(s, a, obj);
    }

    method MakeRoom(a: nat)
      requires Consistent() && AllBuffered(blockSize, objectSize, blocks) && a < |blocks|
      requires objectSize <= blockSize || LastSize(a) + objectSize < INT_LIMIT
      modifies this`disk, this`numBlocks, this`free, this`blocks, this`owner
      ensures Consistent() && AllBuffered(blockSize, objectSize, blocks) && HasRoom(a)
    {
      if blocks[a] == [] {
        PushFreshBlock(a);
      }
      assert Buffered(blockSize, objectSize, blocks[a]);
      var last := blocks[a][|blocks[a]| - 1];
      FullMeansFull(blockSize, objectSize, last.size);
      if IsFull(blockSize, objectSize, last.size) {
        SyncLast(a);
        PushFreshBlock(a);
      }
    }

    /** The lists of blocks reach up to this address; new ones are empty. */
    method AddAddress(a: nat)
      requires Consistent() && AllBuffered(blockSize, objectSize, blocks)
      modifies this`blocks, this`contents
      ensures Consistent() && AllBuffered(blockSize, objectSize, blocks) && a < |blocks| &&
        LastSize(a) == old(LastSize(a))
      ensures Extends(old(contents), contents)
    {
      if a >= |blocks| {
        ghost var s := View();
        ResizedBlocks(blockSize, objectSize, s, owner, contents, a + 1);
        contents := contents + seq(a + 1 - |blocks|, _ => []);
        blocks := blocks + seq(a + 1 - |blocks|, _ => []);
        assert View() == Resized(s, a + 1);
      }
    }

    /**
     The object becomes the last one at its address, and nothing else changes. If an object is larger than
     a block, all objects of an address come into one block, whose size must remain a 32-bit number.
     */
    method Add(a: nat, obj: Bytes)
      requires Valid() && |obj| == objectSize
      requires objectSize <= blockSize || LastSize(a) + objectSize < INT_LIMIT
      modifies this
      ensures Valid() && numElems == old(numElems) + 1
      ensures Contents(a) == old(Contents(a)) + [obj]
      ensures forall c: nat :: c != a ==> Contents(c) == old(Contents(c))
    {
      Insert(a, obj);
      AddedCount(old(contents), contents, a, obj);
      numElems := numElems + 1;
    }

    method Insert(a: nat, obj: Bytes)
      requires Consistent() && AllBuffered(blockSize, objectSize, blocks) && |obj| == objectSize
      requires objectSize <= blockSize || LastSize(a) + objectSize < INT_LIMIT
      modifies this`disk, this`numBlocks, this`free, this`blocks, this`owner, this`contents
      ensures Consistent() && AllBuffered(blockSize, objectSize, blocks) && Added(old(contents), contents, a, obj)
    {
      AddAddress(a);
      ghost var c := contents;
      MakeRoom(a);
      AppendObject(a, obj);
      assert Extends(old(contents), c) && contents == c[a := c[a] + [obj]];
    }

    /** The first block is removed from an address. */
    method PopFirst(a: nat) returns (b: Block)
      requires Consistent() && AllBuffered(blockSize, objectSize, blocks) && a < |blocks| && blocks[a] != []
      modifies this`blocks, this`free, this`owner, this`contents
      ensures Consistent() && AllBuffered(blockSize, objectSize, blocks)
      ensures blocks == old(blocks)[a := old(blocks[a])[1..]] && b == old(blocks[a][0])
      ensures b.buffer == [] ==> Pos(blockSize, b.address) + b.size <= |disk|
      ensures Whole(|BlockBytes(blockSize, disk, b)|, objectSize)
      ensures Chunks(BlockBytes(blockSize, disk, b), objectSize) + contents[a] == old(contents[a])
      ensures contents == old(contents)[a := contents[a]]
    {
      ghost var s := View();
      assert Buffered(blockSize, objectSize, blocks[a]);
      ghost var owner', rest := PoppedBlock(blockSize, objectSize, s, owner, contents, a);
      b := blocks[a][0];
      blocks := blocks[a := blocks[a][1..]];
      free := free + [b.address];
      owner, contents := owner', contents[a := rest];
      assert View() == Popped(s, a);
    }

    method Read(b: Block) returns (bytes: Bytes)
      requires b.buffer == [] ==> Pos(blockSize, b.address) + b.size <= |disk|
      ensures bytes == BlockBytes(blockSize, disk, b)
    {
      if b.buffer != [] {
        bytes := b.buffer;
      } else {
        var pos := blockSize * b.address;
        bytes := disk[pos..pos + b.size];
      }
    }

    /** All objects of an address are returned in the order in which they were added, and removed. */
    method FetchAndRemove(a: nat) returns (result: seq<Bytes>)
      requires Valid()
      modifies this
      ensures Valid() && numElems == old(numElems) - |result|
      ensures result == old(Contents(a)) && Contents(a) == []
      ensures forall c: nat :: c != a ==> Contents(c) == old(Contents(c))
    {
      if a >= |blocks| {
        return [];
      }
      result := Drain(a);
      RemovedCount(old(contents), a);
      numElems := numElems - |result|;
    }

    /** The objects of the first block. */
    method TakeBlock(a: nat) returns (objs: seq<Bytes>)
      requires Consistent() && AllBuffered(blockSize, objectSize, blocks) && a < |blocks| && blocks[a] != []
      modifies this`blocks, this`free, this`owner, this`contents
      ensures Consistent() && AllBuffered(blockSize, objectSize, blocks)
      ensures |blocks| == old(|blocks|) && |blocks[a]| < old(|blocks[a]|)
      ensures objs + contents[a] == old(contents[a]) && contents == old(contents)[a := contents[a]]
    {
      var block := PopFirst(a);
      var bytes := Read(block);
      objs := Chunks(bytes, objectSize);
    }

    method Drain(a: nat) returns (result: seq<Bytes>)
      requires Consistent() && AllBuffered(blockSize, objectSize, blocks) && a < |blocks|
      modifies this`blocks, this`free, this`owner, this`contents
      ensures Consistent() && AllBuffered(blockSize, objectSize, blocks)
      ensures result == old(contents[a]) && contents == old(contents)[a := []]
    {
      result := [];
      while blocks[a] != []
        invariant Consistent() && AllBuffered(blockSize, objectSize, blocks) && a < |blocks|
        invariant result + contents[a] == old(contents[a]) && contents == old(contents)[a := contents[a]]
        decreases |blocks[a]|
      {
        var objs := TakeBlock(a);
        result := result + objs;
      }
      NoBlocks(blockSize, objectSize, View(), owner, contents, a);
    }

    method Size() returns (size: nat)
      requires Valid()
      ensures size == Count(contents)
    {
      size := numElems;
    }
  }
}
