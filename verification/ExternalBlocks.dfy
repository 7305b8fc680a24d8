/**
 Categorized external memory (src/util/categorized_external_memory.hpp): lists of objects by address, kept in
 blocks of which only the last one of an address is in main memory. The file is a sequence of bytes.
 */
module ExternalBlocks {

  type Bytes = seq<bv8>

  /** A block with an empty buffer lies on disk. */
  datatype Block = Block(address: nat, size: nat, buffer: Bytes)

  datatype Memory = Memory(disk: Bytes, numBlocks: nat, blocks: seq<seq<Block>>, free: seq<nat>)

  // ---------------------------------------------------------------------
  // Objects in sequences of bytes
  // ---------------------------------------------------------------------

  /** The length of some number of objects. */
  predicate Whole(len: nat, m: nat)
  {
    len == 0 || (len >= m > 0 && Whole(len - m, m))
  }

  function Chunks(b: Bytes, m: nat): seq<Bytes>
    requires Whole(|b|, m)
  {
    if b == [] then [] else Chunks(b[..|b| - m], m) + [b[|b| - m..]]
  }

  lemma {:induction false} WholeSum(a: nat, b: nat, m: nat)
    requires Whole(a, m) && Whole(b, m)
    ensures Whole(a + b, m)
  {
    if b > 0 { WholeSum(a, b - m, m); }
  }

  lemma {:induction false} ChunksConcat(a: Bytes, b: Bytes, m: nat)
    requires Whole(|a|, m) && Whole(|b|, m)
    ensures Whole(|a + b|, m) && Chunks(a + b, m) == Chunks(a, m) + Chunks(b, m)
  {
    WholeSum(|a|, |b|, m);
    if b == [] {
      assert a + b == a;
    } else {
      var k := |b| - m;
      ChunksConcat(a, b[..k], m);
      assert (a + b)[..|a + b| - m] == a + b[..k];
      assert (a + b)[|a + b| - m..] == b[k..];
    }
  }

  lemma {:induction false} ChunkOfOne(b: Bytes, m: nat)
    requires |b| == m > 0
    ensures Whole(m, m) && Chunks(b, m) == [b]
  {
    assert b[..0] == [] && b[0..] == b;
    assert Whole(0, m);
  }

  // ---------------------------------------------------------------------
  // Blocks on disk
  // ---------------------------------------------------------------------

  function Pos(bs: nat, x: nat): nat
  {
    bs * x
  }

  lemma {:induction false} PosOrder(bs: nat, x: nat, y: nat)
    requires x < y
    ensures Pos(bs, x) + bs <= Pos(bs, y) && Pos(bs, x + 1) == Pos(bs, x) + bs
  {
    var d := y - x - 1;
    assert bs * y == bs * x + bs + bs * d;
  }

  /** Bytes are written over the file from a position on. */
  function Written(disk: Bytes, pos: nat, b: Bytes): (disk': Bytes)
    requires pos + |b| <= |disk|
    ensures |disk'| == |disk|
  {
    disk[..pos] + b + disk[pos + |b|..]
  }

  function Zeros(n: nat): (z: Bytes)
    ensures |z| == n
  {
    seq(n, _ => 0)
  }

  predicate BlockOk(bs: nat, m: nat, disk: Bytes, numBlocks: nat, b: Block)
  {
    && b.address < numBlocks && Whole(b.size, m)
    && (|b.buffer| == b.size || (b.buffer == [] && b.size <= bs && Pos(bs, b.address) + b.size <= |disk|))
  }

  function BlockBytes(bs: nat, disk: Bytes, b: Block): Bytes
    requires b.buffer == [] ==> Pos(bs, b.address) + b.size <= |disk|
  {
    if b.buffer != [] then b.buffer else disk[Pos(bs, b.address)..Pos(bs, b.address) + b.size]
  }

  lemma {:induction false} BlockFits(bs: nat, m: nat, disk: Bytes, numBlocks: nat, b: Block)
    requires BlockOk(bs, m, disk, numBlocks, b) && |disk| == Pos(bs, numBlocks)
    ensures b.buffer == [] ==> Pos(bs, b.address) + b.size <= |disk|
    ensures |BlockBytes(bs, disk, b)| == b.size
  {
    PosOrder(bs, b.address, numBlocks);
  }

  ghost predicate ListOk(bs: nat, m: nat, disk: Bytes, numBlocks: nat, l: seq<Block>)
  {
    |disk| == Pos(bs, numBlocks) && forall i {:trigger l[i]} :: 0 <= i < |l| ==> BlockOk(bs, m, disk, numBlocks, l[i])
  }

  function Flat(parts: seq<Bytes>): Bytes
  {
    if parts == [] then [] else Flat(parts[..|parts| - 1]) + parts[|parts| - 1]
  }

  lemma {:induction false} FlatNext(parts: seq<Bytes>, b: Bytes)
    ensures Flat(parts + [b]) == Flat(parts) + b
  {
    assert (parts + [b])[..|parts|] == parts;
  }

  lemma {:induction false} FlatFirst(parts: seq<Bytes>)
    requires parts != []
    ensures Flat(parts) == parts[0] + Flat(parts[1..])
  {
    var n := |parts| - 1;
    if n == 0 {
      assert parts[..0] == [] && parts[1..] == [];
    } else {
      var init, tail := parts[..n], parts[1..];
      FlatFirst(init);
      assert tail[..n - 1] == init[1..];
      assert parts[0] + (Flat(init[1..]) + parts[n]) == parts[0] + Flat(init[1..]) + parts[n];
    }
  }

  lemma {:induction false} FlatWhole(parts: seq<Bytes>, m: nat)
    requires forall i {:trigger parts[i]} :: 0 <= i < |parts| ==> Whole(|parts[i]|, m)
    ensures Whole(|Flat(parts)|, m)
  {
    if parts != [] {
      var n := |parts| - 1;
      FlatWhole(parts[..n], m);
      WholeSum(|Flat(parts[..n])|, |parts[n]|, m);
    }
  }

  ghost function Parts(bs: nat, m: nat, disk: Bytes, numBlocks: nat, l: seq<Block>): (parts: seq<Bytes>)
    requires ListOk(bs, m, disk, numBlocks, l)
    ensures |parts| == |l|
    ensures forall i {:trigger parts[i]} :: 0 <= i < |l| ==>
      && (l[i].buffer == [] ==> Pos(bs, l[i].address) + l[i].size <= |disk|)
      && parts[i] == BlockBytes(bs, disk, l[i]) && |parts[i]| == l[i].size && Whole(|parts[i]|, m)
  {
    assert forall i {:trigger l[i]} :: 0 <= i < |l| ==> l[i].buffer == [] ==>
      Pos(bs, l[i].address) + l[i].size <= |disk| by {
      forall i | 0 <= i < |l| ensures l[i].buffer == [] ==> Pos(bs, l[i].address) + l[i].size <= |disk| {
        BlockFits(bs, m, disk, numBlocks, l[i]);
      }
    }
    seq(|l|, i requires 0 <= i < |l| => BlockBytes(bs, disk, l[i]))
  }

  /** The objects in a list of blocks. */
  ghost function Objects(bs: nat, m: nat, disk: Bytes, numBlocks: nat, l: seq<Block>): seq<Bytes>
    requires ListOk(bs, m, disk, numBlocks, l)
  {
    var parts := Parts(bs, m, disk, numBlocks, l);
    FlatWhole(parts, m);
    Chunks(Flat(parts), m)
  }

  ghost predicate Same(bs: nat, disk: Bytes, disk': Bytes, b: Block)
  {
    b.buffer == [] ==>
      && Pos(bs, b.address) + b.size <= |disk| && Pos(bs, b.address) + b.size <= |disk'|
      && BlockBytes(bs, disk, b) == BlockBytes(bs, disk', b)
  }

  lemma {:induction false} ObjectsFrame(bs: nat, m: nat, disk: Bytes, k: nat, disk': Bytes, k': nat, l: seq<Block>)
    requires ListOk(bs, m, disk, k, l) && ListOk(bs, m, disk', k', l)
    requires forall i {:trigger l[i]} :: 0 <= i < |l| ==> Same(bs, disk, disk', l[i])
    ensures Objects(bs, m, disk, k, l) == Objects(bs, m, disk', k', l)
  {
    var parts, parts' := Parts(bs, m, disk, k, l), Parts(bs, m, disk', k', l);
    forall i | 0 <= i < |l| ensures parts[i] == parts'[i] {
      assert Same(bs, disk, disk', l[i]);
    }
    assert parts == parts';
  }

  /** The first block's objects are the first. */
  lemma {:induction false} FirstObjects(bs: nat, m: nat, disk: Bytes, k: nat, l: seq<Block>)
    requires ListOk(bs, m, disk, k, l) && l != []
    ensures l[0].buffer == [] ==> Pos(bs, l[0].address) + l[0].size <= |disk|
    ensures var b := BlockBytes(bs, disk, l[0]);
      Whole(|b|, m) && Objects(bs, m, disk, k, l) == Chunks(b, m) + Objects(bs, m, disk, k, l[1..])
  {
    var parts, rest := Parts(bs, m, disk, k, l), Parts(bs, m, disk, k, l[1..]);
    assert parts[0] == BlockBytes(bs, disk, l[0]);
    forall i | 0 <= i < |rest| ensures rest[i] == parts[1..][i] {
      assert l[1..][i] == l[i + 1];
    }
    assert parts[1..] == rest;
    FlatFirst(parts);
    FlatWhole(rest, m);
    ChunksConcat(parts[0], Flat(rest), m);
  }

  /** A block comes last, or the last block is replaced by one with more bytes. */
  lemma {:induction false} LastObjects(bs: nat, m: nat, disk: Bytes, k: nat, l: seq<Block>, b: Block)
    requires ListOk(bs, m, disk, k, l + [b])
    ensures b.buffer == [] ==> Pos(bs, b.address) + b.size <= |disk|
    ensures ListOk(bs, m, disk, k, l)
    ensures var x := BlockBytes(bs, disk, b);
      Whole(|x|, m) && Objects(bs, m, disk, k, l + [b]) == Objects(bs, m, disk, k, l) + Chunks(x, m)
  {
    forall i | 0 <= i < |l| ensures BlockOk(bs, m, disk, k, l[i]) {
      assert (l + [b])[i] == l[i];
    }
    var parts, all := Parts(bs, m, disk, k, l), Parts(bs, m, disk, k, l + [b]);
    assert (l + [b])[|l|] == b;
    assert all[|l|] == BlockBytes(bs, disk, (l + [b])[|l|]);
    assert all == parts + [all[|l|]];
    FlatNext(parts, all[|l|]);
    FlatWhole(parts, m);
    ChunksConcat(Flat(parts), all[|l|], m);
  }

  /** Writing one whole block leaves all other blocks as they are. */
  lemma {:induction false} WrittenElsewhere(bs: nat, numBlocks: nat, disk: Bytes, x: nat, data: Bytes, b: Block)
    requires |disk| == Pos(bs, numBlocks) && x < numBlocks && |data| == bs && b.address < numBlocks && b.address != x
    requires b.buffer == [] ==> b.size <= bs
    ensures Pos(bs, x) + bs <= |disk| && Same(bs, disk, Written(disk, Pos(bs, x), data), b)
  {
    PosOrder(bs, x, numBlocks);
    PosOrder(bs, b.address, numBlocks);
    if x < b.address { PosOrder(bs, x, b.address); } else { PosOrder(bs, b.address, x); }
  }

  lemma {:induction false} WrittenHere(bs: nat, numBlocks: nat, disk: Bytes, x: nat, data: Bytes)
    requires |disk| == Pos(bs, numBlocks) && x < numBlocks && |data| <= bs
    ensures Pos(bs, x) + bs <= |disk|
    ensures var disk' := Written(disk, Pos(bs, x), data + Zeros(bs - |data|));
      disk'[Pos(bs, x)..Pos(bs, x) + |data|] == data
  {
    PosOrder(bs, x, numBlocks);
  }
}
