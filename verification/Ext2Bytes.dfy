/**
 fs/ext2/file.c: a regular file as a sequence of bytes. Reads return a slice of it and writes splice into it,
 chunk by chunk, through every level of the block map.
 */
module Ext2Bytes {
  import opened Folding
  import opened Options
  import opened Words
  import opened BlockTree
  import opened InodeMap
  import opened Ext2File

  predicate BlockSize(bs: nat) {
    bs in {1024, 2048, 4096}
  }

  function BlockCount(size: nat, bs: nat): nat
    requires bs > 0
  {
    (size + bs - 1) / bs
  }

  /** Byte `q` of a file with these data blocks. */
  ghost function FileByte(disk: Disk, data: seq<nat>, bs: nat, q: nat): byte
    requires bs > 0
  {
    if q / bs < |data| && data[q / bs] < |disk| && q % bs < |disk[data[q / bs]]|
    then disk[data[q / bs]][q % bs] else 0
  }

  ghost function Contents(disk: Disk, data: seq<nat>, size: nat, bs: nat): (r: seq<byte>)
    requires bs > 0
    ensures |r| == size
  {
    seq(size, q requires 0 <= q < size => FileByte(disk, data, bs, q))
  }

  /** `c` written over `s` from `pos` on, extending it where it runs past the end. */
  ghost function Splice(s: seq<byte>, pos: nat, c: seq<byte>): seq<byte>
    requires pos <= |s|
  {
    s[..pos] + c + if pos + |c| < |s| then s[pos + |c|..] else []
  }

  lemma SpliceAt(s: seq<byte>, pos: nat, c: seq<byte>, q: nat)
    requires pos <= |s| && q < |Splice(s, pos, c)|
    ensures Splice(s, pos, c)[q] == if pos <= q < pos + |c| then c[q - pos] else s[q]
  {
  }

  // ---- Positions and blocks ----

  lemma PositionInBlock(pos: nat, size: nat, bs: nat)
    requires BlockSize(bs) && pos <= size
    ensures pos / bs <= BlockCount(size, bs) && pos % bs < bs
    ensures pos < size ==> pos / bs < BlockCount(size, bs)
    ensures pos / bs == BlockCount(size, bs) ==> pos == size && pos % bs == 0 && size / bs == BlockCount(size, bs)
  {
    if bs == 1024 {
    } else if bs == 2048 {
    } else {
    }
  }

  function Top(pos: int, size: int): int {
    if pos > size then pos else size
  }

  /** The positions a chunk covers are those of its block within its offsets. */
  lemma ChunkRange(q: nat, pos: nat, len: nat, bs: nat)
    requires BlockSize(bs) && len <= bs - pos % bs
    ensures pos <= q < pos + len <==> q / bs == pos / bs && pos % bs <= q % bs < pos % bs + len
    ensures pos <= q < pos + len ==> q - pos == q % bs - pos % bs
  {
    if bs == 1024 {
    } else if bs == 2048 {
    } else {
    }
  }

  /** Position `pos` is at offset `off` of block `idx`. */
  ghost predicate PosIs(pos: nat, idx: nat, off: nat, bs: nat) {
    forall u :: Look(pos, u) ==> BlockSize(bs) && idx == pos / bs && off == pos % bs
  }

  /** `count` blocks hold exactly `size` bytes, the last one perhaps in part. */
  ghost predicate Holds(count: nat, size: nat, bs: nat) {
    forall u :: Look(size, u) ==> BlockSize(bs) && count == BlockCount(size, bs)
  }

  /** `size` bytes fill `count` blocks exactly. */
  ghost predicate Fills(count: nat, size: nat, bs: nat) {
    forall u :: Look(size, u) ==> BlockSize(bs) && count == size / bs
  }

  lemma FillsExactly(count: nat, size: nat, bs: nat)
    requires Fills(count, size, bs)
    ensures BlockSize(bs) && count == size / bs
  {
    assert Look(size, 0);
  }

  /**
   A write to blocks `idx` to `last`, one by one, of a file of `count` blocks whose size ends in block `top`: each block
   is there, or it is the one behind the last and the size says that a new one goes there.
   */
  predicate Served(idx: int, last: int, top: int, count: int)
    decreases last - idx
  {
    && (idx < count || idx == count == top)
    && (last <= idx || Served(idx + 1, last, Top(idx + 1, top), if idx == count then count + 1 else count))
  }

  /** In closed form: all blocks are there, or the write goes on where the file ends. */
  lemma {:induction false} ServedIff(idx: int, last: int, top: int, count: int)
    requires idx <= last
    ensures Served(idx, last, top, count) <==>
              last < count || (idx < count && top <= count) || idx == count == top
    decreases last - idx
  {
    if idx < last {
      ServedIff(idx + 1, last, Top(idx + 1, top), if idx == count then count + 1 else count);
    }
  }

  /** Every chunk of a write of `len` bytes at `pos` finds or gets the block of its position. */
  predicate Lands(pos: nat, len: nat, size: nat, count: nat, bs: nat)
    requires bs > 0
  {
    len > 0 ==> Served(pos / bs, Top(pos / bs, (pos + len - 1) / bs), size / bs, count)
  }

  lemma NextBlock(pos: nat, len: nat, size: nat, bs: nat)
    requires BlockSize(bs) && len > 0
    ensures var room := bs - pos % bs;
            && 0 < room <= bs && (pos + room) / bs == pos / bs + 1
            && (len <= room ==> (pos + len - 1) / bs == pos / bs)
            && (len > room ==> (pos + len - 1) / bs > pos / bs)
            && Top(pos + room, size) / bs == Top(pos / bs + 1, size / bs)
  {
    if bs == 1024 {
    } else if bs == 2048 {
    } else {
    }
  }

  /** For a file with as many blocks as its size needs: within the file, or in the block its size ends in. */
  lemma LandsInFile(pos: nat, len: nat, size: nat, bs: nat)
    requires BlockSize(bs) && len > 0
    ensures Lands(pos, len, size, BlockCount(size, bs), bs) <==> pos <= size || pos / bs == size / bs
  {
    NextBlock(pos, len, size, bs);
    ServedIff(pos / bs, Top(pos / bs, (pos + len - 1) / bs), size / bs, BlockCount(size, bs));
    CountBySize(pos, size, bs);
  }

  lemma CountBySize(pos: nat, size: nat, bs: nat)
    requires BlockSize(bs)
    ensures size / bs <= BlockCount(size, bs) <= size / bs + 1
    ensures pos <= size ==> pos / bs < BlockCount(size, bs) || pos / bs == BlockCount(size, bs) == size / bs
    ensures pos > size ==> pos / bs >= size / bs
  {
    if bs == 1024 {
    } else if bs == 2048 {
    } else {
    }
  }

  /** `Lands`, kept folded. */
  ghost predicate OnCourse(pos: nat, len: nat, size: nat, count: nat, bs: nat) {
    forall u :: Look(pos, u) ==> BlockSize(bs) && Lands(pos, len, size, count, bs)
  }

  lemma OnCourseMeans(pos: nat, len: nat, size: nat, count: nat, bs: nat)
    requires BlockSize(bs)
    ensures OnCourse(pos, len, size, count, bs) <==> Lands(pos, len, size, count, bs)
  {
    assert Look(pos, 0);
  }

  lemma OnCourseNext(pos: nat, len: nat, idx: nat, off: nat, chunk: nat, size: nat, count: nat, bs: nat)
    requires OnCourse(pos, len, size, count, bs) && PosIs(pos, idx, off, bs) && len > 0 && pos + len < WORD_LIMIT
    requires off < bs && chunk == if len < bs - off then len else bs - off
    ensures idx < Capacity(bs / 4) && (idx < count || (idx == count && Fills(count, size, bs)))
    ensures OnCourse(pos + chunk, len - chunk, Top(pos + chunk, size), if idx == count then count + 1 else count, bs)
  {
    assert Look(pos, 0);
    SizeFits(pos, bs);
    NextBlock(pos, len, size, bs);
  }

  /** A file keeps exactly the blocks its size needs. */
  lemma HoldsNext(pos: nat, idx: nat, off: nat, len: nat, size: nat, count: nat, bs: nat)
    requires Holds(count, size, bs) && PosIs(pos, idx, off, bs) && 0 < len <= bs - off
    requires idx < count || (idx == count && Fills(count, size, bs))
    ensures Holds(if idx == count then count + 1 else count, Top(pos + len, size), bs)
  {
    assert Look(pos, 0) && Look(size, 0);
    if bs == 1024 {
    } else if bs == 2048 {
    } else {
    }
  }

  /** `Holds`, if it is known. */
  ghost predicate Fitting(known: bool, count: nat, size: nat, bs: nat) {
    known ==> Holds(count, size, bs)
  }

  lemma FittingNext(known: bool, pos: nat, idx: nat, off: nat, len: nat, size: nat, count: nat, bs: nat)
    requires Fitting(known, count, size, bs) && PosIs(pos, idx, off, bs) && 0 < len <= bs - off
    requires idx < count || (idx == count && Fills(count, size, bs))
    ensures Fitting(known, if idx == count then count + 1 else count, Top(pos + len, size), bs)
  {
    if known {
      HoldsNext(pos, idx, off, len, size, count, bs);
    }
  }

  // ---- One chunk ----

  ghost predicate Apart(data: seq<nat>) {
    forall i, j :: 0 <= i < j < |data| ==> data[i] != data[j]
  }

  /** The block at `pos`, with the chunk copied into it. */
  function Patch(base: seq<byte>, off: nat, c: seq<byte>): seq<byte>
    requires off + |c| <= |base|
  {
    base[..off] + c + base[off + |c|..]
  }

  /** The disk and the data blocks before and after a chunk was copied into block `idx` at `off`. */
  ghost predicate ChunkCopied(disk: Disk, disk': Disk, data: seq<nat>, data': seq<nat>, idx: nat, off: nat,
                              c: seq<byte>, base: seq<byte>, bs: nat)
  {
    && |base| == bs && off + |c| <= bs
    && data <= data' && |data'| == (if idx < |data| then |data| else |data| + 1) && Apart(data') && |disk'| == |disk|
    && (forall i :: 0 <= i < |data'| ==> data'[i] < |disk'| && |disk'[data'[i]]| == bs)
    && (forall i :: 0 <= i < |data| ==> |disk[data[i]]| == bs)
    && idx < |data'| && disk'[data'[idx]] == Patch(base, off, c)
    && (if idx < |data| then base == disk[data[idx]] || |c| == bs else base == Zeros(bs))
    && (forall i :: 0 <= i < |data| && i != idx ==> disk'[data[i]] == disk[data[i]])
  }

  lemma PatchAt(base: seq<byte>, off: nat, c: seq<byte>, k: nat)
    requires off + |c| <= |base| && k < |base|
    ensures |Patch(base, off, c)| == |base|
    ensures Patch(base, off, c)[k] == if off <= k < off + |c| then c[k - off] else base[k]
  {
  }

  lemma ChunkByte(disk: Disk, disk': Disk, data: seq<nat>, data': seq<nat>, pos: nat, c: seq<byte>, base: seq<byte>,
                  bs: nat, q: nat)
    requires BlockSize(bs) && ChunkCopied(disk, disk', data, data', pos / bs, pos % bs, c, base, bs)
    ensures FileByte(disk', data', bs, q) == if pos <= q < pos + |c| then c[q - pos] else FileByte(disk, data, bs, q)
  {
    ChunkRange(q, pos, |c|, bs);
    PositionInBlock(q, q, bs);
    if q / bs == pos / bs {
      PatchAt(base, pos % bs, c, q % bs);
    }
  }

  /**
   Writing one block of the file splices the chunk into its contents, and into what lies between its end and the chunk.
   */
  lemma ChunkSplices(disk: Disk, disk': Disk, data: seq<nat>, data': seq<nat>, size: nat, size': nat,
                     pos: nat, idx: nat, off: nat, c: seq<byte>, base: seq<byte>, bs: nat)
    requires BlockSize(bs) && PosIs(pos, idx, off, bs) && 0 < |c|
    requires ChunkCopied(disk, disk', data, data', idx, off, c, base, bs)
    requires size' == Top(pos + |c|, size)
    ensures Contents(disk', data', size', bs) == Splice(Contents(disk, data, Top(pos, size), bs), pos, c)
  {
    assert Look(pos, 0);
    var before, after := Contents(disk, data, Top(pos, size), bs), Contents(disk', data', size', bs);
    var want := Splice(before, pos, c);
    forall q | 0 <= q < size'
      ensures after[q] == want[q]
    {
      ChunkByte(disk, disk', data, data', pos, c, base, bs, q);
      SpliceAt(before, pos, c, q);
    }
  }

  /**
   A chunk written after the block map grew from `disk` to `disk1`, which touched old index blocks and new blocks only.
   */
  lemma ChunkLands(disk: Disk, disk1: Disk, data: seq<nat>, data': seq<nat>, used: set<nat>, index: set<nat>,
                   size: nat, size': nat, pos: nat, idx: nat, off: nat, c: seq<byte>, base: seq<byte>, phys: nat,
                   n: nat)
    requires BlockSize(4 * n) && Sized(disk, n) && Sized(disk1, n) && |disk1| == |disk|
    requires PosIs(pos, idx, off, 4 * n) && 0 < |c| && |base| == 4 * n && off + |c| <= 4 * n
    requires |data'| == (if idx < |data| then |data| else |data| + 1) && size' == Top(pos + |c|, size)
    requires data <= data' && Apart(data') && idx < |data'| && data'[idx] == phys
    requires forall i :: 0 <= i < |data'| ==> data'[i] < |disk|
    requires forall i :: 0 <= i < |data| ==> data[i] in used && data[i] !in index
    requires forall b :: 0 <= b < |disk| && b in used && b !in index ==> disk1[b] == disk[b]
    requires if idx < |data| then base == disk1[phys] || |c| == 4 * n else base == Zeros(4 * n)
    ensures Contents(disk1[phys := Patch(base, off, c)], data', size', 4 * n)
         == Splice(Contents(disk, data, Top(pos, size), 4 * n), pos, c)
  {
    var disk2 := disk1[phys := Patch(base, off, c)];
    assert forall i :: 0 <= i < |data| ==> data[i] == data'[i];
    assert ChunkCopied(disk, disk2, data, data', idx, off, c, base, 4 * n);
    ChunkSplices(disk, disk2, data, data', size, size', pos, idx, off, c, base, 4 * n);
  }

  // ---- Facts about a file in place ----

  lemma PlacedData(disk: Disk, used: set<nat>, iBlock: seq<word>, iBlocks: nat, trees: seq<Tree>, data: seq<nat>,
                   own: set<nat>, index: set<nat>, n: nat, w: nat)
    requires Placed(disk, used, iBlock, iBlocks, trees, data, own, index, n, w)
    ensures own <= used && index <= own && 0 !in own
    ensures Apart(data)
    ensures forall i :: 0 <= i < |data| ==> 0 < data[i] < |disk| && data[i] in own && data[i] !in index
  {
    assert Look(trees, 0);
    InodeOkShaped(disk, iBlock, trees, n);
    forall i | 0 <= i < |data|
      ensures 0 < data[i] < |disk| && data[i] in own && data[i] !in index
    {
      HoleFreeMap(trees, |data|, i, n);
      MapIsDataBlock(trees, i, n);
    }
    forall i, j | 0 <= i < j < |data|
      ensures data[i] != data[j]
    {
      if data[i] == data[j] {
        HoleFreeMap(trees, |data|, i, n);
        MapIsInjective(trees, i, j, n);
      }
    }
    forall b | b in index
      ensures b in own
    {
      var s :| 0 <= s < |trees| && b in IndexBlocks(trees[s]);
      IndexWithinBlocks(trees[s]);
    }
  }

  lemma PlacedBmap(disk: Disk, used: set<nat>, iBlock: seq<word>, iBlocks: nat, trees: seq<Tree>, data: seq<nat>,
                   own: set<nat>, index: set<nat>, n: nat, w: nat, idx: nat)
    requires Placed(disk, used, iBlock, iBlocks, trees, data, own, index, n, w)
    requires Fanout(n) && |disk| > 0 && |disk[0]| == 4 * n && Ptr(disk[0], 0) == 0
    requires idx <= |data| && idx < Capacity(n)
    ensures |iBlock| == SLOTS && Bmap(disk, iBlock, idx, n) == if idx < |data| then data[idx] else 0
  {
    assert Look(trees, 0);
    BmapOfHoleFree(disk, iBlock, trees, |data|, idx, n);
  }

  lemma PlacedBmapWithin(disk: Disk, used: set<nat>, iBlock: seq<word>, iBlocks: nat, trees: seq<Tree>, data: seq<nat>,
                         own: set<nat>, index: set<nat>, n: nat, w: nat, idx: nat)
    requires Placed(disk, used, iBlock, iBlocks, trees, data, own, index, n, w)
    requires Fanout(n) && |disk| > 0 && |disk[0]| == 4 * n && Ptr(disk[0], 0) == 0
    requires idx < |data|
    ensures |iBlock| == SLOTS && Bmap(disk, iBlock, idx, n) == data[idx]
  {
    assert Look(trees, 0);
    PlacedBmap(disk, used, iBlock, iBlocks, trees, data, own, index, n, w, idx);
  }

  /** Block 0 reads as null pointers throughout. */
  ghost predicate BlankBoot(disk: Disk, n: nat) {
    |disk| > 0 && |disk[0]| == 4 * n && forall k: nat :: k < n ==> Ptr(disk[0], k) == 0
  }

  ghost predicate BlankWord(disk: Disk, n: nat) {
    Fanout(n) && |disk| > 0 && |disk[0]| == 4 * n && Ptr(disk[0], 0) == 0
  }

  /** Lookups are right up to the end of the file, and everywhere when block 0 is blank. */
  ghost predicate Mappable(disk: Disk, idx: nat, count: nat, n: nat) {
    forall u :: Look(idx, u)
      ==> idx < Capacity(n) && Fanout(n) && (BlankBoot(disk, n) || (idx <= count && BlankWord(disk, n)))
  }

  lemma PlacedBmapEverywhere(disk: Disk, used: set<nat>, iBlock: seq<word>, iBlocks: nat, trees: seq<Tree>,
                             data: seq<nat>, own: set<nat>, index: set<nat>, n: nat, w: nat, idx: nat)
    requires Placed(disk, used, iBlock, iBlocks, trees, data, own, index, n, w) && Mappable(disk, idx, |data|, n)
    ensures Fanout(n) && |iBlock| == SLOTS && Bmap(disk, iBlock, idx, n) == if idx < |data| then data[idx] else 0
  {
    assert Look(trees, 0) && Look(idx, 0);
    if BlankBoot(disk, n) {
      InodeOkShaped(disk, iBlock, trees, n);
      BmapWithZeroBlock(disk, iBlock, trees, idx, n);
      HoleFreeMap(trees, |data|, idx, n);
    } else {
      PlacedBmap(disk, used, iBlock, iBlocks, trees, data, own, index, n, w, idx);
    }
  }

  /** Writing a block that is no index block of the file leaves the file in place. */
  lemma PlacedAfterWrite(disk: Disk, disk': Disk, used: set<nat>, iBlock: seq<word>, iBlocks: nat, trees: seq<Tree>,
                         data: seq<nat>, own: set<nat>, index: set<nat>, n: nat, w: nat)
    requires Placed(disk, used, iBlock, iBlocks, trees, data, own, index, n, w)
    requires Sized(disk', n) && |disk'| == |disk|
    requires forall b :: 0 <= b < |disk| && b in index ==> disk'[b] == disk[b]
    ensures Placed(disk', used, iBlock, iBlocks, trees, data, own, index, n, w)
  {
    assert Look(trees, 0);
    forall s | 0 <= s < SLOTS
      ensures Represents(disk', iBlock[s], SlotLevel(s), trees[s], n)
    {
      assert forall b :: b in IndexBlocks(trees[s]) ==> b in IndexOf(trees);
      RepresentsFrame(disk, disk', iBlock[s], SlotLevel(s), trees[s], n);
    }
    assert InPlace(disk', used, iBlock, iBlocks, trees, data, own, index, n, w);
  }

  lemma PlacedMoreUsed(disk: Disk, used: set<nat>, used': set<nat>, iBlock: seq<word>, iBlocks: nat, trees: seq<Tree>,
                       data: seq<nat>, own: set<nat>, index: set<nat>, n: nat, w: nat)
    requires Placed(disk, used, iBlock, iBlocks, trees, data, own, index, n, w) && used <= used'
    ensures Placed(disk, used', iBlock, iBlocks, trees, data, own, index, n, w)
  {
    assert Look(trees, 0);
  }

  /** A file ready for input and output: in place on a volume with a zero boot word. */
  ghost predicate Ready(v: Volume, ino: Inode)
    reads v, v.balloc, ino
  {
    && v.Valid() && v.FileOk(ino)
    && Ptr(v.disk[0], 0) == 0 && 0 in v.used
  }

  /** The file has as many blocks as its size needs. */
  ghost predicate Packed(v: Volume, ino: Inode)
    reads v, ino
  {
    Holds(|ino.data|, ino.iSize, v.bsize)
  }

  ghost function Bytes(v: Volume, ino: Inode): seq<byte>
    requires v.bsize > 0
    reads v, ino
  {
    Contents(v.disk, ino.data, ino.iSize, v.bsize)
  }

  /** The bytes of the file, and what its blocks hold from its end up to `pos` if that is further. */
  ghost function BytesTo(v: Volume, ino: Inode, pos: nat): seq<byte>
    requires v.bsize > 0
    reads v, ino
  {
    Contents(v.disk, ino.data, Top(pos, ino.iSize), v.bsize)
  }

  /** The file reads `s` up to its end or to `pos` (kept folded in the loops below). */
  ghost predicate Stored(v: Volume, ino: Inode, s: seq<byte>, pos: nat)
    reads v, ino
  {
    |s| == Top(pos, ino.iSize) && v.bsize > 0 && forall u :: Look(s, u) ==> s == BytesTo(v, ino, pos)
  }

  lemma StoredBytes(v: Volume, ino: Inode, s: seq<byte>, pos: nat)
    requires v.bsize > 0
    ensures Stored(v, ino, s, pos) <==> s == BytesTo(v, ino, pos)
    ensures pos <= ino.iSize ==> BytesTo(v, ino, pos) == Bytes(v, ino)
  {
    assert Look(s, 0);
  }

  /** `i_blocks` is the number of data and index blocks, in sectors. */
  lemma CountsItsBlocks(v: Volume, ino: Inode)
    requires v.FileOk(ino)
    ensures ino.iBlocks == |ino.own| * v.W()
  {
    assert Look(ino.trees, 0);
    SectorsIsProduct(|ino.own|, v.W());
  }

  /** What a change to one file leaves alone: every block in use that the file does not own. */
  twostate predicate OthersKept(v: Volume, ino: Inode)
    reads v, ino
  {
    && |v.disk| == old(|v.disk|) && old(v.used) <= v.used
    && (forall b :: 0 <= b < |v.disk| && b in old(v.used) && b !in old(ino.own) ==> v.disk[b] == old(v.disk)[b])
    && (forall b :: b in ino.own ==> b in old(ino.own) || b !in old(v.used))
  }

  /** Take a block from the allocator and attach it after the last one. */
  method GrowByOne(v: Volume, ino: Inode) returns (status: Status, phys: word)
    requires Ready(v, ino) && Fills(|ino.data|, ino.iSize, v.bsize)
    modifies v, v.balloc, ino`iBlocks, ino`iBlock, ino`trees, ino`data, ino`own, ino`index
    ensures v.Valid() && OthersKept(v, ino)
    ensures forall b :: 0 <= b < |v.disk| && b in old(v.used) && b !in old(ino.index) ==> v.disk[b] == old(v.disk)[b]
    ensures status == Ok ==> v.FileOk(ino) && ino.data == old(ino.data) + [phys as nat] && phys as nat !in old(v.used)
    ensures status == NoSpace ==> v.balloc.Full() && v.FileLegible(ino) && ino.data == old(ino.data)
  {
    PlacedData(v.disk, v.used, ino.iBlock, ino.iBlocks, ino.trees, ino.data, ino.own, ino.index, v.N(), v.W());
    var a := v.AllocBlock();
    if a.None? {
      PlacedLegible(v.disk, v.used, ino.iBlock, ino.iBlocks, ino.trees, ino.data, ino.own, ino.index, v.N(), v.W());
      return NoSpace, 0;
    }
    phys := a.value;
    PlacedMoreUsed(v.disk, old(v.used), v.used, ino.iBlock, ino.iBlocks, ino.trees, ino.data, ino.own, ino.index, v.N(),
                   v.W());
    FillsExactly(|ino.data|, ino.iSize, v.bsize);
    status := v.AppendBlock(ino, phys);
  }

  /** What it means for a file of `count` blocks, and a write to block `idx`, that `phys` was stored at block `a`. */
  ghost predicate Attached(trees: seq<Tree>, trees': seq<Tree>, count: nat, idx: nat, a: nat, phys: nat, n: nat) {
    && ShapedSlots(trees, n) && ShapedSlots(trees', n)
    && ((if idx < count then MapOf(trees, idx, n) != 0 else MapOf(trees', idx, n) == phys) <==> idx < count || a == idx)
    && ((exists c: nat :: MapsFirst(trees', c, n)) <==> a <= count)
    && (MapOf(trees, a, n) != 0 <==> a < count)
    && (a < count ==> forall i: nat :: MapOf(trees', i, n) != MapOf(trees, a, n))
  }

  /**
   A write that finds no block behind its position stores a new one at `i_size / block_size`, whatever the size and
   however many blocks the file has. The write finds or gets the block of its position exactly when there is one, or the
   position lies in the block the size ends in; no hole appears exactly when the size is not past the block behind the
   last; and a block of the file is lost exactly when the size ends before that.
   */
  lemma AppendServesPosition(trees: seq<Tree>, t': Tree, count: nat, pos: word, size: word, phys: nat, bs: nat)
    requires BlockSize(bs) && size / bs < Capacity(bs / 4)
    requires ShapedSlots(trees, bs / 4) && KidsDistinct(trees) && HoleFree(trees, count, bs / 4)
    requires phys > 0 && phys !in BlocksOf(trees) && forall b :: b in BlocksOf(trees) ==> b > 0
    requires Put(trees[SlotOf(size / bs, bs / 4)], t', SlotPath(size / bs, bs / 4), phys, bs / 4)
    ensures var n, a := bs / 4, size / bs;
            Attached(trees, trees[SlotOf(a, n) := t'], count, pos / bs, a, phys, n)
  {
    var n, idx, a := bs / 4, pos / bs, size / bs;
    SizeFits(pos, bs);
    PutServes(trees, t', count, a, idx, phys, n);
    HoleFreeMap(trees, count, idx, n);
  }

  /** The disk holds the file with the block attached (kept folded). */
  ghost predicate AttachedOn(disk: Disk, iBlock: seq<word>, trees: seq<Tree>, trees': seq<Tree>, count: nat, pos: word,
                             size: word, phys: nat, bs: nat)
  {
    forall u :: Look(trees', u) ==>
      && BlockSize(bs) && InodeOk(disk, iBlock, trees', bs / 4)
      && Attached(trees, trees', count, pos / bs, size / bs, phys, bs / 4)
  }

  /** The same on the disk: a fresh block is attached to any hole-free file, whatever its size, on behalf of `pos`. */
  method AttachForPosition(v: Volume, ino: Inode, ghost pos: word) returns (status: Status, phys: word)
    requires Ready(v, ino)
    modifies v, v.balloc, ino`iBlocks, ino`iBlock, ino`trees, ino`data, ino`own, ino`index
    ensures v.Valid() && old(v.used) <= v.used && v.Spares(old(ino.index))
    ensures status == NoSpace ==> v.balloc.Full() && v.FileLegible(ino) && ino.data == old(ino.data)
    ensures status == Ok ==> phys as nat !in old(v.used)
    ensures status == Ok ==>
              AttachedOn(v.disk, ino.iBlock, old(ino.trees), ino.trees, old(|ino.data|), pos, ino.iSize, phys, v.bsize)
  {
    PlacedData(v.disk, v.used, ino.iBlock, ino.iBlocks, ino.trees, ino.data, ino.own, ino.index, v.N(), v.W());
    var a := v.AllocBlock();
    if a.None? {
      PlacedLegible(v.disk, v.used, ino.iBlock, ino.iBlocks, ino.trees, ino.data, ino.own, ino.index, v.N(), v.W());
      return NoSpace, 0;
    }
    phys := a.value;
    PlacedMoreUsed(v.disk, old(v.used), v.used, ino.iBlock, ino.iBlocks, ino.trees, ino.data, ino.own, ino.index, v.N(),
                   v.W());
    ghost var disk, used, iBlock, iBlocks, data, own, index :=
      v.disk, v.used, ino.iBlock, ino.iBlocks, ino.data, ino.own, ino.index;
    status := v.AppendBlock(ino, phys);
    if status == Ok {
      StoredServes(disk, used, iBlock, iBlocks, old(ino.trees), data, own, index, v.disk, ino.iBlock, ino.trees, pos,
                   ino.iSize, phys, v.bsize, v.W());
    }
  }

  lemma StoredServes(disk: Disk, used: set<nat>, iBlock: seq<word>, iBlocks: nat, trees: seq<Tree>, data: seq<nat>,
                     own: set<nat>, index: set<nat>, disk': Disk, iBlock': seq<word>, trees': seq<Tree>, pos: word,
                     size: word, phys: word, bs: nat, w: nat)
    requires BlockSize(bs) && Placed(disk, used, iBlock, iBlocks, trees, data, own, index, bs / 4, w)
    requires StoredAt(disk', iBlock', trees, trees', size / bs, phys, bs / 4) && phys > 0 && phys as nat !in own
    ensures AttachedOn(disk', iBlock', trees, trees', |data|, pos, size, phys, bs)
  {
    PlacedData(disk, used, iBlock, iBlocks, trees, data, own, index, bs / 4, w);
    assert Look(trees, 0) && Look(trees', 0);
    AppendServesPosition(trees, trees'[SlotOf(size / bs, bs / 4)], |data|, pos, size, phys, bs);
  }

  /** The block behind logical block `idx`, attached first when there is none yet. */
  method BlockForWrite(v: Volume, ino: Inode, idx: nat) returns (status: Status, phys: word, isNew: bool)
    requires Ready(v, ino) && idx < Capacity(v.N())
    requires idx < |ino.data| || (idx == |ino.data| && Fills(idx, ino.iSize, v.bsize))
    modifies v, v.balloc, ino`iBlocks, ino`iBlock, ino`trees, ino`data, ino`own, ino`index
    ensures v.Valid() && OthersKept(v, ino)
    ensures forall b :: 0 <= b < |v.disk| && b in old(v.used) && b !in old(ino.index) ==> v.disk[b] == old(v.disk)[b]
    ensures status == NoSpace
            ==> v.balloc.Full() && idx == |ino.data| && v.FileLegible(ino) && ino.data == old(ino.data)
    ensures status == Ok ==> v.FileOk(ino)
    ensures status == Ok
            ==> isNew == (idx == old(|ino.data|)) && ino.data == old(ino.data) + if isNew then [phys as nat] else []
    ensures status == Ok && !isNew ==> phys == ino.data[idx]
  {
    PlacedBmap(v.disk, v.used, ino.iBlock, ino.iBlocks, ino.trees, ino.data, ino.own, ino.index, v.N(), v.W(), idx);
    PlacedData(v.disk, v.used, ino.iBlock, ino.iBlocks, ino.trees, ino.data, ino.own, ino.index, v.N(), v.W());
    phys := Bmap(v.disk, ino.iBlock, idx, v.N());
    isNew := phys == 0;
    if isNew {
      status, phys := GrowByOne(v, ino);
    } else {
      status := Ok;
    }
  }

  lemma BlockIsSized(v: Volume, b: nat)
    requires v.Valid() && b < |v.disk|
    ensures |v.disk[b]| == v.bsize == 4 * v.N()
  {
  }

  /** Overwrite a data block of the file. */
  method StoreBlock(v: Volume, ino: Inode, ghost idx: nat, phys: word, buf: seq<byte>)
    requires v.Valid() && v.FileOk(ino) && idx < |ino.data| && ino.data[idx] == phys && |buf| == v.bsize
    modifies v`disk
    ensures phys < |old(v.disk)| && v.disk == old(v.disk)[phys := buf] && v.Valid() && v.FileOk(ino)
  {
    PlacedData(v.disk, v.used, ino.iBlock, ino.iBlocks, ino.trees, ino.data, ino.own, ino.index, v.N(), v.W());
    PlacedAfterWrite(v.disk, v.disk[phys := buf], v.used, ino.iBlock, ino.iBlocks, ino.trees, ino.data,
                     ino.own, ino.index, v.N(), v.W());
    v.disk := v.disk[phys := buf];
  }

  lemma ContentsKept(disk: Disk, disk': Disk, data: seq<nat>, used: set<nat>, index: set<nat>, size: nat, bs: nat)
    requires bs > 0 && |disk'| == |disk|
    requires forall i :: 0 <= i < |data| ==> data[i] < |disk| && data[i] in used && data[i] !in index
    requires forall b :: 0 <= b < |disk| && b in used && b !in index ==> disk'[b] == disk[b]
    ensures Contents(disk', data, size, bs) == Contents(disk, data, size, bs)
  {
  }

  /** One round of the write loop: the chunk lies within block `idx`. */
  method WriteChunk(v: Volume, ino: Inode, pos: nat, idx: nat, off: nat, c: seq<byte>, ioBuf: seq<byte>)
    returns (status: Status, ioBuf': seq<byte>)
    requires Ready(v, ino) && PosIs(pos, idx, off, v.bsize) && idx < Capacity(v.N())
    requires idx < |ino.data| || (idx == |ino.data| && Fills(idx, ino.iSize, v.bsize))
    requires 0 < |c| <= v.bsize - off && pos + |c| < WORD_LIMIT && |ioBuf| == v.bsize
    modifies v, v.balloc, ino
    ensures |ioBuf'| == v.bsize && v.Valid() && OthersKept(v, ino)
    ensures status == NoSpace ==> v.balloc.Full() && idx == |ino.data| && v.FileLegible(ino)
    ensures status == NoSpace ==> ino.data == old(ino.data) && ino.iSize == old(ino.iSize)
    ensures status == NoSpace ==> BytesTo(v, ino, pos) == old(BytesTo(v, ino, pos))
    ensures status == Ok ==> Ready(v, ino)
    ensures status == Ok ==> Bytes(v, ino) == Splice(old(BytesTo(v, ino, pos)), pos, c)
    ensures status == Ok ==> ino.iSize == Top(pos + |c|, old(ino.iSize))
    ensures status == Ok ==> |ino.data| == if idx == old(|ino.data|) then old(|ino.data|) + 1 else old(|ino.data|)
  {
    PlacedData(v.disk, v.used, ino.iBlock, ino.iBlocks, ino.trees, ino.data, ino.own, ino.index, v.N(), v.W());
    var phys, isNew;
    status, phys, isNew := BlockForWrite(v, ino, idx);
    if status == NoSpace {
      ContentsKept(old(v.disk), v.disk, ino.data, old(v.used), old(ino.index), Top(pos, ino.iSize), v.bsize);
      return NoSpace, ioBuf;
    }
    PlacedData(v.disk, v.used, ino.iBlock, ino.iBlocks, ino.trees, ino.data, ino.own, ino.index, v.N(), v.W());
    BlockIsSized(v, phys as nat);
    var buf := ioBuf;
    if isNew {
      buf := Zeros(v.bsize);
    } else if !(off == 0 && |c| == v.bsize) {
      buf := v.disk[phys];
    }
    ioBuf' := Patch(buf, off, c);
    ghost var size' := Top(pos + |c|, ino.iSize);
    ChunkLands(old(v.disk), v.disk, old(ino.data), ino.data, old(v.used), old(ino.index), ino.iSize, size',
               pos, idx, off, c, buf, phys, v.N());
    StoreBlock(v, ino, idx, phys, ioBuf');
    if pos + |c| > ino.iSize {
      ino.iSize := pos + |c|;
    }
  }

  // ---- Whole calls ----

  /** An open file description: the position the next read or write starts at. */
  class File {
    var fdPos: word

    constructor ()
      ensures fdPos == 0
    {
      fdPos := 0;
    }
  }

  lemma SpliceSplice(s: seq<byte>, pos: nat, a: seq<byte>, b: seq<byte>)
    requires pos <= |s|
    ensures pos + |a| <= |Splice(s, pos, a)|
    ensures Splice(Splice(s, pos, a), pos + |a|, b) == Splice(s, pos, a + b)
  {
    var t := Splice(s, pos, a);
    assert t[..pos + |a|] == s[..pos] + a;
    assert s[..pos] + a + b == s[..pos] + (a + b);
    if pos + |a| + |b| < |t| {
      assert t[pos + |a| + |b|..] == s[pos + |a| + |b|..];
    }
  }

  /** What was written is what is read back, and nothing before or after it changes. */
  lemma SpliceReadsBack(s: seq<byte>, pos: nat, c: seq<byte>)
    requires pos <= |s|
    ensures Splice(s, pos, c)[pos..pos + |c|] == c && Splice(s, pos, c)[..pos] == s[..pos]
    ensures forall q :: pos + |c| <= q < |s| ==> Splice(s, pos, c)[q] == s[q]
  {
    var t := Splice(s, pos, c);
    assert t[pos..pos + |c|] == c;
  }

  /** `cur` is `s` with the first `done` bytes of `src` written over it from `pos` on. */
  ghost predicate Written(cur: seq<byte>, s: seq<byte>, pos: nat, src: seq<byte>, done: nat) {
    && pos <= |s| && done <= |src| && pos + done <= |cur|
    && forall u :: Look(cur, u) ==> cur == Splice(s, pos, src[..done])
  }

  lemma WrittenStart(s: seq<byte>, pos: nat, src: seq<byte>)
    requires pos <= |s|
    ensures Written(s, s, pos, src, 0)
  {
    assert src[..0] == [];
  }

  lemma WrittenNext(cur: seq<byte>, s: seq<byte>, pos: nat, src: seq<byte>, done: nat, chunk: nat)
    requires Written(cur, s, pos, src, done) && done + chunk <= |src|
    ensures Written(Splice(cur, pos + done, src[done..done + chunk]), s, pos, src, done + chunk)
  {
    assert Look(cur, 0);
    SpliceSplice(s, pos, src[..done], src[done..done + chunk]);
    assert src[..done] + src[done..done + chunk] == src[..done + chunk];
  }

  lemma WrittenSoFar(cur: seq<byte>, s: seq<byte>, pos: nat, src: seq<byte>, done: nat)
    requires Written(cur, s, pos, src, done)
    ensures cur == Splice(s, pos, src[..done]) && (done == 0 ==> cur == s)
  {
    assert Look(cur, 0);
  }

  /** The block and the offset a position falls in, and how much of `left` fits there. */
  method Locate(pos: nat, left: nat, bs: nat) returns (idx: nat, off: nat, chunk: nat)
    requires BlockSize(bs)
    ensures PosIs(pos, idx, off, bs) && off < bs && chunk == if left < bs - off then left else bs - off
  {
    PositionInBlock(pos, pos, bs);
    idx, off := pos / bs, pos % bs;
    chunk := if left < bs - off then left else bs - off;
  }

  /** The position lies in the block behind the last of `count` (kept folded). */
  ghost predicate PastLast(pos: nat, count: nat, bs: nat) {
    bs > 0 && forall u :: Look(pos, u) ==> pos / bs == count
  }

  lemma IsPastLast(pos: nat, idx: nat, off: nat, bs: nat)
    requires BlockSize(bs) && PosIs(pos, idx, off, bs)
    ensures PastLast(pos, idx, bs)
  {
    assert Look(pos, 0);
  }

  /** A write that stops there needed a block that did not exist. */
  lemma NeededBlock(pos: nat, len: nat, done: nat, count: nat, count': nat, bs: nat)
    requires BlockSize(bs) && done < len && count <= count' && PastLast(pos + done, count', bs)
    ensures (pos + done) / bs == count' && (pos + len - 1) / bs >= count
  {
    var at: nat := pos + done;
    assert Look(at, 0);
    BlockMonotone(at, pos + len - 1, bs);
  }

  lemma BlockMonotone(a: nat, b: nat, bs: nat)
    requires BlockSize(bs) && a <= b
    ensures a / bs <= b / bs
  {
    if bs == 1024 {
    } else if bs == 2048 {
    } else {
    }
  }

  method WriteStored(v: Volume, ino: Inode, pos: nat, idx: nat, off: nat, c: seq<byte>, ioBuf: seq<byte>,
                     ghost s: seq<byte>)
    returns (status: Status, ioBuf': seq<byte>)
    requires Ready(v, ino) && Stored(v, ino, s, pos) && PosIs(pos, idx, off, v.bsize) && idx < Capacity(v.N())
    requires idx < |ino.data| || (idx == |ino.data| && Fills(idx, ino.iSize, v.bsize))
    requires 0 < |c| <= v.bsize - off && pos + |c| < WORD_LIMIT && |ioBuf| == v.bsize
    modifies v, v.balloc, ino
    ensures |ioBuf'| == v.bsize && v.Valid() && OthersKept(v, ino)
    ensures status == NoSpace ==> v.balloc.Full() && idx == |ino.data| && v.FileLegible(ino)
    ensures status == NoSpace ==>
              ino.data == old(ino.data) && ino.iSize == old(ino.iSize) && Stored(v, ino, s, pos)
    ensures status == Ok ==> Ready(v, ino) && ino.iSize == Top(pos + |c|, old(ino.iSize))
    ensures status == Ok ==> |ino.data| == if idx == old(|ino.data|) then old(|ino.data|) + 1 else old(|ino.data|)
    ensures status == Ok ==> Stored(v, ino, Splice(s, pos, c), pos + |c|)
  {
    StoredBytes(v, ino, s, pos);
    status, ioBuf' := WriteChunk(v, ino, pos, idx, off, c, ioBuf);
    if status == Ok {
      StoredBytes(v, ino, Splice(s, pos, c), pos + |c|);
    } else {
      StoredBytes(v, ino, s, pos);
    }
  }

  /** One chunk at the position of the open file, which moves on. */
  method WriteHere(v: Volume, ino: Inode, file: File, idx: nat, off: nat, c: seq<byte>, ioBuf: seq<byte>,
                   ghost s: seq<byte>, ghost left: nat, ghost known: bool)
    returns (status: Status, ioBuf': seq<byte>)
    requires Ready(v, ino) && Stored(v, ino, s, file.fdPos) && PosIs(file.fdPos, idx, off, v.bsize) && off < v.bsize
    requires OnCourse(file.fdPos, left, ino.iSize, |ino.data|, v.bsize) && left > 0 && file.fdPos + left < WORD_LIMIT
    requires |c| == (if left < v.bsize - off then left else v.bsize - off) && |ioBuf| == v.bsize
    requires Fitting(known, |ino.data|, ino.iSize, v.bsize)
    modifies v, v.balloc, ino, file
    ensures |ioBuf'| == v.bsize && v.Valid() && OthersKept(v, ino) && old(|ino.data|) <= |ino.data|
    ensures file.fdPos == old(file.fdPos) + if status == Ok then |c| else 0
    ensures status == NoSpace ==> v.balloc.Full() && idx == |ino.data| && v.FileLegible(ino)
    ensures status == NoSpace ==>
              ino.data == old(ino.data) && ino.iSize == old(ino.iSize) && Stored(v, ino, s, file.fdPos)
    ensures status == Ok ==> Ready(v, ino) && file.fdPos <= ino.iSize
    ensures status == Ok ==> OnCourse(file.fdPos, left - |c|, ino.iSize, |ino.data|, v.bsize)
    ensures status == Ok ==> Stored(v, ino, Splice(s, old(file.fdPos), c), file.fdPos)
    ensures status == Ok ==> Fitting(known, |ino.data|, ino.iSize, v.bsize)
  {
    OnCourseNext(file.fdPos, left, idx, off, |c|, ino.iSize, |ino.data|, v.bsize);
    FittingNext(known, file.fdPos, idx, off, |c|, ino.iSize, |ino.data|, v.bsize);
    status, ioBuf' := WriteStored(v, ino, file.fdPos, idx, off, c, ioBuf, s);
    if status == Ok {
      file.fdPos := file.fdPos + |c|;
    }
  }

  method WriteNext(v: Volume, ino: Inode, file: File, src: seq<byte>, done: nat, ioBuf: seq<byte>,
                   ghost s: seq<byte>, ghost pos: nat, ghost cur: seq<byte>, ghost known: bool)
    returns (status: Status, done': nat, ioBuf': seq<byte>, ghost cur': seq<byte>)
    requires Ready(v, ino) && Stored(v, ino, cur, file.fdPos) && Written(cur, s, pos, src, done)
             && file.fdPos == pos + done
    requires OnCourse(file.fdPos, |src| - done, ino.iSize, |ino.data|, v.bsize)
    requires done < |src| && pos + |src| < WORD_LIMIT && |ioBuf| == v.bsize
             && Fitting(known, |ino.data|, ino.iSize, v.bsize)
    modifies v, v.balloc, ino, file
    ensures |ioBuf'| == v.bsize && v.Valid() && OthersKept(v, ino) && old(|ino.data|) <= |ino.data|
    ensures done <= done' <= |src| && file.fdPos == pos + done' && (status == Ok ==> done < done')
    ensures Stored(v, ino, cur', file.fdPos) && Written(cur', s, pos, src, done')
    ensures status == NoSpace ==> v.balloc.Full() && v.FileLegible(ino) && PastLast(file.fdPos, |ino.data|, v.bsize)
    ensures status == NoSpace ==> done' == done && ino.data == old(ino.data) && ino.iSize == old(ino.iSize)
    ensures status == Ok ==> Ready(v, ino) && file.fdPos <= ino.iSize
    ensures status == Ok ==> OnCourse(file.fdPos, |src| - done', ino.iSize, |ino.data|, v.bsize)
    ensures status == Ok ==> Fitting(known, |ino.data|, ino.iSize, v.bsize)
  {
    var idx, off, chunk := Locate(file.fdPos, |src| - done, v.bsize);
    var c := src[done..done + chunk];
    status, ioBuf' := WriteHere(v, ino, file, idx, off, c, ioBuf, cur, |src| - done, known);
    if status == NoSpace {
      IsPastLast(file.fdPos, idx, off, v.bsize);
      return status, done, ioBuf', cur;
    }
    cur' := Splice(cur, pos + done, c);
    WrittenNext(cur, s, pos, src, done, chunk);
    done' := done + chunk;
  }

  method WriteAll(v: Volume, ino: Inode, file: File, src: seq<byte>, ghost s: seq<byte>)
    returns (status: Status, done: nat, ghost s': seq<byte>)
    requires Ready(v, ino) && Stored(v, ino, s, file.fdPos)
    requires OnCourse(file.fdPos, |src|, ino.iSize, |ino.data|, v.bsize) && file.fdPos + |src| < WORD_LIMIT
    modifies v, v.balloc, ino, file
    ensures v.Valid() && OthersKept(v, ino) && old(|ino.data|) <= |ino.data|
    ensures done <= |src| && file.fdPos == old(file.fdPos) + done && (status == Ok <==> done == |src|)
    ensures Stored(v, ino, s', file.fdPos) && Written(s', s, old(file.fdPos), src, done)
    ensures if done == 0 then ino.iSize == old(ino.iSize) else file.fdPos <= ino.iSize
    ensures status == NoSpace ==> v.balloc.Full() && v.FileLegible(ino) && PastLast(file.fdPos, |ino.data|, v.bsize)
    ensures status == Ok ==> Ready(v, ino)
    ensures old(Packed(v, ino)) ==> Packed(v, ino)
  {
    var ioBuf := Zeros(v.bsize);
    ghost var pos, known := file.fdPos, Packed(v, ino);
    done, s', status := 0, s, Ok;
    WrittenStart(s, pos, src);
    while done < |src|
      invariant 0 <= done <= |src| && |ioBuf| == v.bsize && file.fdPos == pos + done && status == Ok
      invariant Ready(v, ino) && OthersKept(v, ino) && Stored(v, ino, s', file.fdPos) && Written(s', s, pos, src, done)
      invariant OnCourse(file.fdPos, |src| - done, ino.iSize, |ino.data|, v.bsize) && old(|ino.data|) <= |ino.data|
      invariant if done == 0 then ino.iSize == old(ino.iSize) else file.fdPos <= ino.iSize
      invariant Fitting(known, |ino.data|, ino.iSize, v.bsize)
    {
      status, done, ioBuf, s' := WriteNext(v, ino, file, src, done, ioBuf, s, pos, s', known);
      if status == NoSpace {
        return;
      }
    }
  }

  /**
   `ext2_file_write`, for every file in place and every position from which it lands: `ServedIff` says which these are,
   and `AppendServesPosition` that a block is attached elsewhere or behind a hole otherwise. The bytes are spliced in at
   the position, in place and past the old end, and no other file changes. The write stops short only on a full disk,
   at a position the file has no block for; what was written until then is there, and the position is behind it.
   */
  method FileWrite(v: Volume, ino: Inode, file: File, src: seq<byte>) returns (status: Status, written: nat)
    requires Ready(v, ino) && Lands(file.fdPos, |src|, ino.iSize, |ino.data|, v.bsize)
             && file.fdPos + |src| < WORD_LIMIT
    modifies v, v.balloc, ino, file
    ensures v.Valid() && OthersKept(v, ino) && file.fdPos == old(file.fdPos) + written && written <= |src|
    ensures status == Ok ==> written == |src| && Ready(v, ino)
    ensures status == NoSpace ==> written < |src| && v.balloc.Full() && v.FileLegible(ino)
    ensures status == NoSpace ==> file.fdPos / v.bsize == |ino.data|
    ensures status == NoSpace ==> (old(file.fdPos) + |src| - 1) / v.bsize >= old(|ino.data|)
    ensures old(Packed(v, ino)) ==> Packed(v, ino)
    ensures written == 0 ==> Bytes(v, ino) == old(Bytes(v, ino))
    ensures written > 0 ==>
              Bytes(v, ino) == Splice(old(BytesTo(v, ino, file.fdPos)), old(file.fdPos), src[..written])
  {
    OnCourseMeans(file.fdPos, |src|, ino.iSize, |ino.data|, v.bsize);
    ghost var pos := file.fdPos;
    status, written := WriteSpliced(v, ino, file, src);
    if status == NoSpace {
      NeededBlock(pos, |src|, written, old(|ino.data|), |ino.data|, v.bsize);
    }
  }

  method WriteSpliced(v: Volume, ino: Inode, file: File, src: seq<byte>) returns (status: Status, written: nat)
    requires Ready(v, ino) && OnCourse(file.fdPos, |src|, ino.iSize, |ino.data|, v.bsize)
             && file.fdPos + |src| < WORD_LIMIT
    modifies v, v.balloc, ino, file
    ensures v.Valid() && OthersKept(v, ino) && file.fdPos == old(file.fdPos) + written && written <= |src|
    ensures status == Ok ==> written == |src| && Ready(v, ino)
    ensures status == NoSpace ==> written < |src| && v.balloc.Full() && v.FileLegible(ino)
    ensures status == NoSpace ==> PastLast(file.fdPos, |ino.data|, v.bsize) && old(|ino.data|) <= |ino.data|
    ensures old(Packed(v, ino)) ==> Packed(v, ino)
    ensures written == 0 ==> Bytes(v, ino) == old(Bytes(v, ino))
    ensures written > 0 ==>
              Bytes(v, ino) == Splice(old(BytesTo(v, ino, file.fdPos)), old(file.fdPos), src[..written])
  {
    ghost var s, pos := BytesTo(v, ino, file.fdPos), file.fdPos;
    StoredBytes(v, ino, s, pos);
    ghost var s';
    status, written, s' := WriteAll(v, ino, file, src, s);
    WrittenSoFar(s', s, pos, src, written);
    StoredBytes(v, ino, s', file.fdPos);
    if written == 0 {
      SameBytes(old(v.disk), v.disk, old(ino.data), ino.data, ino.iSize, Top(pos, ino.iSize), v.bsize);
    }
  }

  lemma SameBytes(disk: Disk, disk': Disk, data: seq<nat>, data': seq<nat>, size: nat, more: nat, bs: nat)
    requires bs > 0 && size <= more && Contents(disk', data', more, bs) == Contents(disk, data, more, bs)
    ensures Contents(disk', data', size, bs) == Contents(disk, data, size, bs)
  {
    forall q | 0 <= q < size
      ensures FileByte(disk', data', bs, q) == FileByte(disk, data, bs, q)
    {
      assert Contents(disk', data', more, bs)[q] == Contents(disk, data, more, bs)[q];
    }
  }

  // ---- Reading ----

  /** What the lookup of the code gives at position `q`, in the file or not. */
  ghost function SeenByte(disk: Disk, iBlock: seq<word>, bs: nat, q: nat): byte
    requires BlockSize(bs) && |iBlock| == SLOTS
  {
    var p := Bmap(disk, iBlock, q / bs, bs / 4);
    if p != 0 && p < |disk| && q % bs < |disk[p]| then disk[p][q % bs] else 0
  }

  /** `r` is what is seen from `pos` on, positions taken modulo 2^32 (kept folded in the loop below). */
  ghost predicate Seen(r: seq<byte>, disk: Disk, iBlock: seq<word>, bs: nat, pos: nat) {
    && BlockSize(bs) && |iBlock| == SLOTS
    && forall u :: Look(r, u)
         ==> forall k :: 0 <= k < |r| ==> r[k] == SeenByte(disk, iBlock, bs, (pos + k) % WORD_LIMIT)
  }

  lemma SeenMore(r: seq<byte>, piece: seq<byte>, disk: Disk, iBlock: seq<word>, bs: nat, pos: nat)
    requires Seen(r, disk, iBlock, bs, pos) && Seen(piece, disk, iBlock, bs, (pos + |r|) % WORD_LIMIT)
    ensures Seen(r + piece, disk, iBlock, bs, pos)
  {
    assert Look(r, 0) && Look(piece, 0);
    forall k | 0 <= k < |r + piece|
      ensures (r + piece)[k] == SeenByte(disk, iBlock, bs, (pos + k) % WORD_LIMIT)
    {
      if k >= |r| {
        WrapSum(pos + |r|, k - |r|);
        assert piece[k - |r|] == SeenByte(disk, iBlock, bs, ((pos + |r|) % WORD_LIMIT + (k - |r|)) % WORD_LIMIT);
      }
    }
  }

  lemma WrapSum(a: nat, b: nat)
    ensures (a % WORD_LIMIT + b) % WORD_LIMIT == (a + b) % WORD_LIMIT
  {
  }

  lemma ChunkBelowLimit(pos: word, bs: nat)
    requires BlockSize(bs)
    ensures pos + (bs - pos % bs) <= WORD_LIMIT
  {
    if bs == 1024 {
    } else if bs == 2048 {
    } else {
    }
  }

  /** The part of one block that a chunk covers, as seen from its position. */
  lemma ChunkSeen(r: seq<byte>, disk: Disk, iBlock: seq<word>, bs: nat, pos: nat, idx: nat, off: nat)
    requires pos < WORD_LIMIT && BlockSize(bs) && |iBlock| == SLOTS && PosIs(pos, idx, off, bs) && |r| <= bs - off
    requires var p := Bmap(disk, iBlock, idx, bs / 4);
             if p != 0 && p < |disk| && |disk[p]| == bs then r == disk[p][off..off + |r|]
             else (p == 0 || p >= |disk|) && forall k :: 0 <= k < |r| ==> r[k] == 0
    ensures Seen(r, disk, iBlock, bs, pos)
  {
    assert Look(pos, 0);
    ChunkBelowLimit(pos, bs);
    forall k | 0 <= k < |r|
      ensures r[k] == SeenByte(disk, iBlock, bs, (pos + k) % WORD_LIMIT)
    {
      ChunkRange(pos + k, pos, |r|, bs);
      assert (pos + k) % WORD_LIMIT == pos + k;
    }
  }

  lemma SeenThrough(disk: Disk, iBlock: seq<word>, data: seq<nat>, bs: nat, q: nat)
    requires BlockSize(bs) && |iBlock| == SLOTS
    requires Bmap(disk, iBlock, q / bs, bs / 4) == if q / bs < |data| then data[q / bs] else 0
    requires q / bs < |data| ==> data[q / bs] != 0
    ensures SeenByte(disk, iBlock, bs, q) == FileByte(disk, data, bs, q)
  {
  }

  /** What is seen is the file: wherever it has a block, and everywhere when block 0 is blank. */
  lemma SeenIsFile(disk: Disk, used: set<nat>, iBlock: seq<word>, iBlocks: nat, trees: seq<Tree>, data: seq<nat>,
                   own: set<nat>, index: set<nat>, bs: nat, w: nat, q: word)
    requires BlockSize(bs) && Placed(disk, used, iBlock, iBlocks, trees, data, own, index, bs / 4, w)
    requires BlankBoot(disk, bs / 4) || (q / bs < |data| && BlankWord(disk, bs / 4))
    ensures Shows(disk, iBlock, bs, q, FileByte(disk, data, bs, q))
  {
    SizeFits(q, bs);
    PlacedData(disk, used, iBlock, iBlocks, trees, data, own, index, bs / 4, w);
    PlacedBmapEverywhere(disk, used, iBlock, iBlocks, trees, data, own, index, bs / 4, w, q / bs);
    SeenThrough(disk, iBlock, data, bs, q);
  }

  /** The number of bytes a read asks for, in the 32-bit unsigned arithmetic of the code. */
  function ReadLength(fdPos: word, count: nat, iSize: word): word
    requires count < 0x8000_0000
  {
    if (fdPos + count) % WORD_LIMIT > iSize then (iSize - fdPos) % WORD_LIMIT else count
  }

  /** The request is cut at the end of the file exactly when the position is within it and the sum does not wrap. */
  lemma ReadLengthIsCut(fdPos: word, count: nat, iSize: word)
    requires count < 0x8000_0000
    ensures var rest := if fdPos <= iSize then iSize - fdPos else 0;
            ReadLength(fdPos, count, iSize) == (if count < rest then count else rest)
            <==> fdPos <= iSize && fdPos + count < WORD_LIMIT
  {
  }

  /** A failing case: one past the end, any request that does not wrap is taken for 2^32 - 1 bytes. */
  lemma ReadPastEndRunsOn(count: nat, iSize: word)
    requires count < 0x8000_0000 && iSize + 1 + count < WORD_LIMIT
    ensures ReadLength(iSize + 1, count, iSize) == WORD_LIMIT - 1
  {
  }

  method ReadChunk(v: Volume, ino: Inode, pos: nat, idx: nat, off: nat, len: nat) returns (r: seq<byte>)
    requires pos < WORD_LIMIT && v.Valid() && |ino.iBlock| == SLOTS && PosIs(pos, idx, off, v.bsize)
             && len <= v.bsize - off && off < v.bsize
    ensures |r| == len && Seen(r, v.disk, ino.iBlock, v.bsize, pos)
  {
    var phys := Bmap(v.disk, ino.iBlock, idx, v.N());
    if phys == 0 || phys >= |v.disk| {
      r := Zeros(len);
    } else {
      BlockIsSized(v, phys as nat);
      r := v.disk[phys][off..off + len];
    }
    ChunkSeen(r, v.disk, ino.iBlock, v.bsize, pos, idx, off);
  }

  method ReadAll(v: Volume, ino: Inode, file: File, size: nat) returns (r: seq<byte>)
    requires v.Valid() && |ino.iBlock| == SLOTS
    modifies file
    ensures |r| == size && Seen(r, v.disk, ino.iBlock, v.bsize, old(file.fdPos))
    ensures file.fdPos == (old(file.fdPos) + |r|) % WORD_LIMIT
  {
    r := [];
    ghost var pos := file.fdPos;
    while |r| < size
      invariant |r| <= size && file.fdPos == (pos + |r|) % WORD_LIMIT
      invariant Seen(r, v.disk, ino.iBlock, v.bsize, pos)
      decreases size - |r|
    {
      var idx, off, chunk := Locate(file.fdPos, size - |r|, v.bsize);
      var piece := ReadChunk(v, ino, file.fdPos, idx, off, chunk);
      SeenMore(r, piece, v.disk, ino.iBlock, v.bsize, pos);
      WrapSum(pos + |r|, chunk);
      r := r + piece;
      file.fdPos := (file.fdPos + chunk) % WORD_LIMIT;
    }
  }

  /** The `count` bytes from `pos` on, or fewer where the file ends before. */
  ghost function CutAtEnd(s: seq<byte>, pos: nat, count: nat): seq<byte>
    requires pos <= |s|
  {
    s[pos..if pos + count < |s| then pos + count else |s|]
  }

  /**
   `ext2_file_read`, for every position and count: as many bytes as the 32-bit arithmetic says, each what the lookup
   gives. From a position within the file, when the sum does not wrap, they are the slice of the file cut at its end.
   */
  method FileRead(v: Volume, ino: Inode, file: File, count: nat) returns (r: seq<byte>)
    requires Ready(v, ino) && count < 0x8000_0000
    modifies file
    ensures |ino.iBlock| == SLOTS && |r| == ReadLength(old(file.fdPos), count, ino.iSize)
    ensures Seen(r, v.disk, ino.iBlock, v.bsize, old(file.fdPos))
    ensures Readable(v, ino, old(file.fdPos), count) ==> r == CutAtEnd(Bytes(v, ino), old(file.fdPos), count)
    ensures file.fdPos == (old(file.fdPos) + |r|) % WORD_LIMIT
  {
    PointersOfReady(v, ino);
    ghost var pos := file.fdPos;
    r := ReadAll(v, ino, file, ReadLength(file.fdPos, count, ino.iSize));
    ReadOutcome(v, ino, pos, count, r);
  }

  /** The lookup is right throughout the file: it has all its blocks, or block 0 is blank. */
  ghost predicate Mapped(v: Volume, ino: Inode)
    reads v, ino
  {
    forall u :: Look(ino.data, u) ==> Packed(v, ino) || BlankBoot(v.disk, v.N())
  }

  ghost predicate Readable(v: Volume, ino: Inode, pos: nat, count: nat)
    reads v, ino
  {
    pos <= ino.iSize && pos + count < WORD_LIMIT && Mapped(v, ino)
  }

  lemma PointersOfReady(v: Volume, ino: Inode)
    requires v.FileOk(ino)
    ensures |ino.iBlock| == SLOTS
  {
    assert Look(ino.trees, 0);
  }

  lemma ReadOutcome(v: Volume, ino: Inode, pos: word, count: nat, r: seq<byte>)
    requires Ready(v, ino) && count < 0x8000_0000
    requires |r| == ReadLength(pos, count, ino.iSize) && Seen(r, v.disk, ino.iBlock, v.bsize, pos)
    ensures Readable(v, ino, pos, count) ==> r == CutAtEnd(Bytes(v, ino), pos, count)
  {
    if Readable(v, ino, pos, count) {
      ReadIsSlice(v, ino, pos, count, r);
    }
  }

  lemma ReadIsSlice(v: Volume, ino: Inode, pos: word, count: nat, r: seq<byte>)
    requires Ready(v, ino) && Readable(v, ino, pos, count) && count < 0x8000_0000
    requires |r| == ReadLength(pos, count, ino.iSize) && Seen(r, v.disk, ino.iBlock, v.bsize, pos)
    ensures r == CutAtEnd(Bytes(v, ino), pos, count)
  {
    ReadLengthIsCut(pos, count, ino.iSize);
    var end := if pos + count < ino.iSize then pos + count else ino.iSize;
    assert |r| == end - pos;
    forall k | 0 <= k < |r|
      ensures r[k] == Bytes(v, ino)[pos + k]
    {
      SeenHere(v, ino, pos, r, k);
    }
  }

  ghost predicate Shows(disk: Disk, iBlock: seq<word>, bs: nat, q: nat, b: byte) {
    BlockSize(bs) && |iBlock| == SLOTS && forall u :: Look(q, u) ==> SeenByte(disk, iBlock, bs, q) == b
  }

  lemma ShowsOne(disk: Disk, iBlock: seq<word>, bs: nat, q: nat, a: byte, b: byte)
    requires Shows(disk, iBlock, bs, q, a) && Shows(disk, iBlock, bs, q, b)
    ensures a == b
  {
    assert Look(q, 0);
  }

  lemma SeenShows(r: seq<byte>, disk: Disk, iBlock: seq<word>, bs: nat, pos: nat, k: nat)
    requires Seen(r, disk, iBlock, bs, pos) && k < |r| && pos + k < WORD_LIMIT
    ensures Shows(disk, iBlock, bs, pos + k, r[k])
  {
    assert Look(r, 0);
    assert (pos + k) % WORD_LIMIT == pos + k;
  }

  lemma SeenHere(v: Volume, ino: Inode, pos: word, r: seq<byte>, k: nat)
    requires Ready(v, ino) && Mapped(v, ino)
    requires Seen(r, v.disk, ino.iBlock, v.bsize, pos) && k < |r| && pos + k < ino.iSize
    ensures r[k] == Bytes(v, ino)[pos + k]
  {
    assert Look(ino.data, 0);
    SeenShows(r, v.disk, ino.iBlock, v.bsize, pos, k);
    if Packed(v, ino) {
      BlocksReach(|ino.data|, ino.iSize, pos + k, v.bsize);
    }
    SeenIsFile(v.disk, v.used, ino.iBlock, ino.iBlocks, ino.trees, ino.data, ino.own, ino.index, v.bsize, v.W(),
               pos + k);
    ShowsOne(v.disk, ino.iBlock, v.bsize, pos + k, r[k], Bytes(v, ino)[pos + k]);
  }

  lemma BlocksReach(count: nat, size: nat, q: nat, bs: nat)
    requires BlockSize(bs) && Holds(count, size, bs) && q < size
    ensures q / bs < count
  {
    assert Look(size, 0);
    PositionInBlock(q, size, bs);
  }

  /**
   Another file, whose blocks are all its own, is the same after a change that spares the blocks in use outside `own1`.
   */
  lemma OtherFileUntouched(disk: Disk, disk': Disk, used: set<nat>, used': set<nat>, own1: set<nat>,
                           iBlock: seq<word>, iBlocks: nat, trees: seq<Tree>, data: seq<nat>, own: set<nat>,
                           index: set<nat>, n: nat, w: nat, size: nat)
    requires Placed(disk, used, iBlock, iBlocks, trees, data, own, index, n, w) && own !! own1
    requires n > 0 && Sized(disk', n) && |disk'| == |disk| && own <= used'
    requires forall b :: 0 <= b < |disk| && b in used && b !in own1 ==> disk'[b] == disk[b]
    ensures Placed(disk', used', iBlock, iBlocks, trees, data, own, index, n, w)
    ensures Contents(disk', data, size, 4 * n) == Contents(disk, data, size, 4 * n)
  {
    PlacedData(disk, used, iBlock, iBlocks, trees, data, own, index, n, w);
    PlacedAfterWrite(disk, disk', used, iBlock, iBlocks, trees, data, own, index, n, w);
    assert Look(trees, 0);
    assert InPlace(disk', used', iBlock, iBlocks, trees, data, own, index, n, w);
  }

  // ---- Seeking ----

  datatype Whence = SeekSet | SeekCur | SeekEnd | Unknown

  /** A 32-bit pattern read as a signed number. */
  function Signed(x: int): int {
    var y := x % WORD_LIMIT;
    if y < 0x8000_0000 then y else y - WORD_LIMIT
  }

  /** It is the one number of the signed range that is the same modulo 2^32, so the number itself within the range. */
  lemma SignedIs(x: int)
    ensures -0x8000_0000 <= Signed(x) < 0x8000_0000 && (Signed(x) - x) % WORD_LIMIT == 0
    ensures -0x8000_0000 <= x < 0x8000_0000 ==> Signed(x) == x
  {
  }

  /** The unsigned operand is read as signed first; the sum is the same. */
  lemma SignedSum(a: nat, b: int)
    ensures Signed(Signed(a) + b) == Signed(a + b)
  {
    assert (a % WORD_LIMIT + b) % WORD_LIMIT == (a + b) % WORD_LIMIT;
    assert (a % WORD_LIMIT - WORD_LIMIT + b) % WORD_LIMIT == (a + b) % WORD_LIMIT;
  }

  method NewPos(fdPos: nat, iSize: nat, offset: int, whence: Whence) returns (newPos: int)
    requires whence != Unknown
    ensures whence == SeekSet ==> newPos == offset
    ensures whence == SeekCur ==> newPos == Signed(fdPos + offset)
    ensures whence == SeekEnd ==> newPos == Signed(iSize + offset)
  {
    match whence {
      case SeekSet =>
        newPos := offset;
      case SeekCur =>
        newPos := Signed(Signed(fdPos) + offset);
        SignedSum(fdPos, offset);
      case SeekEnd =>
        newPos := Signed(Signed(iSize) + offset);
        SignedSum(iSize, offset);
    }
  }

  /**
   `ext2_generic_lseek` on a regular file or a directory; None stands for EINVAL. A sum that leaves the signed range
   wraps around; `SignedIs` says that it is exact otherwise.
   */
  method Seek(file: File, iSize: nat, offset: int, whence: Whence) returns (r: Option<nat>)
    requires iSize < WORD_LIMIT && -0x8000_0000 <= offset < 0x8000_0000
    modifies file
    ensures file.fdPos == if r.Some? then r.value else old(file.fdPos)
    ensures whence == Unknown ==> r.None?
    ensures whence == SeekSet ==> r == if 0 <= offset <= iSize then Some(offset) else None
    ensures whence == SeekCur ==>
              var to := Signed(old(file.fdPos) + offset);
              r == if 0 <= to <= iSize then Some(to) else None
    ensures whence == SeekEnd ==>
              var to := Signed(iSize + offset);
              r == if 0 <= to <= iSize then Some(to) else None
  {
    if whence == Unknown {
      return None;
    }
    var newPos := NewPos(file.fdPos, iSize, offset, whence);
    if newPos < 0 || newPos > iSize {
      return None;
    }
    file.fdPos := newPos;
    r := Some(newPos);
  }

  // ---- Calls together ----

  method SeekRead(v: Volume, ino: Inode, file: File, pos: nat, len: nat) returns (r: seq<byte>)
    requires Ready(v, ino) && Packed(v, ino) && pos < 0x8000_0000 && len < 0x8000_0000 && pos + len <= ino.iSize
    modifies file
    ensures r == Bytes(v, ino)[pos..pos + len] && file.fdPos == pos + len
  {
    var to := Seek(file, ino.iSize, pos, SeekSet);
    assert Readable(v, ino, pos, len);
    r := FileRead(v, ino, file, len);
    NoWrap(pos, |r|);
  }

  lemma NoWrap(a: nat, b: nat)
    requires a + b < WORD_LIMIT
    ensures (a + b) % WORD_LIMIT == a + b
  {
  }

  /** What was written is what a seek back and a read return. */
  method WriteSeekRead(v: Volume, ino: Inode, file: File, src: seq<byte>)
    returns (status: Status, written: nat, r: seq<byte>)
    requires Ready(v, ino) && Packed(v, ino) && Lands(file.fdPos, |src|, ino.iSize, |ino.data|, v.bsize)
    requires file.fdPos + |src| < WORD_LIMIT && file.fdPos < 0x8000_0000 && |src| < 0x8000_0000
    modifies v, v.balloc, ino, file
    ensures status == NoSpace ==> v.balloc.Full() && (old(file.fdPos) + |src| - 1) / v.bsize >= old(|ino.data|)
    ensures Packed(v, ino) && file.fdPos == old(file.fdPos) + written
    ensures status == Ok ==> r == src && Ready(v, ino) && written == |src|
  {
    var pos := file.fdPos;
    ghost var s := BytesTo(v, ino, pos);
    r := [];
    status, written := FileWrite(v, ino, file, src);
    if status == Ok && written > 0 {
      assert src[..written] == src;
      SpliceReadsBack(s, pos, src);
      r := SeekRead(v, ino, file, pos, |src|);
    }
  }

  /** Writing to one file leaves another one, with blocks of its own, in place and as it was. */
  method WriteBeside(v: Volume, ino: Inode, other: Inode, file: File, src: seq<byte>)
    returns (status: Status, written: nat)
    requires Ready(v, ino) && v.FileOk(other) && ino != other && ino.own !! other.own
    requires Lands(file.fdPos, |src|, ino.iSize, |ino.data|, v.bsize) && file.fdPos + |src| < WORD_LIMIT
    modifies v, v.balloc, ino, file
    ensures v.FileOk(other) && ino.own !! other.own && Bytes(v, other) == old(Bytes(v, other))
    ensures status == Ok ==> Ready(v, ino)
  {
    PlacedData(v.disk, v.used, other.iBlock, other.iBlocks, other.trees, other.data, other.own, other.index, v.N(),
               v.W());
    status, written := FileWrite(v, ino, file, src);
    KeptBeside(v, old(v.disk), old(v.used), old(ino.own), other);
  }

  lemma KeptBeside(v: Volume, disk0: Disk, used0: set<nat>, own1: set<nat>, other: Inode)
    requires v.Valid() && other.own !! own1 && |v.disk| == |disk0| && other.own <= v.used
    requires Placed(disk0, used0, other.iBlock, other.iBlocks, other.trees, other.data, other.own, other.index, v.N(),
                    v.W())
    requires forall b :: 0 <= b < |disk0| && b in used0 && b !in own1 ==> v.disk[b] == disk0[b]
    ensures v.FileOk(other) && Bytes(v, other) == Contents(disk0, other.data, other.iSize, v.bsize)
  {
    BlockIsSized(v, 0);
    OtherFileUntouched(disk0, v.disk, used0, v.used, own1, other.iBlock, other.iBlocks, other.trees, other.data,
                       other.own, other.index, v.N(), v.W(), other.iSize);
  }

  /** A new inode is a file in place, without blocks. */
  lemma EmptyPlaced(disk: Disk, used: set<nat>, n: nat, w: nat)
    requires Fanout(n) && Sized(disk, n)
    ensures Placed(disk, used, NoPointers(), 0, NoTrees(), [], {}, {}, n, w)
  {
    NoTreesOk(n);
    EmptyInodeOk(disk, n);
    assert InPlace(disk, used, NoPointers(), 0, NoTrees(), [], {}, {}, n, w);
  }

  /**
   Two cases of a file grown by truncation, with blocks of 1024 bytes. Grown to 10240 bytes without a block, a write at
   0, within the file, has its block attached as block 10, and block 0 stays unmapped. Grown to 10245 bytes with 3
   blocks, a write at 10240 gets the right block, although a hole appears.
   */
  lemma GrownFileWrites(trees: seq<Tree>, phys: nat)
    requires ShapedSlots(trees, 256) && KidsDistinct(trees) && HoleFree(trees, 3, 256)
    requires phys > 0 && phys !in BlocksOf(trees) && forall b :: b in BlocksOf(trees) ==> b > 0
    ensures var grown := NoTrees()[10 := Leaf(phys)];
            ShapedSlots(grown, 256) && MapOf(grown, 0, 256) == 0 && MapOf(grown, 10, 256) == phys
    ensures !Lands(0, 1, 10240, 0, 1024)
    ensures var grown := trees[10 := Leaf(phys)];
            && ShapedSlots(grown, 256) && MapOf(grown, 10, 256) == phys
            && !exists c: nat :: MapsFirst(grown, c, 256)
  {
    NoTreesOk(256);
    DirectPut(NoTrees(), 10, phys);
    DirectPut(trees, 10, phys);
    AppendServesPosition(NoTrees(), Leaf(phys), 0, 0, 10240, phys, 1024);
    AppendServesPosition(trees, Leaf(phys), 3, 10240, 10245, phys, 1024);
  }

  lemma DirectPut(trees: seq<Tree>, a: nat, phys: nat)
    requires ShapedSlots(trees, 256) && a < DIRECT
    ensures SlotOf(a, 256) == a && SlotPath(a, 256) == [] && Put(trees[a], Leaf(phys), [], phys, 256)
  {
  }
}
