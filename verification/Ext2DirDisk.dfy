/**
 fs/ext2/inode.c, directories on the disk: the blocks of a directory are the data blocks of its inode, found through the
 block map, written in place, and added through the allocator and the append of files.
 */
module Ext2Directory {
  import opened Folding
  import opened Options
  import opened Words
  import opened InodeMap
  import opened Ext2File
  import opened Ext2Bytes
  import opened Ext2Dir

  ghost function DataBlocks(disk: BlockTree.Disk, data: seq<nat>): seq<seq<byte>> {
    seq(|data|, i requires 0 <= i < |data| => if data[i] < |disk| then disk[data[i]] else [])
  }

  /** The size of a directory is that of its blocks. */
  ghost predicate Whole(count: nat, size: nat, bs: nat) {
    forall u :: Look(size, u) ==> BlockSize(bs) && size == count * bs
  }

  lemma WholeCounts(count: nat, size: nat, bs: nat)
    requires Whole(count, size, bs)
    ensures BlockSize(bs) && size / bs == count && BlockCount(size, bs) == count && Fills(count, size, bs)
    ensures Whole(count + 1, size + bs, bs)
  {
    assert Look(size, 0);
    if bs == 1024 {
    } else if bs == 2048 {
    } else {
    }
  }

  /** `DirOk`, kept folded. */
  ghost predicate Listed(blocks: seq<seq<byte>>, entries: seq<seq<Entry>>, bs: nat) {
    |entries| == |blocks| && forall u :: Look(entries, u) ==> DirOk(blocks, entries, bs)
  }

  lemma ListedBlock(blocks: seq<seq<byte>>, entries: seq<seq<Entry>>, bs: nat, b: nat)
    requires Listed(blocks, entries, bs) && b < |blocks|
    ensures |blocks[b]| == bs && BlockOk(blocks[b], entries[b])
  {
    assert Look(entries, 0);
  }

  lemma ListedMapping(blocks: seq<seq<byte>>, entries: seq<seq<Entry>>, bs: nat, b: nat, name: Name)
    requires Listed(blocks, entries, bs) && b < |blocks|
    ensures name in Names(entries[b]) ==> name in Mapping(entries) && Mapping(entries)[name] == Names(entries[b])[name]
  {
    assert Look(entries, 0);
    if name in Names(entries[b]) {
      MappingHas(entries, b, name);
    }
  }

  lemma ListedAdd(blocks: seq<seq<byte>>, entries: seq<seq<Entry>>, bs: nat, b: nat, block: seq<byte>, es: seq<Entry>,
                  name: Name, link: Link)
    requires Listed(blocks, entries, bs) && b < |blocks| && name !in Mapping(entries)
    requires |block| == bs && BlockOk(block, es) && Names(es) == Names(entries[b])[name := link]
    ensures Listed(blocks[b := block], entries[b := es], bs)
            && Mapping(entries[b := es]) == Mapping(entries)[name := link]
  {
    assert Look(entries, 0);
    DirAdd(blocks, entries, bs, b, block, es, name, link);
  }

  lemma ListedDrop(blocks: seq<seq<byte>>, entries: seq<seq<Entry>>, bs: nat, b: nat, block: seq<byte>, es: seq<Entry>,
                   name: Name)
    requires Listed(blocks, entries, bs) && b < |blocks| && name in Names(entries[b])
    requires |block| == bs && BlockOk(block, es) && Names(es) == Names(entries[b]) - {name}
    ensures Listed(blocks[b := block], entries[b := es], bs) && Mapping(entries[b := es]) == Mapping(entries) - {name}
  {
    assert Look(entries, 0);
    DirDrop(blocks, entries, bs, b, block, es, name);
  }

  lemma ListedAppend(blocks: seq<seq<byte>>, entries: seq<seq<Entry>>, bs: nat, n: Entry)
    requires Listed(blocks, entries, bs) && n.name !in Mapping(entries) && Fits(n) && n.ino != 0 && n.recLen == bs
    ensures var block := PutEntry(Zeros(bs), 0, n);
            && |block| == bs && Listed(blocks + [block], entries + [[n]], bs)
            && Mapping(entries + [[n]]) == Mapping(entries)[n.name := LinkOf(n)]
  {
    assert Look(entries, 0);
    DirAppend(blocks, entries, bs, n);
  }

  lemma WholeRecord(n: Entry, bs: nat)
    requires BlockSize(bs) && n.recLen == bs && |n.name| < 0x100
    ensures Fits(n)
  {
  }

  /** Rewriting the `b`-th data block changes the `b`-th block of the directory. */
  lemma BlockRewritten(disk: BlockTree.Disk, data: seq<nat>, b: nat, block: seq<byte>)
    requires Apart(data) && b < |data| && forall i :: 0 <= i < |data| ==> data[i] < |disk|
    ensures DataBlocks(disk[data[b] := block], data) == DataBlocks(disk, data)[b := block]
  {
  }

  /** A block added behind the others, after a change that left their bytes alone. */
  lemma BlockAdded(disk: BlockTree.Disk, disk1: BlockTree.Disk, data: seq<nat>, phys: nat, block: seq<byte>,
                   used: set<nat>, index: set<nat>)
    requires Apart(data + [phys]) && |disk1| == |disk| && phys < |disk|
    requires forall i :: 0 <= i < |data| ==> data[i] < |disk| && data[i] in used && data[i] !in index
    requires forall b :: 0 <= b < |disk| && b in used && b !in index ==> disk1[b] == disk[b]
    ensures DataBlocks(disk1[phys := block], data + [phys]) == DataBlocks(disk, data) + [block]
  {
    var all := data + [phys];
    forall i | 0 <= i < |data|
      ensures data[i] != phys
    {
      assert all[i] == data[i] && all[|data|] == phys;
    }
  }

  class Directory {
    const v: Volume
    const ino: Inode
    /** The records of each block. */
    ghost var entries: seq<seq<Entry>>

    ghost predicate Valid()
      reads this, v, v.balloc, ino
    {
      && Ready(v, ino) && Whole(|ino.data|, ino.iSize, v.bsize)
      && Listed(DataBlocks(v.disk, ino.data), entries, v.bsize)
    }

    /** What a directory still is after its disk filled up: the same records in the blocks its pointers lead to. */
    ghost predicate Kept()
      reads this, v, v.balloc, ino
    {
      && v.Valid() && v.FileLegible(ino) && Whole(|ino.data|, ino.iSize, v.bsize)
      && Listed(DataBlocks(v.disk, ino.data), entries, v.bsize)
    }

    ghost function Map(): Dict
      reads this
    {
      Mapping(entries)
    }

    /** The directory of an inode whose blocks are tiled by these records. */
    constructor (v: Volume, ino: Inode, ghost entries: seq<seq<Entry>>)
      requires Ready(v, ino) && Whole(|ino.data|, ino.iSize, v.bsize)
      requires Listed(DataBlocks(v.disk, ino.data), entries, v.bsize)
      ensures Valid() && this.v == v && this.ino == ino && Map() == Mapping(entries)
    {
      this.v, this.ino, this.entries := v, ino, entries;
    }

    /** The number of blocks, as the walks compute it. */
    method Count() returns (n: nat)
      requires Valid()
      ensures n == |ino.data| == |entries|
    {
      WholeCounts(|ino.data|, ino.iSize, v.bsize);
      n := ino.iSize / v.bsize;
    }

    /** The `b`-th block, through the block map; it is never missing. */
    method ReadBlock(b: nat) returns (phys: word, block: seq<byte>)
      requires Valid() && b < |ino.data|
      ensures phys == ino.data[b] && 0 < phys < |v.disk| && block == v.disk[phys] == DataBlocks(v.disk, ino.data)[b]
      ensures |block| == v.bsize && b < |entries| && BlockOk(block, entries[b])
    {
      PlacedData(v.disk, v.used, ino.iBlock, ino.iBlocks, ino.trees, ino.data, ino.own, ino.index, v.N(), v.W());
      BlockIsSized(v, 0);
      PlacedBmapWithin(v.disk, v.used, ino.iBlock, ino.iBlocks, ino.trees, ino.data, ino.own, ino.index, v.N(), v.W(),
                       b);
      ListedBlock(DataBlocks(v.disk, ino.data), entries, v.bsize, b);
      phys := Bmap(v.disk, ino.iBlock, b, v.N());
      block := v.disk[phys];
    }

    /** Write a changed block back. */
    method WriteBlock(b: nat, phys: word, block: seq<byte>, ghost entries': seq<seq<Entry>>)
      requires Valid() && b < |ino.data| && phys == ino.data[b] && |block| == v.bsize
      requires Listed(DataBlocks(v.disk, ino.data)[b := block], entries', v.bsize)
      modifies v`disk, `entries
      ensures Valid() && entries == entries' && OthersKept(v, ino)
    {
      PlacedData(v.disk, v.used, ino.iBlock, ino.iBlocks, ino.trees, ino.data, ino.own, ino.index, v.N(), v.W());
      BlockRewritten(v.disk, ino.data, b, block);
      StoreBlock(v, ino, b, phys, block);
      entries := entries';
    }

    /** `ext2_lookup` */
    method Lookup(name: Name) returns (r: Option<word>)
      requires Valid()
      ensures r == if name in Map() then Some(Map()[name].ino) else None
    {
      var count := Count();
      for b := 0 to count
        invariant forall c :: 0 <= c < b ==> name !in Names(entries[c])
      {
        var phys, block := ReadBlock(b);
        var found, off, _, _ := Search(block, name, entries[b]);
        if found {
          ListedMapping(DataBlocks(v.disk, ino.data), entries, v.bsize, b, name);
          return Some(InoAt(block, off));
        }
      }
      MappingLacks(entries, name);
      r := None;
    }

    /** The first block with room for a record of this length, and the record whose slack it is. */
    method FindRoom(need: nat) returns (b: nat, off: nat, ghost k: nat)
      requires Valid()
      ensures b <= |ino.data| == |entries|
      ensures b < |ino.data| ==>
                && k < |entries[b]| && off == Length(entries[b][..k])
                && Reads(DataBlocks(v.disk, ino.data)[b], off, entries[b][k])
                && entries[b][k].recLen - Need(|entries[b][k].name|) >= need
      ensures forall c :: 0 <= c < b ==> NoRoom(entries[c], need)
    {
      b, off, k := 0, 0, 0;
      var count := Count();
      while b < count
        invariant b <= count && forall c :: 0 <= c < b ==> NoRoom(entries[c], need)
      {
        var phys, block := ReadBlock(b);
        var found;
        found, off, k := FindSlack(block, need, entries[b]);
        if found {
          return;
        }
        b := b + 1;
      }
    }

    /**
     `ext2_add_entry` for a name that is not there yet: split a record that has room, or take a new block from the
     allocator and append it to the inode.
     */
    method Add(name: Name, i: word, ftype: byte) returns (status: Status)
      requires Valid() && name !in Map() && i != 0 && |name| < 0x100 && ino.iSize + v.bsize < WORD_LIMIT
      modifies this, v, v.balloc, ino
      ensures OthersKept(v, ino)
      ensures status == NoSpace ==> forall b :: 0 <= b < |old(entries)| ==> NoRoom(old(entries)[b], Need(|name|))
      ensures status == NoSpace ==> v.balloc.Full() && Kept() && Map() == old(Map())
      ensures status == Ok ==> Valid() && Map() == old(Map())[name := Link(i, ftype)]
      ensures status == Ok ==>
                (|ino.data| > |old(ino.data)|
                 <==> forall b :: 0 <= b < |old(entries)| ==> NoRoom(old(entries)[b], Need(|name|)))
    {
      var b, off, k := FindRoom(Need(|name|));
      var count := Count();
      if b < count {
        AddTo(b, off, name, i, ftype, k);
        status := Ok;
      } else {
        status := AddBlock(name, i, ftype);
      }
    }

    method AddTo(b: nat, off: nat, name: Name, i: word, ftype: byte, ghost k: nat)
      requires Valid() && name !in Map() && i != 0 && |name| < 0x100 && b < |ino.data| == |entries|
      requires k < |entries[b]| && off == Length(entries[b][..k])
               && Reads(DataBlocks(v.disk, ino.data)[b], off, entries[b][k])
      requires entries[b][k].recLen - Need(|entries[b][k].name|) >= Need(|name|)
      modifies v`disk, `entries
      ensures Valid() && Map() == old(Map())[name := Link(i, ftype)] && OthersKept(v, ino)
    {
      var phys, block := ReadBlock(b);
      ghost var es;
      ListedMapping(DataBlocks(v.disk, ino.data), entries, v.bsize, b, name);
      block, es := InsertInto(block, off, name, i, ftype, entries[b], k);
      ListedAdd(DataBlocks(v.disk, ino.data), entries, v.bsize, b, block, es, name, Link(i, ftype));
      WriteBlock(b, phys, block, entries[b := es]);
    }

    method AddBlock(name: Name, i: word, ftype: byte) returns (status: Status)
      requires Valid() && name !in Map() && i != 0 && |name| < 0x100 && ino.iSize + v.bsize < WORD_LIMIT
      modifies this, v, v.balloc, ino
      ensures OthersKept(v, ino)
      ensures status == NoSpace ==> v.balloc.Full() && Kept() && Map() == old(Map())
      ensures status == Ok ==> Valid() && Map() == old(Map())[name := Link(i, ftype)]
      ensures status == Ok ==> |ino.data| == |old(ino.data)| + 1
    {
      var n := Entry(i, v.bsize, name, ftype);
      WholeRecord(n, v.bsize);
      ListedAppend(DataBlocks(v.disk, ino.data), entries, v.bsize, n);
      status := AppendWhole(v, ino, PutEntry(Zeros(v.bsize), 0, n));
      if status == Ok {
        entries := entries + [[n]];
      }
    }

    /** `ext2_remove_entry`: the name goes if it is there, and nothing else changes. */
    method Remove(name: Name) returns (found: bool)
      requires Valid()
      modifies v`disk, `entries
      ensures Valid() && found == (name in old(Map())) && Map() == old(Map()) - {name} && OthersKept(v, ino)
    {
      var count := Count();
      for b := 0 to count
        invariant Valid() && v.disk == old(v.disk) && entries == old(entries)
        invariant forall c :: 0 <= c < b ==> name !in Names(entries[c])
      {
        found := RemoveFrom(b, name);
        if found {
          return;
        }
      }
      MappingLacks(entries, name);
      found := false;
    }

    method RemoveFrom(b: nat, name: Name) returns (found: bool)
      requires Valid() && b < |ino.data| == |entries|
      modifies v`disk, `entries
      ensures Valid() && found == (name in old(Names(entries[b]))) && OthersKept(v, ino)
      ensures found ==> name in old(Map()) && Map() == old(Map()) - {name}
      ensures !found ==> v.disk == old(v.disk) && entries == old(entries)
    {
      var phys, block := ReadBlock(b);
      var off, prev;
      ghost var k, es;
      found, off, prev, k := Search(block, name, entries[b]);
      if found {
        ListedMapping(DataBlocks(v.disk, ino.data), entries, v.bsize, b, name);
        block, es := EraseFrom(block, off, prev, entries[b], k);
        ListedDrop(DataBlocks(v.disk, ino.data), entries, v.bsize, b, block, es, name);
        WriteBlock(b, phys, block, entries[b := es]);
      }
    }
  }

  /** A block taken from the allocator, appended to the inode and written. */
  method AppendStored(v: Volume, ino: Inode, block: seq<byte>) returns (status: Status)
    requires Ready(v, ino) && Fills(|ino.data|, ino.iSize, v.bsize) && |block| == v.bsize
    modifies v, v.balloc, ino`iBlocks, ino`iBlock, ino`trees, ino`data, ino`own, ino`index
    ensures v.Valid() && OthersKept(v, ino)
    ensures status == NoSpace ==> v.balloc.Full() && v.FileLegible(ino) && ino.data == old(ino.data)
    ensures status == NoSpace ==> DataBlocks(v.disk, ino.data) == old(DataBlocks(v.disk, ino.data))
    ensures status == Ok ==> Ready(v, ino) && |ino.data| == |old(ino.data)| + 1
    ensures status == Ok ==> DataBlocks(v.disk, ino.data) == old(DataBlocks(v.disk, ino.data)) + [block]
  {
    PlacedData(v.disk, v.used, ino.iBlock, ino.iBlocks, ino.trees, ino.data, ino.own, ino.index, v.N(), v.W());
    var phys;
    status, phys := GrowByOne(v, ino);
    if status == Ok {
      PlacedData(v.disk, v.used, ino.iBlock, ino.iBlocks, ino.trees, ino.data, ino.own, ino.index, v.N(), v.W());
      assert ino.data[|old(ino.data)|] == phys;
      BlockAdded(old(v.disk), v.disk, old(ino.data), phys, block, old(v.used), old(ino.index));
      StoreBlock(v, ino, |ino.data| - 1, phys, block);
    }
  }

  /** The size of a directory goes up by the whole block. */
  method AppendWhole(v: Volume, ino: Inode, block: seq<byte>) returns (status: Status)
    requires Ready(v, ino) && Whole(|ino.data|, ino.iSize, v.bsize) && |block| == v.bsize
    requires ino.iSize + v.bsize < WORD_LIMIT
    modifies v, v.balloc, ino
    ensures v.Valid() && OthersKept(v, ino) && Whole(|ino.data|, ino.iSize, v.bsize)
    ensures status == NoSpace ==> v.balloc.Full() && v.FileLegible(ino) && ino.data == old(ino.data)
    ensures status == NoSpace ==> DataBlocks(v.disk, ino.data) == old(DataBlocks(v.disk, ino.data))
    ensures status == Ok ==> Ready(v, ino) && |ino.data| == |old(ino.data)| + 1
    ensures status == Ok ==> DataBlocks(v.disk, ino.data) == old(DataBlocks(v.disk, ino.data)) + [block]
  {
    WholeCounts(|ino.data|, ino.iSize, v.bsize);
    status := AppendStored(v, ino, block);
    if status == Ok {
      ino.iSize := ino.iSize + v.bsize;
    }
  }

  /** `ext2_init_dir_block` on a new inode: a directory that holds itself and its parent. */
  method InitDir(v: Volume, ino: Inode, self: word, parent: word, dir: byte)
    returns (status: Status, ghost entries: seq<seq<Entry>>)
    requires Ready(v, ino) && ino.data == [] && ino.iSize == 0 && self != 0 && parent != 0
    modifies v, v.balloc, ino
    ensures v.Valid() && OthersKept(v, ino)
    ensures status == NoSpace ==> v.balloc.Full() && v.FileLegible(ino) && ino.data == []
    ensures status == Ok ==> Ready(v, ino) && Whole(|ino.data|, ino.iSize, v.bsize)
    ensures status == Ok ==> Listed(DataBlocks(v.disk, ino.data), entries, v.bsize)
    ensures status == Ok ==> Mapping(entries) == map[DOT := Link(self, dir), DOTDOT := Link(parent, dir)]
  {
    DirBlockOk(v.bsize, self, parent, dir);
    entries := [[Entry(self, 12, DOT, dir), Entry(parent, v.bsize - 12, DOTDOT, dir)]];
    assert Dicts(entries) == [Names(entries[0])];
    UnionOne(Names(entries[0]));
    status := AppendWhole(v, ino, DirBlock(v.bsize, self, parent, dir));
  }
}
