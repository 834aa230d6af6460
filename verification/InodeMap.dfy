/**
 The fifteen `i_block` slots of an ext2 inode: twelve direct blocks and one tree each of level 1, 2 and 3,
 the map from logical to physical blocks they make up, and `ext2_bmap`, which reads it off the disk.
 */
module InodeMap {
  import opened Words
  import opened BlockTree

  const DIRECT := 12
  const SLOTS := 15

  function SlotLevel(s: nat): nat {
    if s < DIRECT then 0 else s - 11
  }

  /** The first logical block a slot covers. */
  function SlotFirst(s: nat, n: nat): nat {
    if s < DIRECT then s
    else if s == 12 then DIRECT
    else if s == 13 then DIRECT + n
    else DIRECT + n + n * n
  }

  function Capacity(n: nat): nat {
    DIRECT + n + n * n + n * (n * n)
  }

  function SlotOf(i: nat, n: nat): (s: nat)
    ensures s < SLOTS && SlotFirst(s, n) <= i
    ensures i < Capacity(n) ==> i < SlotFirst(s, n) + Span(n, SlotLevel(s))
  {
    SpanUpTo3(n);
    if i < DIRECT then i
    else if i < DIRECT + n then 12
    else if i < DIRECT + n + n * n then 13
    else 14
  }

  function SlotPath(i: nat, n: nat): (path: seq<nat>)
    requires Fanout(n) && i < Capacity(n)
    ensures |path| == SlotLevel(SlotOf(i, n)) && IsPath(path, |path|, n)
    ensures SlotFirst(SlotOf(i, n), n) + Value(path, n) == i
  {
    var s := SlotOf(i, n);
    PathOfIsPath(i - SlotFirst(s, n), SlotLevel(s), n);
    PathOf(i - SlotFirst(s, n), SlotLevel(s), n)
  }

  lemma SlotsConsecutive(s: nat, s': nat, n: nat)
    requires s < s' < SLOTS
    ensures SlotFirst(s, n) + Span(n, SlotLevel(s)) <= SlotFirst(s', n)
  {
    SpanUpTo3(n);
  }

  ghost predicate ShapedSlots(trees: seq<Tree>, n: nat) {
    Fanout(n) && |trees| == SLOTS && forall s :: 0 <= s < SLOTS ==> Shaped(trees[s], SlotLevel(s), n)
  }

  /** The inode's pointers denote these trees on the disk. */
  ghost predicate InodeOk(disk: Disk, iBlock: seq<word>, trees: seq<Tree>, n: nat) {
    && Fanout(n) && Sized(disk, n) && |iBlock| == SLOTS && |trees| == SLOTS
    && forall s :: 0 <= s < SLOTS ==> Represents(disk, iBlock[s], SlotLevel(s), trees[s], n)
  }

  lemma InodeOkShaped(disk: Disk, iBlock: seq<word>, trees: seq<Tree>, n: nat)
    requires InodeOk(disk, iBlock, trees, n)
    ensures ShapedSlots(trees, n)
    ensures forall s :: 0 <= s < SLOTS ==> (trees[s].Null? <==> iBlock[s] == 0)
    ensures forall b :: b in BlocksOf(trees) ==> 0 < b < |disk|
  {
    forall s | 0 <= s < SLOTS
      ensures Shaped(trees[s], SlotLevel(s), n) && (trees[s].Null? <==> iBlock[s] == 0)
      ensures forall b :: b in Blocks(trees[s]) ==> 0 < b < |disk|
    {
      RepresentsIsShaped(disk, iBlock[s], SlotLevel(s), trees[s], n);
    }
  }

  /** The physical block of logical block `i`, 0 when there is none. */
  ghost function MapOf(trees: seq<Tree>, i: nat, n: nat): nat
    requires ShapedSlots(trees, n)
  {
    if i < Capacity(n) then Lookup(trees[SlotOf(i, n)], SlotPath(i, n), n) else 0
  }

  ghost function IndexOf(trees: seq<Tree>): set<nat> {
    set s, x | 0 <= s < |trees| && x in IndexBlocks(trees[s]) :: x
  }

  /** Hole-free with `count` blocks, and no index block that is not needed for them. */
  ghost predicate HoleFree(trees: seq<Tree>, count: nat, n: nat)
    requires ShapedSlots(trees, n)
  {
    forall s :: 0 <= s < SLOTS ==> Dense(trees[s], SlotLevel(s), SlotFirst(s, n), count, n)
  }

  lemma MapIsDataBlock(trees: seq<Tree>, i: nat, n: nat)
    requires ShapedSlots(trees, n) && KidsDistinct(trees) && MapOf(trees, i, n) != 0
    ensures MapOf(trees, i, n) in Blocks(trees[SlotOf(i, n)])
    ensures MapOf(trees, i, n) in BlocksOf(trees) && MapOf(trees, i, n) !in IndexOf(trees)
  {
    var s, x := SlotOf(i, n), MapOf(trees, i, n);
    LookupIsDataBlock(trees[s], SlotPath(i, n), n);
    forall r | 0 <= r < SLOTS
      ensures x !in IndexBlocks(trees[r])
    {
      IndexWithinBlocks(trees[r]);
      assert r < s ==> Blocks(trees[r]) !! Blocks(trees[s]);
      assert s < r ==> Blocks(trees[s]) !! Blocks(trees[r]);
    }
  }

  /** Distinct logical blocks of a file are distinct blocks of the disk. */
  lemma MapIsInjective(trees: seq<Tree>, i: nat, j: nat, n: nat)
    requires ShapedSlots(trees, n) && KidsDistinct(trees)
    requires MapOf(trees, i, n) == MapOf(trees, j, n) != 0
    ensures i == j
  {
    MapIsDataBlock(trees, i, n);
    MapIsDataBlock(trees, j, n);
    var s, r := SlotOf(i, n), SlotOf(j, n);
    assert s == r;
    LookupIsInjective(trees[s], SlotPath(i, n), SlotPath(j, n), n);
  }

  /** A hole-free file maps exactly its first `count` logical blocks. */
  lemma HoleFreeMap(trees: seq<Tree>, count: nat, i: nat, n: nat)
    requires ShapedSlots(trees, n) && HoleFree(trees, count, n) && i < Capacity(n)
    requires forall b :: b in BlocksOf(trees) ==> b > 0
    ensures MapOf(trees, i, n) != 0 <==> i < count
  {
    var s := SlotOf(i, n);
    assert forall b :: b in Blocks(trees[s]) ==> b in BlocksOf(trees);
    DenseLookup(trees[s], SlotFirst(s, n), count, SlotPath(i, n), n);
  }

  /** Appending logical block `count`: that one index is mapped, every other mapping stays. */
  lemma AppendMap(trees: seq<Tree>, t': Tree, count: nat, phys: nat, n: nat)
    requires ShapedSlots(trees, n) && count < Capacity(n)
    requires Inserted(trees[SlotOf(count, n)], t', SlotPath(count, n), phys, n)
    ensures ShapedSlots(trees[SlotOf(count, n) := t'], n)
    ensures MapOf(trees, count, n) == 0
    ensures forall i: nat ::
              MapOf(trees[SlotOf(count, n) := t'], i, n) == if i == count then phys else MapOf(trees, i, n)
  {
    var s := SlotOf(count, n);
    var trees' := trees[s := t'];
    InsertedShaped(trees[s], t', SlotPath(count, n), phys, n);
    forall i: nat
      ensures MapOf(trees', i, n) == if i == count then phys else MapOf(trees, i, n)
    {
      if i < Capacity(n) && SlotOf(i, n) == s {
        InsertedLookup(trees[s], t', SlotPath(count, n), phys, n, SlotPath(i, n));
      }
    }
  }

  /**
   Storing a block number at logical block `a`, in use or not: that one index leads to it, every other mapping stays.
   */
  lemma PutMap(trees: seq<Tree>, t': Tree, a: nat, phys: nat, n: nat)
    requires ShapedSlots(trees, n) && a < Capacity(n)
    requires Put(trees[SlotOf(a, n)], t', SlotPath(a, n), phys, n)
    ensures ShapedSlots(trees[SlotOf(a, n) := t'], n)
    ensures forall i: nat :: MapOf(trees[SlotOf(a, n) := t'], i, n) == if i == a then phys else MapOf(trees, i, n)
  {
    var s := SlotOf(a, n);
    var trees' := trees[s := t'];
    PutLookup(trees[s], t', SlotPath(a, n), phys, n, SlotPath(a, n));
    forall i: nat
      ensures MapOf(trees', i, n) == if i == a then phys else MapOf(trees, i, n)
    {
      if i < Capacity(n) && SlotOf(i, n) == s {
        PutLookup(trees[s], t', SlotPath(a, n), phys, n, SlotPath(i, n));
      }
    }
  }

  /** The mapped logical blocks are the first `count` ones. */
  ghost predicate MapsFirst(trees: seq<Tree>, count: nat, n: nat)
    requires ShapedSlots(trees, n)
  {
    forall i: nat :: i < Capacity(n) ==> (MapOf(trees, i, n) != 0 <==> i < count)
  }

  /**
   A block stored at logical block `a` of a file with `count` blocks, on behalf of logical block `idx`: it serves `idx`
   exactly when `a` is `idx`; the file stays without holes exactly when `a` is not past the end; and the slot was in use
   exactly when `a` is before the end, and then the block that was there is lost to the file.
   */
  lemma PutServes(trees: seq<Tree>, t': Tree, count: nat, a: nat, idx: nat, phys: nat, n: nat)
    requires ShapedSlots(trees, n) && KidsDistinct(trees) && HoleFree(trees, count, n)
    requires idx < Capacity(n) && a < Capacity(n)
    requires phys > 0 && phys !in BlocksOf(trees) && forall b :: b in BlocksOf(trees) ==> b > 0
    requires Put(trees[SlotOf(a, n)], t', SlotPath(a, n), phys, n)
    ensures var trees' := trees[SlotOf(a, n) := t'];
            && ShapedSlots(trees', n)
            && (MapOf(trees', idx, n) == phys <==> a == idx)
            && ((exists c: nat :: MapsFirst(trees', c, n)) <==> a <= count)
            && (MapOf(trees, a, n) != 0 <==> a < count)
            && (a < count ==> forall i: nat :: MapOf(trees', i, n) != MapOf(trees, a, n))
  {
    var trees' := trees[SlotOf(a, n) := t'];
    PutMap(trees, t', a, phys, n);
    forall i: nat | i < Capacity(n)
      ensures MapOf(trees, i, n) != 0 <==> i < count
      ensures MapOf(trees, i, n) != phys
    {
      HoleFreeMap(trees, count, i, n);
      if MapOf(trees, i, n) != 0 {
        MapIsDataBlock(trees, i, n);
      }
    }
    PutHoles(trees, trees', count, a, phys, n);
    if a < count {
      forall i: nat
        ensures MapOf(trees', i, n) != MapOf(trees, a, n)
      {
        if i != a && MapOf(trees, i, n) == MapOf(trees, a, n) {
          MapIsInjective(trees, i, a, n);
        }
      }
    }
  }

  lemma PutHoles(trees: seq<Tree>, trees': seq<Tree>, count: nat, a: nat, phys: nat, n: nat)
    requires ShapedSlots(trees, n) && ShapedSlots(trees', n) && MapsFirst(trees, count, n)
    requires phys > 0 && a < Capacity(n)
    requires forall i: nat :: MapOf(trees', i, n) == if i == a then phys else MapOf(trees, i, n)
    ensures (exists c: nat :: MapsFirst(trees', c, n)) <==> a <= count
  {
    if a < count {
      assert MapsFirst(trees', count, n);
    } else if a == count {
      assert MapsFirst(trees', count + 1, n);
    } else {
      forall c: nat
        ensures !MapsFirst(trees', c, n)
      {
        assert MapOf(trees', a, n) != 0 && MapOf(trees', count, n) == 0;
      }
    }
  }

  ghost function NoTrees(): seq<Tree> {
    seq(SLOTS, _ => Null)
  }

  /** A file without blocks. */
  lemma NoTreesOk(n: nat)
    requires Fanout(n)
    ensures ShapedSlots(NoTrees(), n) && KidsDistinct(NoTrees()) && HoleFree(NoTrees(), 0, n)
    ensures BlocksOf(NoTrees()) == {} && IndexOf(NoTrees()) == {}
    ensures forall i: nat :: MapOf(NoTrees(), i, n) == 0
  {
  }

  /** A slot other than that of logical block `count` is full or empty, with or without that block. */
  lemma OtherSlotDense(t: Tree, r: nat, s: nat, count: nat, n: nat)
    requires n > 0 && r < SLOTS && s < SLOTS && r != s && Shaped(t, SlotLevel(r), n)
    requires SlotFirst(s, n) <= count < SlotFirst(s, n) + Span(n, SlotLevel(s))
    requires Dense(t, SlotLevel(r), SlotFirst(r, n), count, n)
    ensures Dense(t, SlotLevel(r), SlotFirst(r, n), count + 1, n)
  {
    if r < s {
      SlotsConsecutive(r, s, n);
      DenseComplete(t, SlotLevel(r), SlotFirst(r, n), count, count + 1, n);
    } else {
      SlotsConsecutive(s, r, n);
    }
  }

  lemma OwnSlotDense(t: Tree, t': Tree, count: nat, phys: nat, n: nat)
    requires Fanout(n) && count < Capacity(n) && Shaped(t, SlotLevel(SlotOf(count, n)), n)
    requires Inserted(t, t', SlotPath(count, n), phys, n) && Shaped(t', SlotLevel(SlotOf(count, n)), n)
    requires Dense(t, SlotLevel(SlotOf(count, n)), SlotFirst(SlotOf(count, n), n), count, n)
    ensures Dense(t', SlotLevel(SlotOf(count, n)), SlotFirst(SlotOf(count, n), n), count + 1, n)
  {
    InsertedDense(t, t', SlotFirst(SlotOf(count, n), n), SlotPath(count, n), phys, n);
  }

  /** Appending at the end keeps a file hole-free. */
  lemma AppendHoleFree(trees: seq<Tree>, t': Tree, count: nat, phys: nat, n: nat)
    requires ShapedSlots(trees, n) && count < Capacity(n) && HoleFree(trees, count, n)
    requires Inserted(trees[SlotOf(count, n)], t', SlotPath(count, n), phys, n)
    requires ShapedSlots(trees[SlotOf(count, n) := t'], n)
    ensures HoleFree(trees[SlotOf(count, n) := t'], count + 1, n)
  {
    var s := SlotOf(count, n);
    var trees' := trees[s := t'];
    OwnSlotDense(trees[s], t', count, phys, n);
    forall r | 0 <= r < SLOTS && r != s
      ensures Dense(trees'[r], SlotLevel(r), SlotFirst(r, n), count + 1, n)
    {
      OtherSlotDense(trees[r], r, s, count, n);
    }
  }

  // ---- Truncation ----

  ghost function CutSlot(t: Tree, s: nat, cut: nat, n: nat): Tree
    requires Shaped(t, SlotLevel(s), n)
  {
    Cut(t, SlotLevel(s), SlotFirst(s, n), cut, n)
  }

  ghost function CutSlots(trees: seq<Tree>, cut: nat, n: nat): seq<Tree>
    requires ShapedSlots(trees, n)
  {
    seq(SLOTS, s requires 0 <= s < SLOTS => CutSlot(trees[s], s, cut, n))
  }

  ghost function SlotBlocksFrom(trees: seq<Tree>, s: nat, cut: nat, n: nat): set<nat>
    requires ShapedSlots(trees, n) && s < SLOTS
  {
    BlocksFrom(trees[s], SlotLevel(s), SlotFirst(s, n), cut, n)
  }

  /** Every data and index block of the file whose first logical index is at or above the cut. */
  ghost function FileBlocksFrom(trees: seq<Tree>, cut: nat, n: nat): set<nat>
    requires ShapedSlots(trees, n)
  {
    set s, x | 0 <= s < SLOTS && x in SlotBlocksFrom(trees, s, cut, n) :: x
  }

  lemma TruncateSlots(trees: seq<Tree>, cut: nat, n: nat)
    requires ShapedSlots(trees, n) && KidsDistinct(trees)
    ensures ShapedSlots(CutSlots(trees, cut, n), n) && KidsDistinct(CutSlots(trees, cut, n))
    ensures BlocksOf(CutSlots(trees, cut, n)) == BlocksOf(trees) - FileBlocksFrom(trees, cut, n)
    ensures FileBlocksFrom(trees, cut, n) <= BlocksOf(trees)
  {
    var cs := CutSlots(trees, cut, n);
    forall s | 0 <= s < SLOTS
      ensures Shaped(cs[s], SlotLevel(s), n) && Distinct(cs[s])
      ensures Blocks(cs[s]) == Blocks(trees[s]) - SlotBlocksFrom(trees, s, cut, n)
      ensures SlotBlocksFrom(trees, s, cut, n) <= Blocks(trees[s])
    {
      CutBlocks(trees[s], SlotLevel(s), SlotFirst(s, n), cut, n);
      BlocksFromWithin(trees[s], SlotLevel(s), SlotFirst(s, n), cut, n);
    }
    forall x
      ensures x in BlocksOf(cs) <==> x in BlocksOf(trees) && x !in FileBlocksFrom(trees, cut, n)
    {
      if x in BlocksOf(trees) {
        var s :| 0 <= s < SLOTS && x in Blocks(trees[s]);
        assert forall r :: 0 <= r < SLOTS && r != s ==> x !in Blocks(trees[r]);
        assert x in FileBlocksFrom(trees, cut, n) <==> x in SlotBlocksFrom(trees, s, cut, n);
      }
    }
  }

  /** A data block of the file is among those freed exactly when its logical index is at or above the cut. */
  lemma TruncateFrees(trees: seq<Tree>, cut: nat, n: nat, i: nat)
    requires ShapedSlots(trees, n) && KidsDistinct(trees) && MapOf(trees, i, n) != 0
    ensures MapOf(trees, i, n) in FileBlocksFrom(trees, cut, n) <==> i >= cut
  {
    var s, x := SlotOf(i, n), MapOf(trees, i, n);
    LookupCut(trees[s], SlotFirst(s, n), cut, n, SlotPath(i, n));
    LookupIsDataBlock(trees[s], SlotPath(i, n), n);
    forall r | 0 <= r < SLOTS && r != s
      ensures x !in SlotBlocksFrom(trees, r, cut, n)
    {
      BlocksFromWithin(trees[r], SlotLevel(r), SlotFirst(r, n), cut, n);
      assert r < s ==> Blocks(trees[r]) !! Blocks(trees[s]);
      assert s < r ==> Blocks(trees[s]) !! Blocks(trees[r]);
    }
    assert x in FileBlocksFrom(trees, cut, n) <==> x in SlotBlocksFrom(trees, s, cut, n);
  }

  /** After truncation: unchanged below the cut, unmapped from it on. */
  lemma TruncateMap(trees: seq<Tree>, cut: nat, n: nat, i: nat)
    requires ShapedSlots(trees, n) && ShapedSlots(CutSlots(trees, cut, n), n)
    ensures MapOf(CutSlots(trees, cut, n), i, n) == if i < cut then MapOf(trees, i, n) else 0
  {
    if i < Capacity(n) {
      var s := SlotOf(i, n);
      CutLookup(trees[s], SlotFirst(s, n), cut, n, SlotPath(i, n));
    }
  }

  lemma TruncateHoleFree(trees: seq<Tree>, cut: nat, count: nat, n: nat)
    requires ShapedSlots(trees, n) && ShapedSlots(CutSlots(trees, cut, n), n)
    requires HoleFree(trees, count, n)
    ensures HoleFree(CutSlots(trees, cut, n), if cut < count then cut else count, n)
  {
    forall s | 0 <= s < SLOTS
      ensures Dense(CutSlots(trees, cut, n)[s], SlotLevel(s), SlotFirst(s, n), if cut < count then cut else count, n)
    {
      CutDense(trees[s], SlotLevel(s), SlotFirst(s, n), cut, count, n);
    }
  }

  // ---- ext2_bmap ----

  /** Word `k` of block `b`. A block number past the end of the volume lies outside this model and reads as 0. */
  function ReadPtr(disk: Disk, b: nat, k: nat): word {
    if b < |disk| && 4 * k + 4 <= |disk[b]| then Ptr(disk[b], k) else 0
  }

  /** Two pointers followed without testing them. */
  function ReadDouble(disk: Disk, p: word, i: nat, n: nat): word
    requires n > 0
  {
    ReadPtr(disk, ReadPtr(disk, p, i / n), i % n)
  }

  /** Three pointers followed, each tested first. */
  function ReadTriple(disk: Disk, p: word, i: nat, n: nat): word
    requires Fanout(n)
  {
    MulPositive(n);
    if p == 0 then 0
    else
      var mid := ReadPtr(disk, p, i / (n * n));
      if mid == 0 then 0
      else
        var low := ReadPtr(disk, mid, (i % (n * n)) / n);
        if low == 0 then 0 else ReadPtr(disk, low, (i % (n * n)) % n)
  }

  /** `ext2_bmap`, branch by branch. The double-indirect branch does not test its pointers. */
  function Bmap(disk: Disk, iBlock: seq<word>, index: nat, n: nat): word
    requires Fanout(n) && |iBlock| == SLOTS
  {
    if index < DIRECT then iBlock[index]
    else if index - DIRECT < n then
      if iBlock[12] == 0 then 0 else ReadPtr(disk, iBlock[12], index - DIRECT)
    else if index - DIRECT - n < n * n then
      ReadDouble(disk, iBlock[13], index - DIRECT - n, n)
    else if index - DIRECT - n - n * n < n * (n * n) then
      ReadTriple(disk, iBlock[14], index - DIRECT - n - n * n, n)
    else 0
  }

  /** One pointer followed on the disk is one step down the tree. */
  lemma WalkStep(disk: Disk, p: nat, t: Tree, path: seq<nat>, n: nat)
    requires Sized(disk, n) && Represents(disk, p, |path|, t, n) && IsPath(path, |path|, n) && path != []
    ensures Shaped(t, |path|, n) && (t.Null? <==> p == 0)
    ensures t.Null? || t.Node?
    ensures p != 0 ==> p < |disk| && ReadPtr(disk, p, path[0]) == Ptr(disk[p], path[0])
    ensures p != 0 ==> Represents(disk, ReadPtr(disk, p, path[0]), |path| - 1, t.kids[path[0]], n)
    ensures p == 0 ==> Lookup(t, path, n) == 0
    ensures p != 0 ==> Lookup(t, path, n) == Lookup(t.kids[path[0]], path[1..], n)
  {
    RepresentsIsShaped(disk, p, |path|, t, n);
  }

  lemma LeafStep(disk: Disk, p: nat, t: Tree, n: nat)
    requires Sized(disk, n) && Represents(disk, p, 0, t, n)
    ensures Shaped(t, 0, n) && Lookup(t, [], n) == p
  {
  }

  /** The offset lies in the double-indirect range and one of the two index blocks on the way is missing. */
  ghost predicate DoubleGap(trees: seq<Tree>, i: nat, n: nat)
    requires ShapedSlots(trees, n)
  {
    && SlotOf(i, n) == 13 && i < Capacity(n)
    && (trees[13].Null? || trees[13].kids[SlotPath(i, n)[0]].Null?)
  }

  /** What the double-indirect branch then picks up from physical block 0. */
  function BlockZeroRead(disk: Disk, topMissing: bool, path: seq<nat>): word
    requires |path| == 2
  {
    if topMissing then ReadPtr(disk, ReadPtr(disk, 0, path[0]), path[1]) else ReadPtr(disk, 0, path[1])
  }

  /** The slot numbers the lookup divides out of the offset are those of the append. */
  lemma BmapFollowsPath(disk: Disk, iBlock: seq<word>, i: nat, n: nat)
    requires Fanout(n) && |iBlock| == SLOTS && i < Capacity(n)
    ensures var s, path := SlotOf(i, n), SlotPath(i, n);
            Bmap(disk, iBlock, i, n)
              == if s < DIRECT then iBlock[s]
                 else if s == 12 then if iBlock[12] == 0 then 0 else ReadPtr(disk, iBlock[12], path[0])
                 else if s == 13 then ReadPtr(disk, ReadPtr(disk, iBlock[13], path[0]), path[1])
                 else
                   var mid := ReadPtr(disk, iBlock[14], path[0]);
                   var low := ReadPtr(disk, mid, path[1]);
                   if iBlock[14] == 0 || mid == 0 || low == 0 then 0 else ReadPtr(disk, low, path[2])
  {
    if SlotOf(i, n) == 14 {
      TripleDigits(disk, iBlock[14], i - SlotFirst(14, n), n);
    }
  }

  lemma TripleDigits(disk: Disk, p: word, i: nat, n: nat)
    requires Fanout(n) && i < n * (n * n)
    ensures var path := PathOf(i, 3, n);
            var mid := ReadPtr(disk, p, path[0]);
            var low := ReadPtr(disk, mid, path[1]);
            ReadTriple(disk, p, i, n) == if p == 0 || mid == 0 || low == 0 then 0 else ReadPtr(disk, low, path[2])
  {
    ThreeDigits(i, n);
  }

  /** `ext2_bmap` agrees with the map exactly when no double-indirect gap is met or block 0 reads as 0 there. */
  lemma BmapReadsMap(disk: Disk, iBlock: seq<word>, trees: seq<Tree>, i: nat, n: nat)
    requires InodeOk(disk, iBlock, trees, n)
    ensures ShapedSlots(trees, n)
    ensures Bmap(disk, iBlock, i, n) == MapOf(trees, i, n)
       <==> (DoubleGap(trees, i, n) ==> BlockZeroRead(disk, trees[13].Null?, SlotPath(i, n)) == 0)
    ensures DoubleGap(trees, i, n) ==>
              MapOf(trees, i, n) == 0
                && Bmap(disk, iBlock, i, n) == BlockZeroRead(disk, trees[13].Null?, SlotPath(i, n))
  {
    InodeOkShaped(disk, iBlock, trees, n);
    if i < Capacity(n) {
      var s, path := SlotOf(i, n), SlotPath(i, n);
      BmapFollowsPath(disk, iBlock, i, n);
      if s < DIRECT {
        assert path == [];
        LeafStep(disk, iBlock[s], trees[s], n);
      } else if s == 12 {
        BmapSingle(disk, iBlock[12], trees[12], path, n);
      } else if s == 13 {
        BmapDouble(disk, iBlock[13], trees[13], path, n);
      } else {
        BmapTriple(disk, iBlock[14], trees[14], path, n);
      }
    }
  }

  lemma BmapSingle(disk: Disk, p: word, t: Tree, path: seq<nat>, n: nat)
    requires Sized(disk, n) && |path| == 1 && IsPath(path, 1, n) && Represents(disk, p, 1, t, n)
    ensures Shaped(t, 1, n)
    ensures Lookup(t, path, n) == if p == 0 then 0 else ReadPtr(disk, p, path[0])
  {
    WalkStep(disk, p, t, path, n);
    if p != 0 {
      LeafStep(disk, ReadPtr(disk, p, path[0]), t.kids[path[0]], n);
    }
  }

  lemma BmapDouble(disk: Disk, p: word, t: Tree, path: seq<nat>, n: nat)
    requires Sized(disk, n) && |path| == 2 && IsPath(path, 2, n) && Represents(disk, p, 2, t, n)
    ensures Shaped(t, 2, n) && (t.Null? <==> p == 0)
    ensures t.Null? || t.kids[path[0]].Null? ==>
              Lookup(t, path, n) == 0
              && ReadPtr(disk, ReadPtr(disk, p, path[0]), path[1]) == BlockZeroRead(disk, t.Null?, path)
    ensures !(t.Null? || t.kids[path[0]].Null?) ==>
              Lookup(t, path, n) == ReadPtr(disk, ReadPtr(disk, p, path[0]), path[1])
  {
    WalkStep(disk, p, t, path, n);
    if p != 0 {
      BmapSingle(disk, ReadPtr(disk, p, path[0]), t.kids[path[0]], path[1..], n);
    }
  }

  lemma BmapTriple(disk: Disk, p: word, t: Tree, path: seq<nat>, n: nat)
    requires Sized(disk, n) && |path| == 3 && IsPath(path, 3, n) && Represents(disk, p, 3, t, n)
    ensures Shaped(t, 3, n)
    ensures var mid := ReadPtr(disk, p, path[0]);
            var low := ReadPtr(disk, mid, path[1]);
            Lookup(t, path, n) == if p == 0 || mid == 0 || low == 0 then 0 else ReadPtr(disk, low, path[2])
  {
    WalkStep(disk, p, t, path, n);
    if p != 0 {
      var mid, tm := ReadPtr(disk, p, path[0]), t.kids[path[0]];
      WalkStep(disk, mid, tm, path[1..], n);
      if mid != 0 {
        BmapSingle(disk, ReadPtr(disk, mid, path[1]), tm.kids[path[1]], path[2..], n);
        assert path[1..][1..] == path[2..];
      }
    }
  }

  /** When physical block 0 holds only zeros, `ext2_bmap` is the map at every index. */
  lemma BmapWithZeroBlock(disk: Disk, iBlock: seq<word>, trees: seq<Tree>, i: nat, n: nat)
    requires InodeOk(disk, iBlock, trees, n)
    requires forall k: nat :: k < n ==> Ptr(disk[0], k) == 0
    ensures ShapedSlots(trees, n) && Bmap(disk, iBlock, i, n) == MapOf(trees, i, n)
  {
    BmapReadsMap(disk, iBlock, trees, i, n);
  }

  /**
   For a hole-free file of `count` blocks the writer looks up indices up to `count` only, and then
   nothing but word 0 of block 0 matters: if it is zero, every such lookup is right.
   */
  lemma BmapOfHoleFree(disk: Disk, iBlock: seq<word>, trees: seq<Tree>, count: nat, i: nat, n: nat)
    requires InodeOk(disk, iBlock, trees, n) && ShapedSlots(trees, n) && HoleFree(trees, count, n)
    requires i <= count && i < Capacity(n) && Ptr(disk[0], 0) == 0
    ensures Bmap(disk, iBlock, i, n) == MapOf(trees, i, n)
    ensures Bmap(disk, iBlock, i, n) != 0 <==> i < count
  {
    InodeOkShaped(disk, iBlock, trees, n);
    HoleFreeMap(trees, count, i, n);
    BmapReadsMap(disk, iBlock, trees, i, n);
    if DoubleGap(trees, i, n) {
      GapOffset(trees, count, n);
    }
  }

  /** A gap right after the last block starts a new index block, so the last slot number is 0. */
  lemma GapOffset(trees: seq<Tree>, count: nat, n: nat)
    requires ShapedSlots(trees, n) && HoleFree(trees, count, n) && DoubleGap(trees, count, n)
    ensures SlotPath(count, n)[1] == 0 && (trees[13].Null? ==> SlotPath(count, n)[0] == 0)
  {
    var path, t := SlotPath(count, n), trees[13];
    assert path == [path[0], path[1]];
    ConsValue2(path[0], path[1], n);
    assert SlotFirst(13, n) + path[0] * n + path[1] == count;
    assert Dense(t, 2, SlotFirst(13, n), count, n);
    if t.Null? {
      assert path[0] * n + path[1] == 0;
    } else {
      assert Dense(t.kids[path[0]], 1, KidFirst(SlotFirst(13, n), path[0], 2, n), count, n);
      SpanUpTo3(n);
    }
  }

  /**
   Otherwise the kernel goes wrong: at a file length that needs a new second-level index block, the lookup
   of the next block returns the first word of block 0, so the writer takes that for an existing block.
   */
  lemma BootWordTakenForBlock(disk: Disk, iBlock: seq<word>, trees: seq<Tree>, count: nat, n: nat)
    requires InodeOk(disk, iBlock, trees, n) && ShapedSlots(trees, n) && HoleFree(trees, count, n)
    requires DoubleGap(trees, count, n) && !trees[13].Null?
    ensures MapOf(trees, count, n) == 0 && Bmap(disk, iBlock, count, n) == Ptr(disk[0], 0)
  {
    BmapReadsMap(disk, iBlock, trees, count, n);
    GapOffset(trees, count, n);
  }

  /** A block of pointers that are all 1. */
  function Ones(): seq<byte> {
    seq(1024, i => if i % 4 == 0 then 1 else 0)
  }

  function NoPointers(): seq<word> {
    seq(SLOTS, _ => 0)
  }

  lemma FirstDoubleLookup(disk: Disk, iBlock: seq<word>)
    requires |iBlock| == SLOTS && iBlock[13] == 0 && ReadPtr(disk, 0, 0) == 1 && ReadPtr(disk, 1, 0) == 1
    ensures Bmap(disk, iBlock, 268, 256) == 1
  {
    assert Bmap(disk, iBlock, 268, 256) == ReadDouble(disk, iBlock[13], 0, 256);
  }

  lemma EmptyInodeOk(disk: Disk, n: nat)
    requires Fanout(n) && Sized(disk, n)
    ensures InodeOk(disk, NoPointers(), NoTrees(), n)
  {
  }

  /** A failing case: an empty file on a disk of two such blocks has no block 268, but the lookup returns 1. */
  lemma EmptyFileMapsBlock()
    ensures InodeOk([Ones(), Ones()], NoPointers(), NoTrees(), 256) && ShapedSlots(NoTrees(), 256)
    ensures MapOf(NoTrees(), 268, 256) == 0 && Bmap([Ones(), Ones()], NoPointers(), 268, 256) == 1
  {
    var disk := [Ones(), Ones()];
    NoTreesOk(256);
    EmptyInodeOk(disk, 256);
    assert Ptr(Ones(), 0) == 1;
    FirstDoubleLookup(disk, NoPointers());
  }
}
