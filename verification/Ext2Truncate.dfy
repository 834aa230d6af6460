/**
 fs/ext2/inode.c, `recursive_free_blocks` and `ext2_truncate`: cutting a file frees exactly the data and index blocks
 from the cut on, writes back the index blocks that stay, and leaves every byte below the new size as it was.
 */
module Ext2Truncate {
  import opened Folding
  import opened Words
  import opened BlockTree
  import opened InodeMap
  import opened Ext2File
  import opened Ext2Bytes

  // ---- One subtree, kid by kid ----

  /** The index blocks under the first `i` kids. */
  ghost function KidIndex(kids: seq<Tree>, i: nat): set<nat> {
    set j, x | 0 <= j < i && j < |kids| && x in IndexBlocks(kids[j]) :: x
  }

  /** The blocks from the cut on under the first `i` kids. */
  ghost function KidsFrom(t: Tree, i: nat, level: nat, first: nat, cut: nat, n: nat): set<nat>
    requires t.Node? && Shaped(t, level, n) && i <= n
  {
    set j, x | 0 <= j < i && x in KidBlocksFrom(t.kids, j, level, first, cut, n) :: x
  }

  ghost function CutKidTree(t: Tree, j: nat, level: nat, first: nat, cut: nat, n: nat): Tree
    requires t.Node? && Shaped(t, level, n) && j < n
  {
    Cut(t.kids[j], level - 1, KidFirst(first, j, level, n), cut, n)
  }

  /** A subtree in place on the disk that belongs to the file (kept folded). */
  ghost predicate Hangs(disk: Disk, used: set<nat>, own: set<nat>, p: nat, t: Tree, level: nat, n: nat) {
    forall u :: Look(t, u) ==> TreeIn(disk, used, p, level, t, n) && Blocks(t) <= own
  }

  /** Pointer `p` denotes kid `j` of `t` after the cut. */
  ghost predicate KidIsCut(disk: Disk, p: nat, t: Tree, j: nat, level: nat, first: nat, cut: nat, n: nat) {
    && t.Node? && Shaped(t, level, n) && j < n && Sized(disk, n)
    && forall u :: Look(t, u) ==> Represents(disk, p, level - 1, CutKidTree(t, j, level, first, cut, n), n)
  }

  /** A subtree after the blocks from the cut on were freed. */
  ghost predicate CutDown(disk0: Disk, disk: Disk, used0: set<nat>, used: set<nat>, own0: set<nat>, own: set<nat>,
                         p: nat, t: Tree, level: nat, first: nat, cut: nat, n: nat)
  {
    && Sized(disk0, n) && Sized(disk, n) && |disk| == |disk0| && Shaped(t, level, n)
    && (forall b :: 0 <= b < |disk| && b !in IndexBlocks(t) ==> disk[b] == disk0[b])
    && used == used0 - BlocksFrom(t, level, first, cut, n)
    && own == own0 - BlocksFrom(t, level, first, cut, n)
    && (first < cut ==> Represents(disk, p, level, Cut(t, level, first, cut, n), n))
  }

  /** `CutDown`, kept folded. */
  ghost predicate Pruned(disk0: Disk, disk: Disk, used0: set<nat>, used: set<nat>, own0: set<nat>, own: set<nat>,
                         p: nat, t: Tree, level: nat, first: nat, cut: nat, n: nat)
  {
    forall u :: Look(t, u) ==> CutDown(disk0, disk, used0, used, own0, own, p, t, level, first, cut, n)
  }

  /** An index block as the pointers it holds. */
  function Pointers(buf: seq<byte>, n: nat): (ps: seq<word>)
    requires |buf| == 4 * n
    ensures |ps| == n && forall j :: 0 <= j < n ==> ps[j] == Ptr(buf, j)
  {
    seq(n, j requires 0 <= j < n => Ptr(buf, j))
  }

  lemma PointersSet(buf: seq<byte>, i: nat, v: word, n: nat)
    requires |buf| == 4 * n && i < n
    ensures Pointers(SetPtr(buf, i, v), n) == Pointers(buf, n)[i := v]
  {
  }

  /** Halfway through an index block: the first `i` kids are cut, the others as they were, and `ps` points at both. */
  ghost predicate CutPartly(disk0: Disk, disk: Disk, used0: set<nat>, used: set<nat>, own0: set<nat>, own: set<nat>,
                          ps: seq<word>, i: nat, t: Tree, level: nat, first: nat, cut: nat, n: nat)
  {
    && t.Node? && TreeIn(disk0, used0, t.b, level, t, n) && Shaped(t, level, n) && Blocks(t) <= own0
    && Sized(disk, n) && |disk| == |disk0| && |ps| == n && i <= n
    && (forall j :: 0 <= j < i ==> KidIsCut(disk, ps[j], t, j, level, first, cut, n))
    && ps[i..] == Pointers(disk0[t.b], n)[i..]
    && (forall b :: 0 <= b < |disk| && b !in KidIndex(t.kids, i) ==> disk[b] == disk0[b])
    && used == used0 - KidsFrom(t, i, level, first, cut, n)
    && own == own0 - KidsFrom(t, i, level, first, cut, n)
  }

  /** `CutPartly`, kept folded. */
  ghost predicate Halfway(disk0: Disk, disk: Disk, used0: set<nat>, used: set<nat>, own0: set<nat>, own: set<nat>,
                          buf: seq<byte>, i: nat, t: Tree, level: nat, first: nat, cut: nat, n: nat)
  {
    && |buf| == 4 * n
    && forall u :: Look(t, u)
         ==> CutPartly(disk0, disk, used0, used, own0, own, Pointers(buf, n), i, t, level, first, cut, n)
  }

  lemma HalfwayStart(disk: Disk, used: set<nat>, own: set<nat>, p: nat, t: Tree, level: nat, first: nat, cut: nat,
                     n: nat)
    requires Hangs(disk, used, own, p, t, level, n) && p != 0 && level > 0
    ensures t.Node? && t.b == p < |disk|
            && Halfway(disk, disk, used, used, own, own, disk[p], 0, t, level, first, cut, n)
  {
    assert Look(t, 0);
    RepresentsIsShaped(disk, t.b, level, t, n);
    assert KidsFrom(t, 0, level, first, cut, n) == {};
  }

  /** The blocks under different kids are different. */
  lemma KidApart(t: Tree, i: nat, level: nat, first: nat, cut: nat, n: nat)
    requires t.Node? && Shaped(t, level, n) && Distinct(t) && i < n
    ensures Blocks(t.kids[i]) !! KidsFrom(t, i, level, first, cut, n)
    ensures Blocks(t.kids[i]) !! KidIndex(t.kids, i)
    ensures IndexBlocks(t.kids[i]) <= Blocks(t.kids[i]) <= Blocks(t)
    ensures t.b !in KidIndex(t.kids, n)
  {
    forall j | 0 <= j < n
      ensures KidBlocksFrom(t.kids, j, level, first, cut, n) <= Blocks(t.kids[j])
      ensures IndexBlocks(t.kids[j]) <= Blocks(t.kids[j])
    {
      BlocksFromWithin(t.kids[j], level - 1, KidFirst(first, j, level, n), cut, n);
      IndexWithinBlocks(t.kids[j]);
    }
    assert forall j :: 0 <= j < i ==> Blocks(t.kids[j]) !! Blocks(t.kids[i]);
    assert forall j :: 0 <= j < n ==> t.b !in Blocks(t.kids[j]);
  }

  lemma HalfwayKid(disk0: Disk, disk: Disk, used0: set<nat>, used: set<nat>, own0: set<nat>, own: set<nat>,
                   buf: seq<byte>, i: nat, t: Tree, level: nat, first: nat, cut: nat, n: nat)
    requires Halfway(disk0, disk, used0, used, own0, own, buf, i, t, level, first, cut, n) && i < n
    ensures level > 0 && t.Node? && |t.kids| == n
    ensures Hangs(disk, used, own, Ptr(buf, i), t.kids[i], level - 1, n)
  {
    assert Look(t, 0);
    KidApart(t, i, level, first, cut, n);
    var ps := Pointers(buf, n);
    assert ps[i] == ps[i..][0] == Ptr(disk0[t.b], i);
    RepresentsFrame(disk0, disk, ps[i], level - 1, t.kids[i], n);
  }

  lemma KidsFromNext(t: Tree, i: nat, level: nat, first: nat, cut: nat, n: nat)
    requires t.Node? && Shaped(t, level, n) && i < n
    ensures KidsFrom(t, i + 1, level, first, cut, n)
         == KidsFrom(t, i, level, first, cut, n) + KidBlocksFrom(t.kids, i, level, first, cut, n)
    ensures KidIndex(t.kids, i + 1) == KidIndex(t.kids, i) + IndexBlocks(t.kids[i])
  {
  }

  /** What happens under kid `i` leaves kid `j` alone. */
  lemma KidStaysCut(disk: Disk, disk': Disk, p: nat, t: Tree, i: nat, j: nat, level: nat, first: nat, cut: nat, n: nat)
    requires KidIsCut(disk, p, t, j, level, first, cut, n) && Distinct(t) && j < i < n
    requires Sized(disk', n) && |disk| == |disk'|
    requires forall b :: 0 <= b < |disk| && b !in IndexBlocks(t.kids[i]) ==> disk'[b] == disk[b]
    ensures KidIsCut(disk', p, t, j, level, first, cut, n)
  {
    assert Look(t, 0);
    CutKidIndex(t, i, j, level, first, cut, n);
    RepresentsFrame(disk, disk', p, level - 1, CutKidTree(t, j, level, first, cut, n), n);
  }

  lemma KidsStayCut(disk: Disk, disk': Disk, ps: seq<word>, t: Tree, i: nat, level: nat, first: nat, cut: nat, n: nat)
    requires t.Node? && Distinct(t) && i < n == |ps| && |t.kids| == n
    requires Sized(disk', n) && |disk| == |disk'|
    requires forall j :: 0 <= j < i ==> KidIsCut(disk, ps[j], t, j, level, first, cut, n)
    requires forall b :: 0 <= b < |disk| && b !in IndexBlocks(t.kids[i]) ==> disk'[b] == disk[b]
    ensures forall j :: 0 <= j < i ==> KidIsCut(disk', ps[j], t, j, level, first, cut, n)
  {
    forall j | 0 <= j < i
      ensures KidIsCut(disk', ps[j], t, j, level, first, cut, n)
    {
      KidStaysCut(disk, disk', ps[j], t, i, j, level, first, cut, n);
    }
  }

  lemma TailOfUpdate(ps: seq<word>, qs: seq<word>, i: nat, x: word)
    requires |ps| == |qs| && i < |ps| && ps[i..] == qs[i..]
    ensures ps[i := x][i + 1..] == qs[i + 1..]
  {
    assert ps[i := x][i + 1..] == ps[i..][1..] && qs[i + 1..] == qs[i..][1..];
  }

  lemma KidNowCut(disk: Disk, p: nat, t: Tree, i: nat, level: nat, first: nat, cut: nat, n: nat)
    requires t.Node? && Shaped(t, level, n) && i < n && Sized(disk, n)
    requires KidFirst(first, i, level, n) < cut
             ==> Represents(disk, p, level - 1, CutKidTree(t, i, level, first, cut, n), n)
    ensures KidIsCut(disk, if KidFirst(first, i, level, n) >= cut then 0 else p, t, i, level, first, cut, n)
  {
    assert KidFirst(first, i, level, n) >= cut ==> CutKidTree(t, i, level, first, cut, n) == Null;
  }

  lemma MinusMinus(u0: set<nat>, u: set<nat>, u': set<nat>, a: set<nat>, b: set<nat>)
    requires u == u0 - a && u' == u - b
    ensures u' == u0 - (a + b)
  {
  }

  lemma UpdateSame<T>(s: seq<T>, i: nat)
    requires i < |s|
    ensures s[i := s[i]] == s
  {
  }

  function ClearEntry(buf: seq<byte>, i: nat, cleared: bool): (r: seq<byte>)
    requires 4 * i + 4 <= |buf|
    ensures |r| == |buf|
  {
    if cleared then SetPtr(buf, i, 0) else buf
  }

  lemma EntryCleared(buf: seq<byte>, i: nat, cleared: bool, gone: bool, n: nat)
    requires |buf| == 4 * n && i < n && cleared == (Pointers(buf, n)[i] != 0 && gone)
    ensures Pointers(ClearEntry(buf, i, cleared), n) == Pointers(buf, n)[i := if gone then 0 else Pointers(buf, n)[i]]
  {
    if cleared {
      PointersSet(buf, i, 0, n);
    } else {
      UpdateSame(Pointers(buf, n), i);
    }
  }

  lemma CutOneMore(disk0: Disk, disk: Disk, disk': Disk, used0: set<nat>, used: set<nat>, used': set<nat>,
                   own0: set<nat>, own: set<nat>, own': set<nat>, ps: seq<word>, i: nat,
                   t: Tree, level: nat, first: nat, cut: nat, n: nat)
    requires CutPartly(disk0, disk, used0, used, own0, own, ps, i, t, level, first, cut, n) && i < n
    requires CutDown(disk, disk', used, used', own, own', ps[i], t.kids[i], level - 1, KidFirst(first, i, level, n),
                     cut, n)
    ensures var ps' := ps[i := if KidFirst(first, i, level, n) >= cut then 0 else ps[i]];
            CutPartly(disk0, disk', used0, used', own0, own', ps', i + 1, t, level, first, cut, n)
  {
    var ps' := ps[i := if KidFirst(first, i, level, n) >= cut then 0 else ps[i]];
    var before, more := KidsFrom(t, i, level, first, cut, n), KidBlocksFrom(t.kids, i, level, first, cut, n);
    KidsFromNext(t, i, level, first, cut, n);
    KidNowCut(disk', ps[i], t, i, level, first, cut, n);
    MinusMinus(used0, used, used', before, more);
    MinusMinus(own0, own, own', before, more);
    KidsStayCut(disk, disk', ps, t, i, level, first, cut, n);
    TailOfUpdate(ps, Pointers(disk0[t.b], n), i, ps'[i]);
  }

  /** The pointer to kid `i` is cleared when it was not null and all the kid covers is gone. */
  lemma HalfwayNext(disk0: Disk, disk: Disk, disk': Disk, used0: set<nat>, used: set<nat>, used': set<nat>,
                    own0: set<nat>, own: set<nat>, own': set<nat>, buf: seq<byte>, cleared: bool, i: nat,
                    t: Tree, level: nat, first: nat, cut: nat, n: nat)
    requires Halfway(disk0, disk, used0, used, own0, own, buf, i, t, level, first, cut, n) && i < n
    requires level > 0 && t.Node? && |t.kids| == n
    requires Pruned(disk, disk', used, used', own, own', Ptr(buf, i), t.kids[i], level - 1,
                    KidFirst(first, i, level, n), cut, n)
    requires cleared == (Ptr(buf, i) != 0 && KidFirst(first, i, level, n) >= cut)
    ensures Halfway(disk0, disk', used0, used', own0, own', ClearEntry(buf, i, cleared), i + 1, t, level, first, cut, n)
  {
    assert Look(t, 0) && Look(t.kids[i], 0);
    CutOneMore(disk0, disk, disk', used0, used, used', own0, own, own', Pointers(buf, n), i, t, level, first, cut, n);
    EntryCleared(buf, i, cleared, KidFirst(first, i, level, n) >= cut, n);
  }

  lemma CutKidIndex(t: Tree, i: nat, j: nat, level: nat, first: nat, cut: nat, n: nat)
    requires n > 0 && t.Node? && Shaped(t, level, n) && Distinct(t) && j < i < n
    ensures IndexBlocks(CutKidTree(t, j, level, first, cut, n)) !! IndexBlocks(t.kids[i])
  {
    CutKid(t.kids, j, level, first, cut, n);
    IndexWithinBlocks(CutKidTree(t, j, level, first, cut, n));
    IndexWithinBlocks(t.kids[i]);
    assert Blocks(t.kids[j]) !! Blocks(t.kids[i]);
  }

  /** A null kid, or one that ends before the cut, needs no work. */
  lemma KidSkipped(disk: Disk, used: set<nat>, own: set<nat>, p: nat, t: Tree, level: nat, first: nat, cut: nat, n: nat)
    requires Hangs(disk, used, own, p, t, level, n)
    requires p == 0 || first + Span(n, level) <= cut
    ensures Pruned(disk, disk, used, used, own, own, p, t, level, first, cut, n)
  {
    assert Look(t, 0);
    RepresentsIsShaped(disk, p, level, t, n);
    if p != 0 {
      CutSkips(t, level, first, cut, n);
    }
  }

  lemma BlocksFromNode(t: Tree, level: nat, first: nat, cut: nat, n: nat)
    requires t.Node? && Shaped(t, level, n) && Distinct(t)
    ensures BlocksFrom(t, level, first, cut, n)
            == KidsFrom(t, n, level, first, cut, n) + if first >= cut then {t.b} else {}
    ensures t.b !in KidsFrom(t, n, level, first, cut, n)
  {
    forall j | 0 <= j < n
      ensures KidBlocksFrom(t.kids, j, level, first, cut, n) <= Blocks(t.kids[j])
    {
      BlocksFromWithin(t.kids[j], level - 1, KidFirst(first, j, level, n), cut, n);
    }
  }

  /** The index block is written back, and freed when all it covers is. */
  lemma HalfwayDone(disk0: Disk, disk: Disk, used0: set<nat>, used: set<nat>, own0: set<nat>, own: set<nat>,
                    buf: seq<byte>, t: Tree, level: nat, first: nat, cut: nat, n: nat)
    requires Halfway(disk0, disk, used0, used, own0, own, buf, n, t, level, first, cut, n)
    ensures t.Node? && 0 < t.b < |disk| && t.b in own && t.b in used
    ensures var gone := if first >= cut then {t.b} else {};
            Pruned(disk0, disk[t.b := buf], used0, used - gone, own0, own - gone, t.b, t, level, first, cut, n)
  {
    assert Look(t, 0);
    var disk' := disk[t.b := buf];
    BlocksFromNode(t, level, first, cut, n);
    assert t.b in Blocks(t);
    assert forall b :: b in KidIndex(t.kids, n) ==> b in IndexBlocks(t);
    if first < cut {
      RootCut(disk, t, buf, level, first, cut, n);
    }
  }

  lemma RootCut(disk: Disk, t: Tree, buf: seq<byte>, level: nat, first: nat, cut: nat, n: nat)
    requires t.Node? && Shaped(t, level, n) && Distinct(t) && Sized(disk, n) && 0 < t.b < |disk| && |buf| == 4 * n
    requires forall j :: 0 <= j < n ==> KidIsCut(disk, Pointers(buf, n)[j], t, j, level, first, cut, n)
    requires first < cut
    ensures Represents(disk[t.b := buf], t.b, level, Cut(t, level, first, cut, n), n)
  {
    var disk', c := disk[t.b := buf], Cut(t, level, first, cut, n);
    forall j | 0 <= j < n
      ensures Represents(disk', Ptr(disk'[t.b], j), level - 1, c.kids[j], n)
    {
      assert Look(t, 0);
      assert c.kids[j] == CutKidTree(t, j, level, first, cut, n);
      assert Pointers(buf, n)[j] == Ptr(buf, j);
      CutKidAway(t, j, level, first, cut, n);
      RepresentsFrame(disk, disk', Ptr(buf, j), level - 1, CutKidTree(t, j, level, first, cut, n), n);
    }
  }

  lemma CutKidAway(t: Tree, j: nat, level: nat, first: nat, cut: nat, n: nat)
    requires n > 0 && t.Node? && Shaped(t, level, n) && Distinct(t) && j < n
    ensures t.b !in IndexBlocks(CutKidTree(t, j, level, first, cut, n))
  {
    CutKid(t.kids, j, level, first, cut, n);
    IndexWithinBlocks(CutKidTree(t, j, level, first, cut, n));
  }

  // ---- Freeing on the disk ----

  lemma SectorsOneLess(own: set<nat>, b: nat, w: nat)
    requires b in own
    ensures Sectors(|own|, w) == Sectors(|own - {b}|, w) + w
  {
    assert own == own - {b} + {b};
    SectorsOneMore(own - {b}, b, w);
  }

  /** Subtraction that stops at 0. */
  function DropSectors(iBlocks: nat, w: nat): nat {
    if iBlocks >= w then iBlocks - w else 0
  }

  /** The sector count is that of the blocks owned, all of them in use (kept folded). */
  ghost predicate Tally(own: set<nat>, used: set<nat>, iBlocks: nat, w: nat) {
    forall u :: Look(own, u) ==> own <= used && 0 !in own && iBlocks == Sectors(|own|, w)
  }

  /** A file while it is being cut: the sector count goes with the blocks it still owns. */
  ghost predicate Counted(v: Volume, ino: Inode)
    reads v, v.balloc, ino
  {
    v.Valid() && Tally(ino.own, v.used, ino.iBlocks, v.W())
  }

  /** Free one block and take it off the inode's sector count. */
  method FreeBlock(v: Volume, ino: Inode, b: nat)
    requires Counted(v, ino) && b in ino.own
    modifies v`used, v.balloc, ino`iBlocks, ino`own
    ensures Counted(v, ino)
    ensures v.used == old(v.used) - {b} && ino.own == old(ino.own) - {b}
  {
    assert Look(v.used, 0) && Look(ino.own, 0);
    SectorsOneLess(ino.own, b, v.W());
    v.balloc.Free(b);
    v.used := v.used - {b};
    ino.iBlocks := DropSectors(ino.iBlocks, v.W());
    ino.own := ino.own - {b};
    assert v.Allocator();
  }

  /** All below the root is cut; the root itself is still to be freed when it lies above the cut. */
  ghost predicate PrunedBelow(disk0: Disk, disk: Disk, used0: set<nat>, used: set<nat>, own0: set<nat>, own: set<nat>,
                              p: nat, t: Tree, level: nat, first: nat, cut: nat, n: nat)
  {
    && p in own && p in used
    && var gone := if first >= cut then {p} else {};
       Pruned(disk0, disk, used0, used - gone, own0, own - gone, p, t, level, first, cut, n)
  }

  lemma LeafPruned(disk: Disk, used: set<nat>, own: set<nat>, p: nat, t: Tree, first: nat, cut: nat, n: nat)
    requires Hangs(disk, used, own, p, t, 0, n) && p != 0
    ensures PrunedBelow(disk, disk, used, used, own, own, p, t, 0, first, cut, n)
  {
    assert Look(t, 0);
  }

  /** `recursive_free_blocks`. */
  method RecursiveFree(v: Volume, ino: Inode, phys: word, level: nat, first: nat, cut: nat, ghost t: Tree)
    requires Counted(v, ino) && Hangs(v.disk, v.used, ino.own, phys, t, level, v.N()) && level <= 3
    modifies v`disk, v`used, v.balloc, ino`iBlocks, ino`own
    ensures Counted(v, ino)
    ensures Pruned(old(v.disk), v.disk, old(v.used), v.used, old(ino.own), ino.own, phys, t, level, first, cut, v.N())
    decreases level, 2
  {
    if phys == 0 {
      KidSkipped(v.disk, v.used, ino.own, phys, t, level, first, cut, v.N());
      return;
    }
    if level > 0 {
      FreeKids(v, ino, phys, level, first, cut, t);
    } else {
      LeafPruned(v.disk, v.used, ino.own, phys, t, first, cut, v.N());
    }
    if first >= cut {
      FreeBlock(v, ino, phys);
    }
  }

  /** The loop over the pointers of an index block, which is written back in the end. */
  method FreeKids(v: Volume, ino: Inode, phys: word, level: nat, first: nat, cut: nat, ghost t: Tree)
    requires Counted(v, ino) && Hangs(v.disk, v.used, ino.own, phys, t, level, v.N()) && 0 < level <= 3 && phys != 0
    modifies v`disk, v`used, v.balloc, ino`iBlocks, ino`own
    ensures Counted(v, ino)
    ensures PrunedBelow(old(v.disk), v.disk, old(v.used), v.used, old(ino.own), ino.own, phys, t, level, first, cut,
                        v.N())
    decreases level, 1
  {
    ghost var disk0, used0, own0 := v.disk, v.used, ino.own;
    HalfwayStart(disk0, used0, own0, phys, t, level, first, cut, v.N());
    var buf := v.disk[phys];
    for i := 0 to v.N()
      invariant Counted(v, ino)
      invariant Halfway(disk0, v.disk, used0, v.used, own0, ino.own, buf, i, t, level, first, cut, v.N())
    {
      buf := FreeKid(v, ino, buf, i, level, first, cut, t, disk0, used0, own0);
    }
    WriteBack(v, ino, phys, buf, level, first, cut, t, disk0, used0, own0);
  }

  method WriteBack(v: Volume, ino: Inode, phys: word, buf: seq<byte>, ghost level: nat, ghost first: nat,
                   ghost cut: nat, ghost t: Tree, ghost disk0: Disk, ghost used0: set<nat>, ghost own0: set<nat>)
    requires Counted(v, ino) && t.Node? && t.b == phys
    requires Halfway(disk0, v.disk, used0, v.used, own0, ino.own, buf, v.N(), t, level, first, cut, v.N())
    modifies v`disk
    ensures Counted(v, ino)
    ensures PrunedBelow(disk0, v.disk, used0, v.used, own0, ino.own, phys, t, level, first, cut, v.N())
  {
    HalfwayDone(disk0, v.disk, used0, v.used, own0, ino.own, buf, t, level, first, cut, v.N());
    v.disk := v.disk[phys := buf];
  }

  /** The number of logical blocks below each pointer of an index block, and the first one below pointer `i`. */
  method ChildRange(first: nat, i: nat, level: nat, n: nat) returns (kidFirst: nat, step: nat)
    requires level > 0
    ensures step == Span(n, level - 1) && kidFirst == KidFirst(first, i, level, n)
  {
    step := 1;
    for l := 0 to level - 1
      invariant step == Span(n, l)
    {
      step := step * n;
    }
    kidFirst := first + i * step;
  }

  /** Kid `i`: skipped when null or wholly below the cut, else freed from the cut on and its pointer cleared. */
  method FreeKid(v: Volume, ino: Inode, buf: seq<byte>, i: nat, level: nat, first: nat, cut: nat, ghost t: Tree,
                 ghost disk0: Disk, ghost used0: set<nat>, ghost own0: set<nat>)
    returns (buf': seq<byte>)
    requires Counted(v, ino) && i < v.N() && 0 < level <= 3
    requires Halfway(disk0, v.disk, used0, v.used, own0, ino.own, buf, i, t, level, first, cut, v.N())
    modifies v`disk, v`used, v.balloc, ino`iBlocks, ino`own
    ensures Counted(v, ino)
    ensures Halfway(disk0, v.disk, used0, v.used, own0, ino.own, buf', i + 1, t, level, first, cut, v.N())
    decreases level, 0
  {
    HalfwayKid(disk0, v.disk, used0, v.used, own0, ino.own, buf, i, t, level, first, cut, v.N());
    var kidFirst, step := ChildRange(first, i, level, v.N());
    var cleared := FreeBelow(v, ino, Ptr(buf, i), level - 1, kidFirst, step, cut, t.kids[i]);
    buf' := ClearEntry(buf, i, cleared);
    HalfwayNext(disk0, old(v.disk), v.disk, used0, old(v.used), v.used, own0, old(ino.own), ino.own,
                buf, cleared, i, t, level, first, cut, v.N());
  }

  method FreeBelow(v: Volume, ino: Inode, kid: word, level: nat, kidFirst: nat, step: nat, cut: nat, ghost t: Tree)
    returns (cleared: bool)
    requires Counted(v, ino) && Hangs(v.disk, v.used, ino.own, kid, t, level, v.N()) && level < 3
    requires step == Span(v.N(), level)
    modifies v`disk, v`used, v.balloc, ino`iBlocks, ino`own
    ensures Counted(v, ino) && cleared == (kid != 0 && kidFirst >= cut)
    ensures Pruned(old(v.disk), v.disk, old(v.used), v.used, old(ino.own), ino.own, kid, t, level, kidFirst, cut, v.N())
    decreases level, 3
  {
    cleared := false;
    if kid != 0 && kidFirst + step > cut {
      RecursiveFree(v, ino, kid, level, kidFirst, cut, t);
      cleared := kidFirst >= cut;
    } else {
      KidSkipped(v.disk, v.used, ino.own, kid, t, level, kidFirst, cut, v.N());
    }
  }

  // ---- The fifteen slots ----

  /** The first `s` slots cut, the others as they were. */
  ghost function Mixed(trees: seq<Tree>, s: nat, cut: nat, n: nat): seq<Tree>
    requires ShapedSlots(trees, n)
  {
    seq(SLOTS, r requires 0 <= r < SLOTS => if r < s then CutSlot(trees[r], r, cut, n) else trees[r])
  }

  ghost function SlotsFrom(trees: seq<Tree>, s: nat, cut: nat, n: nat): set<nat>
    requires ShapedSlots(trees, n) && s <= SLOTS
  {
    set r, x | 0 <= r < s && x in SlotBlocksFrom(trees, r, cut, n) :: x
  }

  ghost predicate SlotsPartly(disk0: Disk, disk: Disk, used0: set<nat>, used: set<nat>, own0: set<nat>, own: set<nat>,
                              iBlock: seq<word>, s: nat, trees: seq<Tree>, cut: nat, n: nat)
  {
    && ShapedSlots(trees, n) && KidsDistinct(trees) && BlocksOf(trees) == own0 <= used0 && s <= SLOTS
    && |disk| == |disk0| && InodeOk(disk, iBlock, Mixed(trees, s, cut, n), n)
    && (forall b :: 0 <= b < |disk| && b !in IndexOf(trees) ==> disk[b] == disk0[b])
    && used == used0 - SlotsFrom(trees, s, cut, n)
    && own == own0 - SlotsFrom(trees, s, cut, n)
  }

  /** `SlotsPartly`, kept folded. */
  ghost predicate Cutting(disk0: Disk, disk: Disk, used0: set<nat>, used: set<nat>, own0: set<nat>, own: set<nat>,
                          iBlock: seq<word>, s: nat, trees: seq<Tree>, cut: nat, n: nat)
  {
    && |iBlock| == |trees| == SLOTS
    && forall u :: Look(trees, u) ==> SlotsPartly(disk0, disk, used0, used, own0, own, iBlock, s, trees, cut, n)
  }

  lemma CuttingStart(disk: Disk, used: set<nat>, iBlock: seq<word>, iBlocks: nat, trees: seq<Tree>, data: seq<nat>,
                     own: set<nat>, index: set<nat>, n: nat, w: nat, cut: nat)
    requires Placed(disk, used, iBlock, iBlocks, trees, data, own, index, n, w)
    ensures Cutting(disk, disk, used, used, own, own, iBlock, 0, trees, cut, n) && Tally(own, used, iBlocks, w)
  {
    assert Look(trees, 0);
    InodeOkShaped(disk, iBlock, trees, n);
    assert Mixed(trees, 0, cut, n) == trees;
    assert SlotsFrom(trees, 0, cut, n) == {};
  }

  /** The blocks under different slots are different. */
  lemma SlotApart(trees: seq<Tree>, s: nat, cut: nat, n: nat)
    requires ShapedSlots(trees, n) && KidsDistinct(trees) && s < SLOTS
    ensures Blocks(trees[s]) !! SlotsFrom(trees, s, cut, n)
    ensures Blocks(trees[s]) <= BlocksOf(trees) && IndexBlocks(trees[s]) <= IndexOf(trees)
  {
    forall r | 0 <= r < SLOTS
      ensures SlotBlocksFrom(trees, r, cut, n) <= Blocks(trees[r])
    {
      BlocksFromWithin(trees[r], SlotLevel(r), SlotFirst(r, n), cut, n);
    }
    assert forall r :: 0 <= r < s ==> Blocks(trees[r]) !! Blocks(trees[s]);
  }

  lemma CuttingSlot(disk0: Disk, disk: Disk, used0: set<nat>, used: set<nat>, own0: set<nat>, own: set<nat>,
                    iBlock: seq<word>, s: nat, trees: seq<Tree>, cut: nat, n: nat)
    requires Cutting(disk0, disk, used0, used, own0, own, iBlock, s, trees, cut, n) && s < SLOTS
    ensures Hangs(disk, used, own, iBlock[s], trees[s], SlotLevel(s), n)
  {
    assert Look(trees, 0);
    SlotApart(trees, s, cut, n);
    assert Mixed(trees, s, cut, n)[s] == trees[s];
  }

  lemma MixedApart(trees: seq<Tree>, s: nat, r: nat, cut: nat, n: nat)
    requires ShapedSlots(trees, n) && KidsDistinct(trees) && s < SLOTS && r < SLOTS && r != s
    ensures IndexBlocks(Mixed(trees, s, cut, n)[r]) !! IndexBlocks(trees[s])
  {
    CutBlocks(trees[r], SlotLevel(r), SlotFirst(r, n), cut, n);
    IndexWithinBlocks(trees[s]);
    IndexWithinBlocks(Mixed(trees, s, cut, n)[r]);
    assert r < s ==> Blocks(trees[r]) !! Blocks(trees[s]);
    assert s < r ==> Blocks(trees[s]) !! Blocks(trees[r]);
  }

  lemma SlotsNext(disk: Disk, disk': Disk, iBlock: seq<word>, p: word, s: nat, trees: seq<Tree>, cut: nat, n: nat)
    requires ShapedSlots(trees, n) && KidsDistinct(trees) && s < SLOTS
    requires InodeOk(disk, iBlock, Mixed(trees, s, cut, n), n)
    requires Sized(disk', n) && |disk'| == |disk|
    requires forall b :: 0 <= b < |disk| && b !in IndexBlocks(trees[s]) ==> disk'[b] == disk[b]
    requires Represents(disk', p, SlotLevel(s), CutSlot(trees[s], s, cut, n), n)
    ensures InodeOk(disk', iBlock[s := p], Mixed(trees, s + 1, cut, n), n)
  {
    forall r | 0 <= r < SLOTS
      ensures Represents(disk', iBlock[s := p][r], SlotLevel(r), Mixed(trees, s + 1, cut, n)[r], n)
    {
      if r != s {
        MixedApart(trees, s, r, cut, n);
        assert Mixed(trees, s + 1, cut, n)[r] == Mixed(trees, s, cut, n)[r];
        RepresentsFrame(disk, disk', iBlock[r], SlotLevel(r), Mixed(trees, s, cut, n)[r], n);
      }
    }
  }

  lemma SlotsFromNext(trees: seq<Tree>, s: nat, cut: nat, n: nat)
    requires ShapedSlots(trees, n) && s < SLOTS
    ensures SlotsFrom(trees, s + 1, cut, n) == SlotsFrom(trees, s, cut, n) + SlotBlocksFrom(trees, s, cut, n)
  {
  }

  lemma CuttingNext(disk0: Disk, disk: Disk, disk': Disk, used0: set<nat>, used: set<nat>, used': set<nat>,
                    own0: set<nat>, own: set<nat>, own': set<nat>, iBlock: seq<word>, s: nat, p: word,
                    trees: seq<Tree>, cut: nat, n: nat)
    requires Cutting(disk0, disk, used0, used, own0, own, iBlock, s, trees, cut, n) && s < SLOTS
    requires Pruned(disk, disk', used, used', own, own', iBlock[s], trees[s], SlotLevel(s), SlotFirst(s, n), cut, n)
    requires p == if SlotFirst(s, n) >= cut then 0 else iBlock[s]
    ensures Cutting(disk0, disk', used0, used', own0, own', iBlock[s := p], s + 1, trees, cut, n)
  {
    assert Look(trees, 0) && Look(trees[s], 0);
    SlotsNext(disk, disk', iBlock, p, s, trees, cut, n);
    SlotApart(trees, s, cut, n);
    SlotsFromNext(trees, s, cut, n);
    MinusMinus(used0, used, used', SlotsFrom(trees, s, cut, n), SlotBlocksFrom(trees, s, cut, n));
    MinusMinus(own0, own, own', SlotsFrom(trees, s, cut, n), SlotBlocksFrom(trees, s, cut, n));
  }

  /** All slots done: the file is in place with the blocks below the cut. */
  lemma CuttingDone(disk0: Disk, disk: Disk, used0: set<nat>, used: set<nat>, own0: set<nat>, own: set<nat>,
                    iBlock0: seq<word>, iBlock: seq<word>, iBlocks0: nat, iBlocks: nat, trees: seq<Tree>,
                    data: seq<nat>, index: set<nat>, n: nat, w: nat, cut: nat)
    requires Placed(disk0, used0, iBlock0, iBlocks0, trees, data, own0, index, n, w)
    requires Cutting(disk0, disk, used0, used, own0, own, iBlock, SLOTS, trees, cut, n)
    requires Tally(own, used, iBlocks, w) && n > 0
    ensures ShapedSlots(trees, n) && own == own0 - FileBlocksFrom(trees, cut, n)
            && used == used0 - FileBlocksFrom(trees, cut, n)
    ensures var cs := CutSlots(trees, cut, n);
            Placed(disk, used, iBlock, iBlocks, cs, if cut < |data| then data[..cut] else data, own, IndexOf(cs), n, w)
    ensures |disk| == |disk0| && forall b :: 0 <= b < |disk| && b !in index ==> disk[b] == disk0[b]
  {
    assert Look(trees, 0) && Look(own, 0);
    var cs := CutSlots(trees, cut, n);
    assert Mixed(trees, SLOTS, cut, n) == cs;
    assert SlotsFrom(trees, SLOTS, cut, n) == FileBlocksFrom(trees, cut, n);
    TruncateSlots(trees, cut, n);
    TruncateHoleFree(trees, cut, |data|, n);
    var data' := if cut < |data| then data[..cut] else data;
    forall i | 0 <= i < |data'|
      ensures MapOf(cs, i, n) == data'[i]
    {
      TruncateMap(trees, cut, n, i);
    }
    assert InPlace(disk, used, iBlock, iBlocks, cs, data', own, IndexOf(cs), n, w);
  }

  method SlotRange(s: nat, n: nat) returns (level: nat, first: nat, span: nat)
    requires s < SLOTS
    ensures level == SlotLevel(s) && first == SlotFirst(s, n) && span == Span(n, level)
  {
    SpanUpTo3(n);
    if s < DIRECT {
      level, first, span := 0, s, 1;
    } else if s == 12 {
      level, first, span := 1, 12, n;
    } else if s == 13 {
      level, first, span := 2, 12 + n, n * n;
    } else {
      level, first, span := 3, 12 + n + n * n, n * (n * n);
    }
  }

  /** One slot of the inode: skipped when null or wholly below the cut. */
  method FreeSlot(v: Volume, ino: Inode, s: nat, cut: nat, ghost disk0: Disk, ghost used0: set<nat>,
                  ghost own0: set<nat>)
    requires Counted(v, ino) && s < SLOTS
    requires Cutting(disk0, v.disk, used0, v.used, own0, ino.own, ino.iBlock, s, ino.trees, cut, v.N())
    modifies v`disk, v`used, v.balloc, ino`iBlocks, ino`own, ino`iBlock
    ensures Counted(v, ino)
    ensures Cutting(disk0, v.disk, used0, v.used, own0, ino.own, ino.iBlock, s + 1, ino.trees, cut, v.N())
  {
    CuttingSlot(disk0, v.disk, used0, v.used, own0, ino.own, ino.iBlock, s, ino.trees, cut, v.N());
    var level, first, span := SlotRange(s, v.N());
    var p := ino.iBlock[s];
    if p != 0 && first + span > cut {
      RecursiveFree(v, ino, p, level, first, cut, ino.trees[s]);
      p := if first >= cut then 0 else p;
    } else {
      KidSkipped(v.disk, v.used, ino.own, p, ino.trees[s], level, first, cut, v.N());
    }
    CuttingNext(disk0, old(v.disk), v.disk, used0, old(v.used), v.used, own0, old(ino.own), ino.own,
                ino.iBlock, s, p, ino.trees, cut, v.N());
    ino.iBlock := ino.iBlock[s := p];
  }

  /** Twelve direct slots, then the three trees. */
  method FreeSlots(v: Volume, ino: Inode, cut: nat)
    requires Counted(v, ino)
    requires Cutting(v.disk, v.disk, v.used, v.used, ino.own, ino.own, ino.iBlock, 0, ino.trees, cut, v.N())
    modifies v`disk, v`used, v.balloc, ino`iBlocks, ino`own, ino`iBlock
    ensures Counted(v, ino)
    ensures Cutting(old(v.disk), v.disk, old(v.used), v.used, old(ino.own), ino.own, ino.iBlock, SLOTS, ino.trees, cut,
                    v.N())
  {
    FreeDirect(v, ino, cut, v.disk, v.used, ino.own);
    FreeIndexed(v, ino, cut, old(v.disk), old(v.used), old(ino.own));
  }

  method FreeDirect(v: Volume, ino: Inode, cut: nat, ghost disk0: Disk, ghost used0: set<nat>, ghost own0: set<nat>)
    requires Counted(v, ino)
    requires Cutting(disk0, v.disk, used0, v.used, own0, ino.own, ino.iBlock, 0, ino.trees, cut, v.N())
    modifies v`disk, v`used, v.balloc, ino`iBlocks, ino`own, ino`iBlock
    ensures Counted(v, ino)
    ensures Cutting(disk0, v.disk, used0, v.used, own0, ino.own, ino.iBlock, DIRECT, ino.trees, cut, v.N())
  {
    for s := 0 to DIRECT
      invariant Counted(v, ino)
      invariant Cutting(disk0, v.disk, used0, v.used, own0, ino.own, ino.iBlock, s, ino.trees, cut, v.N())
    {
      FreeSlot(v, ino, s, cut, disk0, used0, own0);
    }
  }

  method FreeIndexed(v: Volume, ino: Inode, cut: nat, ghost disk0: Disk, ghost used0: set<nat>, ghost own0: set<nat>)
    requires Counted(v, ino)
    requires Cutting(disk0, v.disk, used0, v.used, own0, ino.own, ino.iBlock, DIRECT, ino.trees, cut, v.N())
    modifies v`disk, v`used, v.balloc, ino`iBlocks, ino`own, ino`iBlock
    ensures Counted(v, ino)
    ensures Cutting(disk0, v.disk, used0, v.used, own0, ino.own, ino.iBlock, SLOTS, ino.trees, cut, v.N())
  {
    FreeSlot(v, ino, 12, cut, disk0, used0, own0);
    FreeSlot(v, ino, 13, cut, disk0, used0, own0);
    FreeSlot(v, ino, 14, cut, disk0, used0, own0);
  }

  /** The freeing part of `ext2_truncate`: exactly the blocks from the cut on leave the file and the allocator. */
  method FreeFrom(v: Volume, ino: Inode, cut: nat)
    requires v.Valid() && v.FileOk(ino)
    modifies v`disk, v`used, v.balloc, ino`iBlocks, ino`own, ino`iBlock, ino`trees, ino`data, ino`index
    ensures v.Valid() && v.FileOk(ino) && ShapedSlots(old(ino.trees), v.N())
    ensures v.used == old(v.used) - FileBlocksFrom(old(ino.trees), cut, v.N())
    ensures ino.own == old(ino.own) - FileBlocksFrom(old(ino.trees), cut, v.N())
    ensures ino.data == if cut < |old(ino.data)| then old(ino.data)[..cut] else old(ino.data)
    ensures |v.disk| == |old(v.disk)|
            && forall b :: 0 <= b < |v.disk| && b !in old(ino.index) ==> v.disk[b] == old(v.disk)[b]
  {
    CuttingStart(v.disk, v.used, ino.iBlock, ino.iBlocks, ino.trees, ino.data, ino.own, ino.index, v.N(), v.W(), cut);
    FreeSlots(v, ino, cut);
    CuttingDone(old(v.disk), v.disk, old(v.used), v.used, old(ino.own), ino.own, old(ino.iBlock), ino.iBlock,
                old(ino.iBlocks), ino.iBlocks, ino.trees, ino.data, ino.index, v.N(), v.W(), cut);
    ino.trees := CutSlots(ino.trees, cut, v.N());
    ino.data := if cut < |ino.data| then ino.data[..cut] else ino.data;
    ino.index := IndexOf(ino.trees);
  }

  // ---- The bytes ----

  /** The last kept block, from the new end on, was filled with zeros; everything else is as it was. */
  ghost predicate TailCleared(disk0: Disk, disk: Disk, data: seq<nat>, length: nat, bs: nat) {
    && bs > 0 && |disk| == |disk0|
    && (forall b :: 0 <= b < |disk| && b !in data ==> disk[b] == disk0[b])
    && forall q: nat :: FileByte(disk, data, bs, q)
         == if q >= length && q / bs == length / bs && length % bs != 0 then 0 else FileByte(disk0, data, bs, q)
  }

  lemma TailBytes(disk0: Disk, disk: Disk, data: seq<nat>, length: nat, bs: nat)
    requires BlockSize(bs) && Apart(data) && length % bs != 0 && length / bs < |data| && data[length / bs] < |disk0|
    requires |disk0[data[length / bs]]| == bs
    requires disk == disk0[data[length / bs] := disk0[data[length / bs]][..length % bs] + Zeros(bs - length % bs)]
    ensures TailCleared(disk0, disk, data, length, bs)
  {
    var idx, off := length / bs, length % bs;
    var phys := data[idx];
    forall q: nat
      ensures FileByte(disk, data, bs, q) == if q >= length && q / bs == idx then 0 else FileByte(disk0, data, bs, q)
    {
      PositionInBlock(q, q, bs);
      ChunkRange(q, length, bs - off, bs);
    }
  }

  lemma CutPosition(q: nat, length: nat, bs: nat)
    requires BlockSize(bs)
    ensures q < length ==> q / bs < BlockCount(length, bs)
    ensures q >= length ==> q / bs >= BlockCount(length, bs) || (q / bs == length / bs && length % bs != 0)
  {
    if bs == 1024 {
    } else if bs == 2048 {
    } else {
    }
  }

  /** Bytes below the new size are kept, and behind it the file reads zeros. */
  ghost predicate CutBytes(disk0: Disk, disk: Disk, data: seq<nat>, data': seq<nat>, length: nat, bs: nat)
    requires bs > 0
  {
    forall q: nat :: FileByte(disk, data', bs, q) == if q < length then FileByte(disk0, data, bs, q) else 0
  }

  lemma TruncatedBytes(disk0: Disk, disk1: Disk, disk: Disk, data: seq<nat>, data': seq<nat>, index: set<nat>,
                       length: nat, bs: nat)
    requires BlockSize(bs) && TailCleared(disk0, disk1, data, length, bs) && |disk| == |disk1|
    requires data' == if BlockCount(length, bs) < |data| then data[..BlockCount(length, bs)] else data
    requires forall i :: 0 <= i < |data| ==> data[i] !in index
    requires forall b :: 0 <= b < |disk| && b !in index ==> disk[b] == disk1[b]
    ensures CutBytes(disk0, disk, data, data', length, bs)
    ensures Contents(disk, data', length, bs) == Contents(disk0, data, length, bs)
  {
    forall q: nat
      ensures FileByte(disk, data', bs, q) == if q < length then FileByte(disk0, data, bs, q) else 0
    {
      CutPosition(q, length, bs);
      assert q / bs < |data'| ==> FileByte(disk, data', bs, q) == FileByte(disk1, data, bs, q);
    }
  }

  method MapBlock(v: Volume, ino: Inode, idx: nat) returns (phys: word)
    requires v.Valid() && v.FileOk(ino) && Mappable(v.disk, idx, |ino.data|, v.N())
    ensures phys == if idx < |ino.data| then ino.data[idx] else 0
  {
    PlacedBmapEverywhere(v.disk, v.used, ino.iBlock, ino.iBlocks, ino.trees, ino.data, ino.own, ino.index, v.N(), v.W(),
                         idx);
    phys := Bmap(v.disk, ino.iBlock, idx, v.N());
  }

  lemma TailUntouched(disk: Disk, data: seq<nat>, length: nat, idx: nat, off: nat, bs: nat)
    requires BlockSize(bs) && PosIs(length, idx, off, bs) && (off == 0 || idx >= |data|)
    ensures TailCleared(disk, disk, data, length, bs)
  {
    assert Look(length, 0);
  }

  lemma TailZeroed(disk0: Disk, data: seq<nat>, length: nat, idx: nat, off: nat, bs: nat)
    requires BlockSize(bs) && PosIs(length, idx, off, bs) && off != 0 && idx < |data| && Apart(data)
    requires data[idx] < |disk0| && |disk0[data[idx]]| == bs
    ensures off < bs
    ensures TailCleared(disk0, disk0[data[idx] := disk0[data[idx]][..off] + Zeros(bs - off)], data, length, bs)
  {
    assert Look(length, 0);
    PositionInBlock(length, length, bs);
    TailBytes(disk0, disk0[data[idx] := disk0[data[idx]][..off] + Zeros(bs - off)], data, length, bs);
  }

  /** `TailCleared`, kept folded. */
  ghost predicate Tidy(disk0: Disk, disk: Disk, data: seq<nat>, length: nat, bs: nat) {
    |disk| == |disk0| && forall u :: Look(data, u) ==> TailCleared(disk0, disk, data, length, bs)
  }

  /** The first part of `ext2_truncate`: zero the rest of the last kept block. */
  method ZeroTail(v: Volume, ino: Inode, length: nat, idx: nat, off: nat)
    requires v.Valid() && v.FileOk(ino) && PosIs(length, idx, off, v.bsize) && Mappable(v.disk, idx, |ino.data|, v.N())
    modifies v`disk
    ensures v.Valid() && v.FileOk(ino) && Tidy(old(v.disk), v.disk, ino.data, length, v.bsize)
  {
    var phys := 0;
    if off != 0 {
      phys := MapBlock(v, ino, idx);
    }
    PlacedData(v.disk, v.used, ino.iBlock, ino.iBlocks, ino.trees, ino.data, ino.own, ino.index, v.N(), v.W());
    if phys != 0 {
      BlockIsSized(v, phys as nat);
      TailZeroed(v.disk, ino.data, length, idx, off, v.bsize);
      StoreBlock(v, ino, idx, phys, v.disk[phys][..off] + Zeros(v.bsize - off));
    } else {
      TailUntouched(v.disk, ino.data, length, idx, off, v.bsize);
    }
  }

  /** The block and offset of the new end, and the number of blocks kept. */
  method CutAt(length: nat, bs: nat) returns (idx: nat, off: nat, cut: nat)
    requires BlockSize(bs)
    ensures PosIs(length, idx, off, bs) && cut == BlockCount(length, bs) && Holds(cut, length, bs)
  {
    cut := (length + bs - 1) / bs;
    off := length % bs;
    idx := length / bs;
  }

  /** A cut is looked up rightly when it does not extend the file, or when block 0 is blank. */
  ghost predicate MayCut(v: Volume, ino: Inode, length: nat)
    reads v, v.balloc, ino
  {
    v.Valid() && v.FileOk(ino) && (BlankBoot(v.disk, v.N()) || (Ready(v, ino) && Packed(v, ino) && length <= ino.iSize))
  }

  lemma MayCutMaps(v: Volume, ino: Inode, length: nat, idx: nat, off: nat)
    requires MayCut(v, ino, length) && length < WORD_LIMIT && PosIs(length, idx, off, v.bsize)
    ensures Mappable(v.disk, idx, |ino.data|, v.N())
  {
    assert Look(length, 0) && Look<nat>(ino.iSize, 0);
    SizeFits(length, v.bsize);
    BlockIsSized(v, 0);
    if !BlankBoot(v.disk, v.N()) {
      PositionInBlock(length, ino.iSize, v.bsize);
      assert BlankWord(v.disk, v.N());
    }
  }

  lemma TidyBytes(disk0: Disk, disk1: Disk, disk: Disk, data: seq<nat>, data': seq<nat>, index: set<nat>,
                  length: nat, cut: nat, bs: nat)
    requires BlockSize(bs) && Tidy(disk0, disk1, data, length, bs) && |disk| == |disk1| && Holds(cut, length, bs)
    requires data' == if cut < |data| then data[..cut] else data
    requires forall i :: 0 <= i < |data| ==> data[i] !in index
    requires forall b :: 0 <= b < |disk| && b !in index ==> disk[b] == disk1[b]
    ensures CutBytes(disk0, disk, data, data', length, bs)
    ensures Contents(disk, data', length, bs) == Contents(disk0, data, length, bs)
    ensures forall b :: 0 <= b < |disk| && b !in index && b !in data ==> disk[b] == disk0[b]
  {
    assert Look(data, 0) && Look(length, 0);
    TruncatedBytes(disk0, disk1, disk, data, data', index, length, bs);
  }

  lemma FreedIsOwned(disk: Disk, used: set<nat>, iBlock: seq<word>, iBlocks: nat, trees: seq<Tree>, data: seq<nat>,
                     own: set<nat>, index: set<nat>, n: nat, w: nat, cut: nat)
    requires Placed(disk, used, iBlock, iBlocks, trees, data, own, index, n, w) && n > 0
    ensures ShapedSlots(trees, n) && FileBlocksFrom(trees, cut, n) <= own
    ensures forall i :: 0 <= i < |data| ==> (data[i] in FileBlocksFrom(trees, cut, n) <==> i >= cut)
  {
    assert Look(trees, 0);
    TruncateSlots(trees, cut, n);
    InodeOkShaped(disk, iBlock, trees, n);
    forall i | 0 <= i < |data|
      ensures data[i] in FileBlocksFrom(trees, cut, n) <==> i >= cut
    {
      HoleFreeMap(trees, |data|, i, n);
      TruncateFrees(trees, cut, n, i);
    }
  }

  lemma ContentsPrefix(disk: Disk, data: seq<nat>, size: nat, length: nat, bs: nat)
    requires bs > 0 && length <= size
    ensures Contents(disk, data, length, bs) == Contents(disk, data, size, bs)[..length]
  {
  }

  /** A shrunk file has exactly the blocks its size needs. */
  lemma ShrunkHolds(count: nat, size: nat, length: nat, cut: nat, bs: nat)
    requires BlockSize(bs) && Holds(count, size, bs) && length <= size && cut == BlockCount(length, bs)
    ensures cut <= count && Holds(cut, length, bs)
  {
    assert Look(size, 0);
    if bs == 1024 {
    } else if bs == 2048 {
    } else {
    }
  }

  /**
   `do_truncate` with `ext2_truncate`. Exactly the data and index blocks from the cut on are freed. Every byte below the
   new size is as before, whether the file shrinks or grows; behind it the blocks hold zeros.
   */
  method Truncate(v: Volume, ino: Inode, length: nat)
    requires MayCut(v, ino, length) && length < 0x8000_0000
    modifies v`disk, v`used, v.balloc, ino
    ensures v.Valid() && v.FileOk(ino) && ino.iSize == length && ShapedSlots(old(ino.trees), v.N())
    ensures var freed := FileBlocksFrom(old(ino.trees), BlockCount(length, v.bsize), v.N());
            v.used == old(v.used) - freed && ino.own == old(ino.own) - freed
    ensures CutBytes(old(v.disk), v.disk, old(ino.data), ino.data, length, v.bsize)
    ensures Bytes(v, ino) == Contents(old(v.disk), old(ino.data), length, v.bsize)
    ensures |v.disk| == |old(v.disk)|
    ensures forall b :: 0 <= b < |v.disk| && b !in old(ino.own) ==> v.disk[b] == old(v.disk)[b]
    ensures var cut := BlockCount(length, v.bsize);
            ino.data == if cut < |old(ino.data)| then old(ino.data)[..cut] else old(ino.data)
  {
    var idx, off, cut := CutAt(length, v.bsize);
    MayCutMaps(v, ino, length, idx, off);
    ino.iSize := length;
    PlacedData(v.disk, v.used, ino.iBlock, ino.iBlocks, ino.trees, ino.data, ino.own, ino.index, v.N(), v.W());
    ZeroTail(v, ino, length, idx, off);
    ghost var disk1 := v.disk;
    FreeFrom(v, ino, cut);
    TidyBytes(old(v.disk), disk1, v.disk, old(ino.data), ino.data, old(ino.index), length, cut, v.bsize);
  }

  /** Shrinking a file keeps a prefix of its bytes, and leaves it ready for reading and writing. */
  method Shrink(v: Volume, ino: Inode, length: nat)
    requires Ready(v, ino) && Packed(v, ino) && length <= ino.iSize && length < 0x8000_0000
    modifies v`disk, v`used, v.balloc, ino
    ensures Ready(v, ino) && Packed(v, ino) && ino.iSize == length
    ensures Bytes(v, ino) == old(Bytes(v, ino))[..length]
  {
    ShrunkHolds(|ino.data|, ino.iSize, length, BlockCount(length, v.bsize), v.bsize);
    ContentsPrefix(v.disk, ino.data, ino.iSize, length, v.bsize);
    PlacedData(v.disk, v.used, ino.iBlock, ino.iBlocks, ino.trees, ino.data, ino.own, ino.index, v.N(), v.W());
    FreedIsOwned(v.disk, v.used, ino.iBlock, ino.iBlocks, ino.trees, ino.data, ino.own, ino.index, v.N(), v.W(),
                 BlockCount(length, v.bsize));
    Truncate(v, ino, length);
  }

  /** Cutting or growing one file leaves another one, with blocks of its own, in place and as it was. */
  method TruncateBeside(v: Volume, ino: Inode, other: Inode, length: nat)
    requires MayCut(v, ino, length) && length < 0x8000_0000
    requires v.FileOk(other) && ino != other && ino.own !! other.own
    modifies v`disk, v`used, v.balloc, ino
    ensures v.Valid() && v.FileOk(ino) && v.FileOk(other) && ino.own !! other.own
    ensures Bytes(v, other) == old(Bytes(v, other))
  {
    PlacedData(v.disk, v.used, other.iBlock, other.iBlocks, other.trees, other.data, other.own, other.index, v.N(),
               v.W());
    FreedIsOwned(v.disk, v.used, ino.iBlock, ino.iBlocks, ino.trees, ino.data, ino.own, ino.index, v.N(), v.W(),
                 BlockCount(length, v.bsize));
    Truncate(v, ino, length);
    KeptBeside(v, old(v.disk), old(v.used), old(ino.own), other);
  }
}
