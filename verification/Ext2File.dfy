/**
 Regular files of fs/ext2: growing and truncating the block map on the disk (inode.c), and reading and
 writing bytes through it (file.c). The volume is an array of blocks with a block allocator beside it.
 */
module Ext2File {
  import opened Folding
  import opened Options
  import opened Words
  import opened BlockTree
  import opened InodeMap
  import opened GroupAllocation

  const SECTOR_SIZE := 512

  datatype Status = Ok | NoSpace

  /**
   The in-memory inode. The ghost fields say what its pointers denote on the disk: the trees, the data
   blocks in logical order, all blocks the file owns, and those of them that are index blocks.
   */
  class Inode {
    var iBlock: seq<word>
    var iSize: word
    var iBlocks: nat
    ghost var trees: seq<Tree>
    ghost var data: seq<nat>
    ghost var own: set<nat>
    ghost var index: set<nat>
  }

  /** Logical block `idx` is reached through slot `s` along `path`. */
  ghost predicate At(idx: nat, s: nat, path: seq<nat>, n: nat) {
    forall u :: Look(path, u) ==> Fanout(n) && idx < Capacity(n) && s == SlotOf(idx, n) && path == SlotPath(idx, n)
  }

  /**
   A hole-free file in place on the disk: the pointers denote the trees, whose blocks are distinct and in use;
   the data blocks are `data`, in order, and no index block exists that they do not need; `i_blocks` counts all blocks.
   */
  ghost predicate InPlace(disk: Disk, used: set<nat>, iBlock: seq<word>, iBlocks: nat, trees: seq<Tree>,
                          data: seq<nat>, own: set<nat>, index: set<nat>, n: nat, w: nat)
  {
    && InodeOk(disk, iBlock, trees, n) && KidsDistinct(trees)
    && own == BlocksOf(trees) && index == IndexOf(trees) && own <= used
    && iBlocks == Sectors(|own|, w)
    && ShapedSlots(trees, n) && HoleFree(trees, |data|, n) && |data| <= Capacity(n)
    && forall i :: 0 <= i < |data| ==> MapOf(trees, i, n) == data[i]
  }

  /** `InPlace`, kept folded. */
  ghost predicate Placed(disk: Disk, used: set<nat>, iBlock: seq<word>, iBlocks: nat, trees: seq<Tree>,
                         data: seq<nat>, own: set<nat>, index: set<nat>, n: nat, w: nat)
  {
    forall u :: Look(trees, u) ==> InPlace(disk, used, iBlock, iBlocks, trees, data, own, index, n, w)
  }

  /**
   What is left of `InPlace` when an append ran out of blocks on its way: the same map, but index blocks may exist that
   it does not need.
   */
  ghost predicate Traced(disk: Disk, used: set<nat>, iBlock: seq<word>, iBlocks: nat, trees: seq<Tree>,
                         data: seq<nat>, own: set<nat>, index: set<nat>, n: nat, w: nat)
  {
    && InodeOk(disk, iBlock, trees, n) && KidsDistinct(trees)
    && own == BlocksOf(trees) && index == IndexOf(trees) && own <= used
    && iBlocks == Sectors(|own|, w) && ShapedSlots(trees, n)
    && forall i: nat :: MapOf(trees, i, n) == if i < |data| then data[i] else 0
  }

  /** `Traced`, kept folded. */
  ghost predicate Legible(disk: Disk, used: set<nat>, iBlock: seq<word>, iBlocks: nat, trees: seq<Tree>,
                          data: seq<nat>, own: set<nat>, index: set<nat>, n: nat, w: nat)
  {
    forall u :: Look(trees, u) ==> Traced(disk, used, iBlock, iBlocks, trees, data, own, index, n, w)
  }

  lemma PlacedLegible(disk: Disk, used: set<nat>, iBlock: seq<word>, iBlocks: nat, trees: seq<Tree>, data: seq<nat>,
                      own: set<nat>, index: set<nat>, n: nat, w: nat)
    requires Placed(disk, used, iBlock, iBlocks, trees, data, own, index, n, w)
    ensures Legible(disk, used, iBlock, iBlocks, trees, data, own, index, n, w)
  {
    assert Look(trees, 0);
    InodeOkShaped(disk, iBlock, trees, n);
    forall i: nat
      ensures MapOf(trees, i, n) == if i < |data| then data[i] else 0
    {
      if i < Capacity(n) {
        HoleFreeMap(trees, |data|, i, n);
      }
    }
    assert Traced(disk, used, iBlock, iBlocks, trees, data, own, index, n, w);
  }

  /** A subtree in place on the disk, made of blocks in use. */
  ghost predicate TreeIn(disk: Disk, used: set<nat>, p: nat, level: nat, t: Tree, n: nat) {
    Sized(disk, n) && Represents(disk, p, level, t, n) && Distinct(t) && Blocks(t) <= used
  }

  /** Slot `k` aside, the pointers of index block `t.b` and every index block below it are as they were. */
  ghost predicate BesidesKept(disk: Disk, disk': Disk, t: Tree, k: nat, n: nat)
    requires Sized(disk, n) && Sized(disk', n) && |disk| == |disk'| && t.Node? && t.b < |disk|
  {
    && |t.kids| == n
    && (forall j :: 0 <= j < n && j != k ==> Ptr(disk'[t.b], j) == Ptr(disk[t.b], j))
    && (forall j, b :: 0 <= j < n && j != k && b in IndexBlocks(t.kids[j]) && b < |disk| ==> disk'[b] == disk[b])
  }

  /** Replacing one subtree, when the pointer to it and the blocks under it are all that changed. */
  lemma ReplaceKid(disk: Disk, disk': Disk, level: nat, t: Tree, k: nat, kid': Tree, n: nat)
    requires Sized(disk, n) && Sized(disk', n) && |disk| == |disk'| && k < n
    requires t.Node? && Represents(disk, t.b, level, t, n)
    requires Represents(disk', Ptr(disk'[t.b], k), level - 1, kid', n)
    requires BesidesKept(disk, disk', t, k, n)
    ensures Represents(disk', t.b, level, Node(t.b, t.kids[k := kid']), n)
  {
    forall j | 0 <= j < n
      ensures Represents(disk', Ptr(disk'[t.b], j), level - 1, t.kids[k := kid'][j], n)
    {
      if j != k {
        RepresentsFrame(disk, disk', Ptr(disk[t.b], j), level - 1, t.kids[j], n);
      }
    }
  }

  lemma ReplaceKidBlocks(t: Tree, k: nat, kid': Tree)
    requires t.Node? && Distinct(t) && k < |t.kids| && Distinct(kid')
    requires forall b :: b in Blocks(kid') && b in Blocks(t) ==> b in Blocks(t.kids[k])
    ensures var t' := Node(t.b, t.kids[k := kid']);
            && Distinct(t')
            && Blocks(t') == Blocks(t) - Blocks(t.kids[k]) + Blocks(kid')
  {
    var kids' := t.kids[k := kid'];
    var t' := Node(t.b, kids');
    assert t.b in Blocks(t) && t.b !in Blocks(t.kids[k]);
    forall j | 0 <= j < |kids'| && j != k
      ensures Blocks(kids'[j]) !! Blocks(kid') && Blocks(t.kids[j]) !! Blocks(t.kids[k])
    {
      assert forall b :: b in Blocks(t.kids[j]) ==> b in Blocks(t);
      assert j < k ==> Blocks(t.kids[j]) !! Blocks(t.kids[k]);
      assert k < j ==> Blocks(t.kids[k]) !! Blocks(t.kids[j]);
    }
    forall b
      ensures b in Blocks(t') <==> (b in Blocks(t) && b !in Blocks(t.kids[k])) || b in Blocks(kid')
    {
      if b in Blocks(t) && b != t.b && b !in Blocks(t.kids[k]) {
        var j :| 0 <= j < |t.kids| && b in Blocks(t.kids[j]);
        assert b in Blocks(kids'[j]);
      }
      if b in Blocks(kid') {
        assert b in Blocks(kids'[k]);
      }
      if b in Blocks(t') && b != t.b && b !in Blocks(kid') {
        var j :| 0 <= j < |kids'| && b in Blocks(kids'[j]);
        assert b in Blocks(t.kids[j]);
      }
    }
  }

  /** The last step of an append: the data block's number goes into its slot, whatever was there. */
  lemma AppendLeaf(disk: Disk, disk': Disk, used: set<nat>, p: nat, path: seq<nat>, phys: word, t: Tree, n: nat)
    requires TreeIn(disk, used, p, 1, t, n) && t.Node? && |path| == 1 && IsPath(path, 1, n) && Shaped(t, 1, n)
    requires 0 < phys < |disk| && phys in used && phys !in Blocks(t)
    requires disk' == disk[p := SetPtr(disk[p], path[0], phys)]
    ensures var t' := Node(t.b, t.kids[path[0] := Leaf(phys)]);
            && TreeIn(disk', used, p, 1, t', n) && Shaped(t', 1, n)
            && Put(t, t', path, phys, n) && (Lookup(t, path, n) == 0 ==> Inserted(t, t', path, phys, n))
            && Blocks(t') == Blocks(t) - {Lookup(t, path, n)} + {phys}
  {
    var k := path[0];
    RepresentsIsShaped(disk, Ptr(disk[p], k), 0, t.kids[k], n);
    LeafBlocks(t.kids[k], path[1..], n);
    assert Lookup(t, path, n) == Lookup(t.kids[k], path[1..], n);
    assert forall j :: 0 <= j < n ==> IndexBlocks(t.kids[j]) == {} by {
      assert forall j :: 0 <= j < n ==> Shaped(t.kids[j], 0, n);
    }
    ReplaceKid(disk, disk', 1, t, k, Leaf(phys), n);
    ReplaceKidBlocks(t, k, Leaf(phys));
    NotZero(disk, p, 1, t, n);
    SwapOne(Blocks(t), Blocks(t.kids[k]), Lookup(t, path, n), phys);
  }

  lemma LeafBlocks(t: Tree, path: seq<nat>, n: nat)
    requires Shaped(t, 0, n) && path == []
    ensures Blocks(t) == (if Lookup(t, path, n) == 0 then Blocks(t) else {Lookup(t, path, n)})
    ensures t.Null? ==> Blocks(t) == {} && Lookup(t, path, n) == 0
    ensures t.Leaf? ==> Blocks(t) == {Lookup(t, path, n)}
  {
  }

  /** Block 0 is no block of a tree. */
  lemma {:induction false} NotZero(disk: Disk, p: nat, level: nat, t: Tree, n: nat)
    requires Sized(disk, n) && Represents(disk, p, level, t, n)
    ensures 0 !in Blocks(t)
    decreases level
  {
    if t.Node? {
      forall i | 0 <= i < n
        ensures 0 !in Blocks(t.kids[i])
      {
        NotZero(disk, Ptr(disk[t.b], i), level - 1, t.kids[i], n);
      }
    }
  }

  lemma SwapOne(all: set<nat>, part: set<nat>, lost: nat, x: nat)
    requires 0 !in all && (part == {lost} || (part == {} && lost == 0))
    ensures all - part + {x} == all - {lost} + {x}
  {
  }

  /** `count` blocks of `w` sectors each. */
  function Sectors(count: nat, w: nat): nat {
    if count == 0 then 0 else Sectors(count - 1, w) + w
  }

  /** `i_blocks` counts `w` sectors for each block. */
  lemma {:induction false} SectorsIsProduct(count: nat, w: nat)
    ensures Sectors(count, w) == count * w
  {
    if count > 0 {
      SectorsIsProduct(count - 1, w);
    }
  }

  /** The sector count after an append, from the sizes of the block sets before and after. */
  lemma {:induction false} SectorsStep(own: nat, own': nat, used: nat, used': nat, w: nat, x: nat, x': nat)
    requires own' + used == own + used' + 1
    requires x == Sectors(own, w) && x' + Sectors(used, w) == x + Sectors(used', w) + w
    ensures x' == Sectors(own', w)
  {
    var total := own' + used;
    SectorsAdd(own', used, total, w);
    SectorsAdd(own, used', total - 1, w);
    SectorsNext(total - 1, w);
  }

  lemma SectorsNext(count: nat, w: nat)
    ensures Sectors(count + 1, w) == Sectors(count, w) + w
  {
  }

  lemma {:induction false} SectorsAdd(a: nat, b: nat, sum: nat, w: nat)
    requires sum == a + b
    ensures Sectors(sum, w) == Sectors(a, w) + Sectors(b, w)
    decreases b
  {
    if b > 0 {
      SectorsAdd(a, b - 1, sum - 1, w);
    }
  }

  lemma SectorsOneMore(used: set<nat>, x: nat, w: nat)
    requires x !in used
    ensures Sectors(|used + {x}|, w) == Sectors(|used|, w) + w
  {
    assert |used + {x}| == |used| + 1;
  }

  /** `i_blocks` went up by the sectors of the blocks taken into use (kept folded). */
  ghost predicate Charged(iBlocks: nat, used: set<nat>, iBlocks': nat, used': set<nat>, w: nat) {
    forall u :: Look(used, u) ==> iBlocks' + Sectors(|used|, w) == iBlocks + Sectors(|used'|, w)
  }

  lemma ChargedOne(iBlocks: nat, used: set<nat>, x: nat, w: nat)
    requires x !in used
    ensures Charged(iBlocks, used, iBlocks + w, used + {x}, w)
  {
    SectorsOneMore(used, x, w);
  }

  lemma ChargedTwice(iBlocks: nat, used: set<nat>, iBlocks1: nat, used1: set<nat>, iBlocks2: nat, used2: set<nat>,
                     w: nat)
    requires Charged(iBlocks, used, iBlocks1, used1, w) && Charged(iBlocks1, used1, iBlocks2, used2, w)
    ensures Charged(iBlocks, used, iBlocks2, used2, w)
  {
    assert Look(used, 0) && Look(used1, 0);
  }

  /** What an append did to a subtree: stored the data block, over an old one or not, and added fresh index blocks. */
  ghost predicate Grown(t: Tree, t': Tree, path: seq<nat>, phys: nat, more: set<nat>, n: nat)
    requires Shaped(t, |path|, n) && IsPath(path, |path|, n)
  {
    && Shaped(t', |path|, n) && Put(t, t', path, phys, n)
    && (Lookup(t, path, n) == 0 ==> Inserted(t, t', path, phys, n))
    && Blocks(t') == Blocks(t) - {Lookup(t, path, n)} + {phys} + more
  }

  /** What an append did that ran out of blocks: added fresh index blocks, and no mapping. */
  ghost predicate Padded(t: Tree, t': Tree, level: nat, more: set<nat>, n: nat) {
    && Shaped(t, level, n) && Shaped(t', level, n) && Blocks(t') == Blocks(t) + more
    && forall q :: IsPath(q, level, n) ==> Lookup(t', q, n) == Lookup(t, q, n)
  }

  /** All index blocks on the way are there. */
  ghost predicate Leads(t: Tree, path: seq<nat>, n: nat)
    requires Shaped(t, |path|, n) && IsPath(path, |path|, n)
    decreases |path|
  {
    path == [] || (t.Node? && Leads(t.kids[path[0]], path[1..], n))
  }

  /** Index block `child` is in place below slot `path[0]` of `t`: the old subtree, or a fresh empty one. */
  ghost predicate Opened(disk: Disk, disk': Disk, used: set<nat>, used': set<nat>, path: seq<nat>, t: Tree,
                         child: word, kid: Tree, n: nat)
    requires Sized(disk, n) && Sized(disk', n) && |disk| == |disk'| && t.Node? && t.b < |disk|
    requires |path| > 1 && path[0] < n == |t.kids|
  {
    var k := path[0];
    && TreeIn(disk', used', child, |path| - 1, kid, n) && kid.Node? && Shaped(kid, |path| - 1, n)
    && Ptr(disk'[t.b], k) == child
    && (forall j :: 0 <= j < n && j != k ==> Ptr(disk'[t.b], j) == Ptr(disk[t.b], j))
    && (forall b :: 0 <= b < |disk| && b in used && b != t.b ==> disk'[b] == disk[b])
    && Blocks(kid) == Blocks(t.kids[k]) + (used' - used)
    && IndexBlocks(kid) <= IndexBlocks(t.kids[k]) + (used' - used)
    && (kid == t.kids[k] || (t.kids[k].Null? && kid == Node(child, Nulls(n))))
  }

  lemma EmptyNode(disk: Disk, child: nat, level: nat, n: nat)
    requires Sized(disk, n) && level > 0 && 0 < child < |disk| && disk[child] == Zeros(4 * n)
    ensures Represents(disk, child, level, Node(child, Nulls(n)), n) && Distinct(Node(child, Nulls(n)))
    ensures Shaped(Node(child, Nulls(n)), level, n)
    ensures Blocks(Node(child, Nulls(n))) == {child} && IndexBlocks(Node(child, Nulls(n))) == {child}
  {
    var kids := Nulls(n);
    assert forall i :: 0 <= i < n ==> kids[i] == Null && Blocks(kids[i]) == {} && IndexBlocks(kids[i]) == {};
  }

  lemma OpenedFresh(disk: Disk, disk': Disk, used: set<nat>, path: seq<nat>, t: Tree, child: word, n: nat)
    requires |path| > 1 && IsPath(path, |path|, n)
    requires t.Node? && TreeIn(disk, used, t.b, |path|, t, n) && t.kids[path[0]].Null?
    requires 0 < child < |disk| && child !in used
    requires disk' == disk[child := Zeros(4 * n)][t.b := SetPtr(disk[t.b], path[0], child)]
    ensures Sized(disk', n)
    ensures Opened(disk, disk', used, used + {child as nat}, path, t, child, Node(child, Nulls(n)), n)
  {
    assert t.b in Blocks(t);
    assert disk'[child] == Zeros(4 * n);
    EmptyNode(disk', child, |path| - 1, n);
    assert used + {child as nat} - used == {child as nat};
  }

  lemma OpenedOld(disk: Disk, used: set<nat>, path: seq<nat>, t: Tree, n: nat)
    requires |path| > 1 && IsPath(path, |path|, n)
    requires t.Node? && TreeIn(disk, used, t.b, |path|, t, n) && !t.kids[path[0]].Null?
    ensures Opened(disk, disk, used, used, path, t, Ptr(disk[t.b], path[0]), t.kids[path[0]], n)
  {
    var k := path[0];
    RepresentsIsShaped(disk, Ptr(disk[t.b], k), |path| - 1, t.kids[k], n);
    assert forall b :: b in Blocks(t.kids[k]) ==> b in Blocks(t);
    assert used - used == {};
  }

  lemma KidsApart(t: Tree, j: nat, k: nat, b: nat)
    requires t.Node? && Distinct(t) && j < |t.kids| && k < |t.kids| && j != k && b in Blocks(t.kids[j])
    ensures b in Blocks(t) && b != t.b && b !in Blocks(t.kids[k])
  {
    assert j < k ==> Blocks(t.kids[j]) !! Blocks(t.kids[k]);
    assert k < j ==> Blocks(t.kids[k]) !! Blocks(t.kids[j]);
  }

  lemma DeeperBesides(disk0: Disk, disk1: Disk, disk2: Disk, used0: set<nat>, used1: set<nat>, path: seq<nat>, t: Tree,
                      child: word, kid: Tree, n: nat)
    requires Sized(disk0, n) && Sized(disk1, n) && Sized(disk2, n) && |disk0| == |disk1| == |disk2|
    requires |path| > 1 && path[0] < n
    requires t.Node? && t.b < |disk0| && |t.kids| == n && Distinct(t) && Blocks(t) <= used0 <= used1
    requires Opened(disk0, disk1, used0, used1, path, t, child, kid, n)
    requires forall b :: 0 <= b < |disk0| && b in used1 && b !in IndexBlocks(kid) ==> disk2[b] == disk1[b]
    ensures disk2[t.b] == disk1[t.b] && BesidesKept(disk0, disk2, t, path[0], n)
  {
    var k := path[0];
    IndexWithinBlocks(kid);
    assert t.b in Blocks(t) && t.b !in Blocks(kid);
    forall j, b | 0 <= j < n && j != k && b in IndexBlocks(t.kids[j]) && b < |disk0|
      ensures disk2[b] == disk0[b]
    {
      IndexWithinBlocks(t.kids[j]);
      KidsApart(t, j, k, b);
      assert b !in Blocks(kid);
    }
  }

  /** A subtree that grew is still in place: nothing above or beside it moved. */
  lemma DeeperInPlace(disk0: Disk, disk1: Disk, disk2: Disk, used0: set<nat>, used1: set<nat>, path: seq<nat>, t: Tree,
                      child: word, kid: Tree, kid': Tree, n: nat)
    requires Sized(disk1, n) && Sized(disk2, n) && |disk0| == |disk1| == |disk2|
    requires |path| > 1 && IsPath(path, |path|, n)
    requires t.Node? && TreeIn(disk0, used0, t.b, |path|, t, n) && used0 <= used1
    requires Opened(disk0, disk1, used0, used1, path, t, child, kid, n)
    requires Represents(disk2, child, |path| - 1, kid', n)
    requires forall b :: 0 <= b < |disk0| && b in used1 && b !in IndexBlocks(kid) ==> disk2[b] == disk1[b]
    ensures Represents(disk2, t.b, |path|, Node(t.b, t.kids[path[0] := kid']), n)
    ensures forall b :: 0 <= b < |disk0| && b in used0 && b !in IndexBlocks(t) ==> disk2[b] == disk0[b]
  {
    var k := path[0];
    DeeperBesides(disk0, disk1, disk2, used0, used1, path, t, child, kid, n);
    ReplaceKid(disk0, disk2, |path|, t, k, kid', n);
    assert t.b in IndexBlocks(t);
    forall b | 0 <= b < |disk0| && b in used0 && b !in IndexBlocks(t)
      ensures disk2[b] == disk0[b]
    {
      assert b in IndexBlocks(t.kids[k]) ==> b in IndexBlocks(t);
    }
  }

  /** The blocks of a tree whose subtree grew. */
  lemma DeeperBlocks(used0: set<nat>, used1: set<nat>, used2: set<nat>, t: Tree, k: nat, kid: Tree, kid': Tree,
                     lost: nat, phys: nat)
    requires used0 <= used1 <= used2 && t.Node? && k < |t.kids|
    requires Distinct(t) && Blocks(t) <= used0 && Distinct(kid') && phys !in Blocks(t)
    requires lost in used0 && (lost in Blocks(t.kids[k]) || lost !in Blocks(t))
    requires Blocks(kid) == Blocks(t.kids[k]) + (used1 - used0)
    requires Blocks(kid') == Blocks(kid) - {lost} + {phys} + (used2 - used1)
    ensures var t' := Node(t.b, t.kids[k := kid']);
            Distinct(t') && Blocks(t') == Blocks(t) - {lost} + {phys} + (used2 - used0)
  {
    assert forall b :: b in Blocks(t.kids[k]) ==> b in Blocks(t);
    forall b | b in Blocks(kid') && b in Blocks(t)
      ensures b in Blocks(t.kids[k])
    {
    }
    ReplaceKidBlocks(t, k, kid');
    BlocksSwapped(used0, used1, used2, Blocks(t), Blocks(t.kids[k]), lost, {phys});
  }

  lemma BlocksSwapped(used0: set<nat>, used1: set<nat>, used2: set<nat>, all: set<nat>, part: set<nat>, lost: nat,
                      extra: set<nat>)
    requires part <= all <= used0 <= used1 <= used2 && lost in used0 && (lost in part || lost !in all)
    ensures all - part + (part + (used1 - used0) - {lost} + extra + (used2 - used1))
            == all - {lost} + extra + (used2 - used0)
  {
  }

  /** The map of a tree whose subtree grew. */
  lemma DeeperGrown(used0: set<nat>, used1: set<nat>, used2: set<nat>, path: seq<nat>, t: Tree,
                    child: word, kid: Tree, kid': Tree, phys: nat, n: nat)
    requires |path| > 1 && IsPath(path, |path|, n) && used0 <= used1 <= used2 && 0 in used0 && 0 !in Blocks(t)
    requires t.Node? && Shaped(t, |path|, n) && Distinct(t) && Blocks(t) <= used0 && Distinct(kid')
    requires phys in used0 && phys !in Blocks(t)
    requires Shaped(kid, |path| - 1, n)
    requires Blocks(kid) == Blocks(t.kids[path[0]]) + (used1 - used0)
    requires kid == t.kids[path[0]] || (t.kids[path[0]].Null? && kid == Node(child, Nulls(n)))
    requires Grown(kid, kid', path[1..], phys, used2 - used1, n)
    ensures var t' := Node(t.b, t.kids[path[0] := kid']);
            Distinct(t') && Grown(t, t', path, phys, used2 - used0, n)
  {
    var lost := Lookup(t, path, n);
    assert lost == Lookup(t.kids[path[0]], path[1..], n) == Lookup(kid, path[1..], n);
    LookupWithin(t.kids[path[0]], path[1..], n);
    assert forall b :: b in Blocks(t.kids[path[0]]) ==> b in Blocks(t);
    DeeperBlocks(used0, used1, used2, t, path[0], kid, kid', lost, phys);
    assert Put(t.kids[path[0]], kid', path[1..], phys, n);
    assert lost == 0 ==> Inserted(t.kids[path[0]], kid', path[1..], phys, n);
  }

  lemma {:induction false} LookupWithin(t: Tree, path: seq<nat>, n: nat)
    requires Shaped(t, |path|, n) && IsPath(path, |path|, n)
    ensures Lookup(t, path, n) == 0 || Lookup(t, path, n) in Blocks(t)
    decreases |path|
  {
    if t.Node? {
      LookupWithin(t.kids[path[0]], path[1..], n);
      assert forall b :: b in Blocks(t.kids[path[0]]) ==> b in Blocks(t);
    }
  }

  /** All of the above, for one level of an append. */
  lemma AppendDeeper(disk0: Disk, disk1: Disk, disk2: Disk, used0: set<nat>, used1: set<nat>, used2: set<nat>,
                     path: seq<nat>, t: Tree, child: word, kid: Tree, kid': Tree, phys: nat, n: nat)
    requires Sized(disk1, n) && Sized(disk2, n) && |disk0| == |disk1| == |disk2|
    requires |path| > 1 && IsPath(path, |path|, n) && used0 <= used1 <= used2
    requires t.Node? && TreeIn(disk0, used0, t.b, |path|, t, n) && Shaped(t, |path|, n)
    requires 0 in used0 && phys in used0 && phys !in Blocks(t)
    requires Opened(disk0, disk1, used0, used1, path, t, child, kid, n)
    requires TreeIn(disk2, used2, child, |path| - 1, kid', n)
    requires Grown(kid, kid', path[1..], phys, used2 - used1, n)
    requires forall b :: 0 <= b < |disk0| && b in used1 && b !in IndexBlocks(kid) ==> disk2[b] == disk1[b]
    ensures var t' := Node(t.b, t.kids[path[0] := kid']);
            && TreeIn(disk2, used2, t.b, |path|, t', n)
            && Grown(t, t', path, phys, used2 - used0, n)
    ensures forall b :: 0 <= b < |disk0| && b in used0 && b !in IndexBlocks(t) ==> disk2[b] == disk0[b]
  {
    DeeperInPlace(disk0, disk1, disk2, used0, used1, path, t, child, kid, kid', n);
    NotZero(disk0, t.b, |path|, t, n);
    DeeperGrown(used0, used1, used2, path, t, child, kid, kid', phys, n);
  }

  /** One level of an append that ran out of blocks below. */
  lemma PaddedDeeper(disk0: Disk, disk1: Disk, disk2: Disk, used0: set<nat>, used1: set<nat>, used2: set<nat>,
                     path: seq<nat>, t: Tree, child: word, kid: Tree, kid': Tree, n: nat)
    requires Sized(disk1, n) && Sized(disk2, n) && |disk0| == |disk1| == |disk2|
    requires |path| > 1 && IsPath(path, |path|, n) && used0 <= used1 <= used2
    requires t.Node? && TreeIn(disk0, used0, t.b, |path|, t, n) && Shaped(t, |path|, n)
    requires Opened(disk0, disk1, used0, used1, path, t, child, kid, n)
    requires TreeIn(disk2, used2, child, |path| - 1, kid', n) && Padded(kid, kid', |path| - 1, used2 - used1, n)
    requires forall b :: 0 <= b < |disk0| && b in used1 && b !in IndexBlocks(kid) ==> disk2[b] == disk1[b]
    ensures var t' := Node(t.b, t.kids[path[0] := kid']);
            TreeIn(disk2, used2, t.b, |path|, t', n) && Padded(t, t', |path|, used2 - used0, n)
    ensures forall b :: 0 <= b < |disk0| && b in used0 && b !in IndexBlocks(t) ==> disk2[b] == disk0[b]
  {
    DeeperInPlace(disk0, disk1, disk2, used0, used1, path, t, child, kid, kid', n);
    PaddedBlocks(used0, used1, used2, t, path[0], kid, kid');
    PaddedLookup(t, path[0], |path|, kid, kid', child, n);
  }

  lemma PaddedBlocks(used0: set<nat>, used1: set<nat>, used2: set<nat>, t: Tree, k: nat, kid: Tree, kid': Tree)
    requires used0 <= used1 <= used2 && t.Node? && k < |t.kids|
    requires Distinct(t) && Blocks(t) <= used0 && Distinct(kid')
    requires Blocks(kid) == Blocks(t.kids[k]) + (used1 - used0)
    requires Blocks(kid') == Blocks(kid) + (used2 - used1)
    ensures var t' := Node(t.b, t.kids[k := kid']);
            Distinct(t') && Blocks(t') == Blocks(t) + (used2 - used0)
  {
    assert forall b :: b in Blocks(t.kids[k]) ==> b in Blocks(t);
    ReplaceKidBlocks(t, k, kid');
    BlocksPadded(used0, used1, used2, Blocks(t), Blocks(t.kids[k]));
  }

  lemma BlocksPadded(used0: set<nat>, used1: set<nat>, used2: set<nat>, all: set<nat>, part: set<nat>)
    requires part <= all <= used0 <= used1 <= used2
    ensures all - part + (part + (used1 - used0) + (used2 - used1)) == all + (used2 - used0)
  {
  }

  lemma PaddedLookup(t: Tree, k: nat, level: nat, kid: Tree, kid': Tree, child: word, n: nat)
    requires level > 1 && t.Node? && Shaped(t, level, n) && k < n
    requires kid == t.kids[k] || (t.kids[k].Null? && kid == Node(child, Nulls(n)))
    requires Shaped(kid, level - 1, n) && Shaped(kid', level - 1, n)
    requires forall q :: IsPath(q, level - 1, n) ==> Lookup(kid', q, n) == Lookup(kid, q, n)
    ensures var t' := Node(t.b, t.kids[k := kid']);
            Shaped(t', level, n) && forall q :: IsPath(q, level, n) ==> Lookup(t', q, n) == Lookup(t, q, n)
  {
    var t' := Node(t.b, t.kids[k := kid']);
    forall q | IsPath(q, level, n)
      ensures Lookup(t', q, n) == Lookup(t, q, n)
    {
      assert IsPath(q[1..], level - 1, n);
      assert Lookup(kid, q[1..], n) == Lookup(t.kids[k], q[1..], n);
    }
  }

  // ---- The inode's slots ----

  /** Replacing the tree of one slot, when its pointer and the blocks under it are all that changed. */
  lemma ReplaceSlot(disk: Disk, disk': Disk, iBlock: seq<word>, trees: seq<Tree>, s: nat, p': word, t': Tree, n: nat)
    requires InodeOk(disk, iBlock, trees, n) && KidsDistinct(trees) && s < SLOTS
    requires Sized(disk', n) && |disk'| == |disk| && Represents(disk', p', SlotLevel(s), t', n)
    requires forall b :: 0 <= b < |disk| && b in BlocksOf(trees) && b !in IndexBlocks(trees[s]) ==> disk'[b] == disk[b]
    ensures InodeOk(disk', iBlock[s := p'], trees[s := t'], n)
  {
    forall r | 0 <= r < SLOTS && r != s
      ensures Represents(disk', iBlock[r], SlotLevel(r), trees[r], n)
    {
      IndexWithinBlocks(trees[r]);
      IndexWithinBlocks(trees[s]);
      assert r < s ==> Blocks(trees[r]) !! Blocks(trees[s]);
      assert s < r ==> Blocks(trees[s]) !! Blocks(trees[r]);
      assert forall b :: b in IndexBlocks(trees[r]) ==> b in BlocksOf(trees) && b !in IndexBlocks(trees[s]);
      RepresentsFrame(disk, disk', iBlock[r], SlotLevel(r), trees[r], n);
    }
  }

  lemma SlotApart(trees: seq<Tree>, s: nat, t': Tree, r: nat)
    requires KidsDistinct(trees) && s < |trees| && r < |trees| && r != s
    requires forall b :: b in Blocks(t') && b in BlocksOf(trees) ==> b in Blocks(trees[s])
    ensures Blocks(trees[r]) !! Blocks(t') && Blocks(trees[r]) !! Blocks(trees[s])
  {
    assert forall b :: b in Blocks(trees[r]) ==> b in BlocksOf(trees);
    assert r < s ==> Blocks(trees[r]) !! Blocks(trees[s]);
    assert s < r ==> Blocks(trees[s]) !! Blocks(trees[r]);
  }

  lemma ReplaceSlotBlocks(trees: seq<Tree>, s: nat, t': Tree)
    requires KidsDistinct(trees) && s < |trees| && Distinct(t')
    requires forall b :: b in Blocks(t') && b in BlocksOf(trees) ==> b in Blocks(trees[s])
    ensures KidsDistinct(trees[s := t'])
    ensures BlocksOf(trees[s := t']) == BlocksOf(trees) - Blocks(trees[s]) + Blocks(t')
  {
    var trees' := trees[s := t'];
    forall r | 0 <= r < |trees| && r != s
      ensures Blocks(trees[r]) !! Blocks(t') && Blocks(trees[r]) !! Blocks(trees[s])
    {
      SlotApart(trees, s, t', r);
    }
    forall b
      ensures b in BlocksOf(trees') <==> (b in BlocksOf(trees) && b !in Blocks(trees[s])) || b in Blocks(t')
    {
      SlotReplaced(trees, s, t', b);
    }
  }

  lemma SlotReplaced(trees: seq<Tree>, s: nat, t': Tree, b: nat)
    requires s < |trees| && forall r :: 0 <= r < |trees| && r != s ==> Blocks(trees[r]) !! Blocks(trees[s])
    ensures b in BlocksOf(trees[s := t']) <==> (b in BlocksOf(trees) && b !in Blocks(trees[s])) || b in Blocks(t')
  {
    var trees' := trees[s := t'];
    if b in BlocksOf(trees) && b !in Blocks(trees[s]) {
      var r :| 0 <= r < |trees| && b in Blocks(trees[r]);
      assert b in Blocks(trees'[r]);
    }
    if b in Blocks(t') {
      assert b in Blocks(trees'[s]);
    }
    if b in BlocksOf(trees') && b !in Blocks(t') {
      var r :| 0 <= r < |trees| && b in Blocks(trees'[r]);
      assert b in Blocks(trees[r]);
    }
  }

  /** The top index block of a slot is in place: the old one, or a fresh empty one. */
  ghost predicate TopOpened(disk: Disk, used: set<nat>, used': set<nat>, p: word, level: nat, t: Tree, t1: Tree,
                            n: nat) {
    && TreeIn(disk, used', p, level, t1, n) && Shaped(t, level, n) && Shaped(t1, level, n) && used <= used'
    && ((t1 == t && used' == used) || (t.Null? && t1 == Node(p, Nulls(n))))
    && Blocks(t1) == Blocks(t) + (used' - used)
    && IndexBlocks(t1) <= IndexBlocks(t) + (used' - used)
  }

  lemma TopFresh(disk: Disk, used: set<nat>, p: word, level: nat, n: nat)
    requires Sized(disk, n) && level > 0 && 0 < p < |disk| && p !in used && disk[p] == Zeros(4 * n)
    ensures TopOpened(disk, used, used + {p as nat}, p, level, Null, Node(p, Nulls(n)), n)
  {
    EmptyNode(disk, p, level, n);
    assert used + {p as nat} - used == {p as nat};
  }

  lemma TopOld(disk: Disk, used: set<nat>, iBlock: seq<word>, trees: seq<Tree>, s: nat, n: nat)
    requires InodeOk(disk, iBlock, trees, n) && KidsDistinct(trees) && BlocksOf(trees) <= used && s < SLOTS
    ensures TopOpened(disk, used, used, iBlock[s], SlotLevel(s), trees[s], trees[s], n)
    ensures trees[s].Null? <==> iBlock[s] == 0
  {
    RepresentsIsShaped(disk, iBlock[s], SlotLevel(s), trees[s], n);
    assert forall b :: b in Blocks(trees[s]) ==> b in BlocksOf(trees);
    assert used - used == {};
  }

  lemma GrowSets(a: set<nat>, a1: set<nat>, a': set<nat>, lost: nat, extra: set<nat>, used0: set<nat>,
                 used1: set<nat>, used2: set<nat>)
    requires used0 <= used1 <= used2 && lost in used0
    requires a1 == a + (used1 - used0) && a' == a1 - {lost} + extra + (used2 - used1)
    ensures a' == a - {lost} + extra + (used2 - used0)
  {
  }

  /** Growing a fresh top index block is growing the empty slot. */
  lemma TopGrown(disk: Disk, used0: set<nat>, used1: set<nat>, used2: set<nat>, p: word,
                 t: Tree, t1: Tree, t': Tree, path: seq<nat>, phys: nat, n: nat)
    requires path != [] && IsPath(path, |path|, n) && used1 <= used2 && 0 in used0 && Blocks(t) <= used0
    requires TopOpened(disk, used0, used1, p, |path|, t, t1, n)
    requires Grown(t1, t', path, phys, used2 - used1, n)
    ensures Grown(t, t', path, phys, used2 - used0, n)
  {
    TopLookup(disk, used0, used1, p, t, t1, path, n);
    LookupWithin(t, path, n);
    GrowSets(Blocks(t), Blocks(t1), Blocks(t'), Lookup(t, path, n), {phys}, used0, used1, used2);
  }

  lemma TopPadded(disk: Disk, used0: set<nat>, used1: set<nat>, used2: set<nat>, p: word, t: Tree, t1: Tree, t': Tree,
                  level: nat, n: nat)
    requires level > 0 && used1 <= used2 && TopOpened(disk, used0, used1, p, level, t, t1, n)
    requires Padded(t1, t', level, used2 - used1, n)
    ensures Padded(t, t', level, used2 - used0, n)
  {
    forall q | IsPath(q, level, n)
      ensures Lookup(t', q, n) == Lookup(t, q, n)
    {
      TopLookup(disk, used0, used1, p, t, t1, q, n);
    }
    assert Blocks(t) + (used1 - used0) + (used2 - used1) == Blocks(t) + (used2 - used0);
  }

  lemma TopLookup(disk: Disk, used0: set<nat>, used1: set<nat>, p: word, t: Tree, t1: Tree, path: seq<nat>, n: nat)
    requires path != [] && IsPath(path, |path|, n) && TopOpened(disk, used0, used1, p, |path|, t, t1, n)
    ensures Lookup(t1, path, n) == Lookup(t, path, n)
  {
  }

  /** Contents kept by opening the top block and then growing below it. */
  lemma TopFrame(disk0: Disk, disk1: Disk, disk2: Disk, used0: set<nat>, used1: set<nat>, index: set<nat>,
                 index1: set<nat>)
    requires |disk0| == |disk1| == |disk2| && used0 <= used1 && index1 <= index + (used1 - used0)
    requires forall b :: 0 <= b < |disk0| && b in used0 ==> disk1[b] == disk0[b]
    requires forall b :: 0 <= b < |disk0| && b in used1 && b !in index1 ==> disk2[b] == disk1[b]
    ensures forall b :: 0 <= b < |disk0| && b in used0 && b !in index ==> disk2[b] == disk0[b]
  {
  }

  /** Blocks gained by one slot are gained by the file. */
  lemma SlotGains(trees: seq<Tree>, s: nat, t': Tree, gained: set<nat>)
    requires KidsDistinct(trees) && s < |trees| && Distinct(t')
    requires Blocks(t') == Blocks(trees[s]) + gained && gained !! BlocksOf(trees)
    ensures KidsDistinct(trees[s := t']) && BlocksOf(trees[s := t']) == BlocksOf(trees) + gained
    ensures |BlocksOf(trees[s := t'])| == |BlocksOf(trees)| + |gained|
  {
    assert forall b :: b in Blocks(trees[s]) ==> b in BlocksOf(trees);
    ReplaceSlotBlocks(trees, s, t');
    SwapPart(BlocksOf(trees), Blocks(trees[s]), gained);
    CountBoth(BlocksOf(trees), gained);
  }

  lemma SwapPart(a: set<nat>, b: set<nat>, c: set<nat>)
    requires b <= a
    ensures a - b + (b + c) == a + c
  {
  }

  lemma CountBoth(a: set<nat>, b: set<nat>)
    requires a !! b
    ensures |a + b| == |a| + |b|
  {
  }

  /** A 32-bit size never runs past the triple-indirect range. */
  lemma SizeFits(size: word, bsize: nat)
    requires bsize in {1024, 2048, 4096}
    ensures size / bsize < Capacity(bsize / 4)
  {
  }

  /** Before an append at logical block `a`: the slot's tree. */
  lemma SlotReady(disk: Disk, used: set<nat>, iBlock: seq<word>, iBlocks: nat, trees: seq<Tree>, data: seq<nat>,
                  own: set<nat>, index: set<nat>, n: nat, w: nat, a: nat, s: nat, path: seq<nat>, phys: nat)
    requires Placed(disk, used, iBlock, iBlocks, trees, data, own, index, n, w) && At(a, s, path, n)
    requires phys !in own
    ensures |iBlock| == SLOTS && |trees| == SLOTS && s < SLOTS
    ensures TopOpened(disk, used, used, iBlock[s], SlotLevel(s), trees[s], trees[s], n)
    ensures IsPath(path, |path|, n) && |path| == SlotLevel(s)
    ensures phys !in Blocks(trees[s]) && 0 !in Blocks(trees[s]) && Blocks(trees[s]) <= used
    ensures a == |data| ==> Lookup(trees[s], path, n) == 0
  {
    assert Look(trees, 0) && Look(path, 0);
    InodeOkShaped(disk, iBlock, trees, n);
    TopOld(disk, used, iBlock, trees, s, n);
    NotZero(disk, iBlock[s], SlotLevel(s), trees[s], n);
    if a == |data| {
      HoleFreeMap(trees, |data|, |data|, n);
    }
  }

  /** The disk holds the file with `phys` stored at logical block `a`, whatever was there (kept folded). */
  ghost predicate StoredAt(disk: Disk, iBlock: seq<word>, trees: seq<Tree>, trees': seq<Tree>, a: nat, phys: nat,
                           n: nat)
  {
    forall u :: Look(trees', u) ==>
      && InodeOk(disk, iBlock, trees', n) && ShapedSlots(trees, n) && a < Capacity(n)
      && var s := SlotOf(a, n);
         trees' == trees[s := trees'[s]] && Put(trees[s], trees'[s], SlotPath(a, n), phys, n)
  }

  /** An index block on the way to logical block `a` does not exist (kept folded). */
  ghost predicate IndexMissing(trees: seq<Tree>, a: nat, n: nat) {
    forall u :: Look(a, u) ==>
      && ShapedSlots(trees, n) && a < Capacity(n) && !Leads(trees[SlotOf(a, n)], SlotPath(a, n), n)
  }

  lemma NotPadded(t: Tree, level: nat, used: set<nat>, n: nat)
    requires Shaped(t, level, n)
    ensures Padded(t, t, level, used - used, n)
  {
    assert used - used == {} && Blocks(t) + {} == Blocks(t);
  }

  lemma SlotPadded(disk: Disk, disk': Disk, used: set<nat>, used': set<nat>, iBlock: seq<word>, iBlocks: nat,
                   iBlocks': nat, trees: seq<Tree>, data: seq<nat>, own: set<nat>, index: set<nat>, n: nat, w: nat,
                   a: nat, s: nat, path: seq<nat>, p': word, t': Tree)
    requires Placed(disk, used, iBlock, iBlocks, trees, data, own, index, n, w) && At(a, s, path, n)
    requires |disk'| == |disk| && used <= used' && |iBlock| == SLOTS && |trees| == SLOTS && s < SLOTS
    requires |path| == SlotLevel(s) && IsPath(path, |path|, n) && Shaped(trees[s], |path|, n)
    requires TreeIn(disk', used', p', SlotLevel(s), t', n) && Padded(trees[s], t', |path|, used' - used, n)
    requires !Leads(trees[s], path, n) && Charged(iBlocks, used, iBlocks', used', w)
    requires forall b :: 0 <= b < |disk| && b in used && b !in IndexBlocks(trees[s]) ==> disk'[b] == disk[b]
    ensures var trees' := trees[s := t'];
            Legible(disk', used', iBlock[s := p'], iBlocks', trees', data, own + (used' - used), IndexOf(trees'), n, w)
    ensures IndexMissing(trees, a, n)
    ensures forall b :: 0 <= b < |disk| && b in used && b !in index ==> disk'[b] == disk[b]
  {
    assert InPlace(disk, used, iBlock, iBlocks, trees, data, own, index, n, w) && s == SlotOf(a, n)
        && path == SlotPath(a, n) && a < Capacity(n) by { assert Look(trees, 0) && Look(path, 0); }
    var trees', own' := trees[s := t'], own + (used' - used);
    InodeOkShaped(disk, iBlock, trees, n);
    SlotGrewInPlace(disk, disk', used, iBlock, trees, s, p', t', n);
    SlotGains(trees, s, t', used' - used);
    SlotPaddedMap(trees, data, s, t', used' - used, n);
    SectorsPadded(own, used, used', iBlocks, iBlocks', w);
    assert Traced(disk', used', iBlock[s := p'], iBlocks', trees', data, own', IndexOf(trees'), n, w);
  }

  lemma SectorsPadded(own: set<nat>, used: set<nat>, used': set<nat>, x: nat, x': nat, w: nat)
    requires own <= used <= used' && x == Sectors(|own|, w) && Charged(x, used, x', used', w)
    ensures x' == Sectors(|own + (used' - used)|, w)
  {
    assert Look(used, 0);
    CountBoth(own, used' - used);
    assert used' == used + (used' - used);
    CountBoth(used, used' - used);
    SectorsAdd(|own|, |used' - used|, |own + (used' - used)|, w);
    SectorsAdd(|used|, |used' - used|, |used'|, w);
  }

  lemma SlotPaddedMap(trees: seq<Tree>, data: seq<nat>, s: nat, t': Tree, more: set<nat>, n: nat)
    requires ShapedSlots(trees, n) && HoleFree(trees, |data|, n) && |data| <= Capacity(n) && s < SLOTS == |trees|
    requires forall i :: 0 <= i < |data| ==> MapOf(trees, i, n) == data[i]
    requires forall b :: b in BlocksOf(trees) ==> b > 0
    requires Padded(trees[s], t', SlotLevel(s), more, n)
    ensures var trees' := trees[s := t'];
            ShapedSlots(trees', n) && forall i: nat :: MapOf(trees', i, n) == if i < |data| then data[i] else 0
  {
    var trees' := trees[s := t'];
    forall i: nat
      ensures MapOf(trees', i, n) == if i < |data| then data[i] else 0
    {
      if i < Capacity(n) {
        HoleFreeMap(trees, |data|, i, n);
      }
    }
  }

  lemma DirectStored(t: Tree, path: seq<nat>, phys: nat, used: set<nat>, n: nat)
    requires path == [] && Shaped(t, 0, n) && 0 !in Blocks(t)
    ensures Grown(t, Leaf(phys), path, phys, used - used, n)
  {
    assert t.Null? || t.Leaf?;
  }

  lemma SlotStored(disk: Disk, disk': Disk, used: set<nat>, used': set<nat>, iBlock: seq<word>, iBlocks: nat,
                   trees: seq<Tree>, data: seq<nat>, own: set<nat>, index: set<nat>, n: nat, w: nat, a: nat, s: nat,
                   path: seq<nat>, p': word, t': Tree, phys: nat)
    requires Placed(disk, used, iBlock, iBlocks, trees, data, own, index, n, w) && At(a, s, path, n)
    requires |disk'| == |disk| && |iBlock| == SLOTS && |trees| == SLOTS && s < SLOTS
    requires |path| == SlotLevel(s) && IsPath(path, |path|, n) && Shaped(trees[s], |path|, n)
    requires TreeIn(disk', used', p', SlotLevel(s), t', n) && Grown(trees[s], t', path, phys, used' - used, n)
    requires forall b :: 0 <= b < |disk| && b in used && b !in IndexBlocks(trees[s]) ==> disk'[b] == disk[b]
    ensures StoredAt(disk', iBlock[s := p'], trees, trees[s := t'], a, phys, n)
    ensures forall b :: 0 <= b < |disk| && b in used && b !in index ==> disk'[b] == disk[b]
  {
    assert Look(trees, 0) && Look(path, 0);
    SlotGrewInPlace(disk, disk', used, iBlock, trees, s, p', t', n);
  }

  /** After an append of `phys` under one slot: the whole file is in place again, one data block longer. */
  lemma SlotGrew(disk: Disk, disk': Disk, used: set<nat>, used': set<nat>, iBlock: seq<word>, iBlock': seq<word>,
                 iBlocks: nat, iBlocks': nat, trees: seq<Tree>, data: seq<nat>, own: set<nat>, index: set<nat>, n: nat,
                 w: nat, s: nat, path: seq<nat>, p': word, t': Tree, phys: word)
    returns (trees': seq<Tree>, data': seq<nat>, own': set<nat>, index': set<nat>)
    requires Placed(disk, used, iBlock, iBlocks, trees, data, own, index, n, w) && At(|data|, s, path, n)
    requires phys in used && phys !in own && |disk'| == |disk| && used <= used'
    requires |iBlock| == SLOTS && |trees| == SLOTS && s < SLOTS && |path| == SlotLevel(s) && IsPath(path, |path|, n)
    requires Shaped(trees[s], |path|, n)
    requires TreeIn(disk', used', p', SlotLevel(s), t', n) && GrownBy(trees[s], t', path, phys, used' - used, n)
    requires forall b :: 0 <= b < |disk| && b in used && b !in IndexBlocks(trees[s]) ==> disk'[b] == disk[b]
    requires iBlocks' >= w && Charged(iBlocks, used, iBlocks' - w, used', w)
    requires iBlock' == iBlock[s := p']
    ensures Placed(disk', used', iBlock', iBlocks', trees', data', own', index', n, w)
    ensures trees' == trees[s := t'] && data' == data + [phys as nat]
    ensures own' == own + ({phys as nat} + (used' - used))
    ensures forall b :: 0 <= b < |disk| && b in used && b !in index ==> disk'[b] == disk[b]
  {
    assert InPlace(disk, used, iBlock, iBlocks, trees, data, own, index, n, w) && s == SlotOf(|data|, n)
        && path == SlotPath(|data|, n) && |data| < Capacity(n) by { assert Look(trees, 0) && Look(path, 0); }
    assert iBlocks' - w + Sectors(|used|, w) == iBlocks + Sectors(|used'|, w) by { assert Look(used, 0); }
    SlotGrewInPlace(disk, disk', used, iBlock, trees, s, p', t', n);
    SlotGrewBlocks(used, used', trees, s, t', phys);
    SlotGrewMap(trees, data, t', phys, n);
    trees', data', own' := trees[s := t'], data + [phys as nat], own + ({phys as nat} + (used' - used));
    index' := IndexOf(trees');
    SectorsStep(|own|, |own'|, |used|, |used'|, w, iBlocks, iBlocks');
    assert InPlace(disk', used', iBlock', iBlocks', trees', data', own', index', n, w);
  }

  /** Where nothing was stored, nothing is lost. */
  ghost predicate GrownBy(t: Tree, t': Tree, path: seq<nat>, phys: nat, more: set<nat>, n: nat)
    requires Shaped(t, |path|, n) && IsPath(path, |path|, n)
  {
    Shaped(t', |path|, n) && Inserted(t, t', path, phys, n) && Blocks(t') == Blocks(t) + {phys} + more
  }

  lemma VacantGrown(t: Tree, t': Tree, path: seq<nat>, phys: nat, more: set<nat>, n: nat)
    requires Shaped(t, |path|, n) && IsPath(path, |path|, n) && Grown(t, t', path, phys, more, n)
    requires Lookup(t, path, n) == 0 && 0 !in Blocks(t)
    ensures GrownBy(t, t', path, phys, more, n)
  {
    assert Blocks(t) - {0} == Blocks(t);
  }

  lemma SlotGrewInPlace(disk: Disk, disk': Disk, used: set<nat>, iBlock: seq<word>, trees: seq<Tree>,
                        s: nat, p': word, t': Tree, n: nat)
    requires InodeOk(disk, iBlock, trees, n) && KidsDistinct(trees) && BlocksOf(trees) <= used && s < SLOTS
    requires |disk'| == |disk| && Sized(disk', n) && Represents(disk', p', SlotLevel(s), t', n)
    requires forall b :: 0 <= b < |disk| && b in used && b !in IndexBlocks(trees[s]) ==> disk'[b] == disk[b]
    ensures InodeOk(disk', iBlock[s := p'], trees[s := t'], n)
    ensures forall b :: 0 <= b < |disk| && b in used && b !in IndexOf(trees) ==> disk'[b] == disk[b]
  {
    ReplaceSlot(disk, disk', iBlock, trees, s, p', t', n);
    assert forall b :: b in IndexBlocks(trees[s]) ==> b in IndexOf(trees);
  }

  lemma SlotGrewBlocks(used: set<nat>, used': set<nat>, trees: seq<Tree>, s: nat, t': Tree, phys: nat)
    requires KidsDistinct(trees) && BlocksOf(trees) <= used <= used' && s < |trees| && Distinct(t')
    requires phys in used && phys !in BlocksOf(trees)
    requires Blocks(t') == Blocks(trees[s]) + {phys} + (used' - used)
    ensures KidsDistinct(trees[s := t'])
    ensures BlocksOf(trees[s := t']) == BlocksOf(trees) + ({phys} + (used' - used))
    ensures BlocksOf(trees[s := t']) <= used'
    ensures |BlocksOf(trees[s := t'])| + |used| == |BlocksOf(trees)| + |used'| + 1
  {
    SetAssoc(Blocks(trees[s]), {phys}, used' - used);
    WithinUsed(BlocksOf(trees), phys, used, used');
    SlotGains(trees, s, t', {phys} + (used' - used));
    CountGained(phys, used, used');
  }


  lemma CountGained(x: nat, used: set<nat>, used': set<nat>)
    requires used <= used' && x in used
    ensures |{x} + (used' - used)| + |used| == |used'| + 1
  {
    assert used' == used + (used' - used);
  }

  lemma WithinUsed(a: set<nat>, x: nat, used: set<nat>, used': set<nat>)
    requires a <= used <= used' && x in used
    ensures a + ({x} + (used' - used)) <= used'
    ensures ({x} + (used' - used)) !! a <==> x !in a
  {
  }

  lemma SetAssoc(a: set<nat>, b: set<nat>, c: set<nat>)
    ensures a + b + c == a + (b + c)
  {
  }

  lemma SlotGrewMap(trees: seq<Tree>, data: seq<nat>, t': Tree, phys: nat, n: nat)
    requires ShapedSlots(trees, n) && HoleFree(trees, |data|, n) && |data| < Capacity(n)
    requires forall i :: 0 <= i < |data| ==> MapOf(trees, i, n) == data[i]
    requires Inserted(trees[SlotOf(|data|, n)], t', SlotPath(|data|, n), phys, n)
    ensures var trees', data' := trees[SlotOf(|data|, n) := t'], data + [phys];
            && ShapedSlots(trees', n) && HoleFree(trees', |data'|, n)
            && forall i :: 0 <= i < |data'| ==> MapOf(trees', i, n) == data'[i]
  {
    AppendMap(trees, t', |data|, phys, n);
    AppendHoleFree(trees, t', |data|, phys, n);
  }

  class Volume {
    var disk: Disk
    const balloc: GroupAllocator
    const bsize: nat

    /** The blocks marked in the bitmaps, and block 0, which is never handed out. */
    ghost var used: set<nat>

    function N(): nat {
      bsize / 4
    }

    /** Sectors per block: the unit `i_blocks` counts in. */
    function W(): nat {
      bsize / SECTOR_SIZE
    }

    ghost predicate Valid()
      reads this, balloc
    {
      && bsize in {1024, 2048, 4096}
      && Sized(disk, N()) && |disk| <= 0x8000_0000
      && forall u :: Look(used, u) ==> Allocator()
    }

    /** The allocator manages blocks of this disk, never block 0, and `used` is up to date. */
    ghost predicate Allocator()
      reads this, balloc
    {
      && balloc.Valid()
      && balloc.limit <= |disk|
      && (balloc.first > 0 || 0 in balloc.used)
      && used == balloc.used + {0}
    }

    constructor (disk: Disk, balloc: GroupAllocator, bsize: nat)
      requires bsize in {1024, 2048, 4096} && balloc.Valid() && Sized(disk, bsize / 4)
      requires balloc.limit <= |disk| <= 0x8000_0000
      requires balloc.first > 0 || 0 in balloc.used
      ensures Valid() && this.disk == disk && this.balloc == balloc && this.bsize == bsize
    {
      this.disk, this.balloc, this.bsize := disk, balloc, bsize;
      this.used := balloc.used + {0};
      new;
      assert Allocator();
    }

    /** Blocks in use stay so, and those outside `mine` keep their contents. */
    twostate predicate Spares(mine: set<nat>)
      reads this, balloc
    {
      && |disk| == old(|disk|) 
      && forall b :: 0 <= b < |disk| && b in old(used) && b !in mine ==> disk[b] == old(disk)[b]
    }

    /** `ext2_resource_alloc` for blocks. */
    method AllocBlock() returns (r: Option<word>)
      requires Valid()
      modifies this`used, balloc
      ensures Valid()
      ensures r.None? ==> balloc.Full() && used == old(used)
      ensures r.Some? ==> 0 < r.value < |disk| && r.value !in old(used) && used == old(used) + {r.value as nat}
    {
      assert Look(used, 0);
      var a := balloc.Alloc(0);
      if a.None? {
        return None;
      }
      used := used + {a.value};
      return Some(a.value);
    }

    /** The index block behind a pointer; a fresh zeroed one if the pointer is null. */
    method GetOrAllocIndex(cur: word) returns (r: Option<word>)
      requires Valid()
      modifies this, balloc
      ensures Valid() && Spares({})
      ensures cur != 0 ==> r == Some(cur) && disk == old(disk) && used == old(used)
      ensures cur == 0 && r.None? ==> balloc.Full() && disk == old(disk) && used == old(used)
      ensures cur == 0 && r.Some? ==>
                && 0 < r.value < |disk| && r.value !in old(used) && used == old(used) + {r.value}
                && disk == old(disk)[r.value := Zeros(bsize)]
    {
      if cur != 0 {
        return Some(cur);
      }
      r := AllocBlock();
      if r.Some? {
        disk := disk[r.value := Zeros(bsize)];
      }
    }

    /** Entry `path[0]` of index block `p`, allocated and written back first if it is null. */
    method ChildIndex(ino: Inode, p: word, path: seq<nat>, ghost t: Tree)
      returns (child: Option<word>, ghost kid: Tree)
      requires Valid() && |path| > 1 && IsPath(path, |path|, N())
      requires TreeIn(disk, used, p, |path|, t, N()) && t.Node?
      modifies this, balloc, ino`iBlocks
      ensures Valid() && |disk| == old(|disk|)  && old(used) <= used
      ensures child.None? ==> balloc.Full() && disk == old(disk) && used == old(used) && t.kids[path[0]].Null?
      ensures child.Some? ==> Opened(old(disk), disk, old(used), used, path, t, child.value, kid, N())
      ensures Charged(old(ino.iBlocks), old(used), ino.iBlocks, used, W())
    {
      var cur := Ptr(disk[p], path[0]);
      RepresentsIsShaped(disk, cur, |path| - 1, t.kids[path[0]], N());
      child := GetOrAllocIndex(cur);
      kid := t.kids[path[0]];
      if cur != 0 {
        OpenedOld(disk, used, path, t, N());
      } else if child.Some? {
        kid := InstallChild(ino, p, path, child.value, t, old(disk), old(used));
      }
    }

    method StorePtr(p: word, k: nat, child: word)
      requires Valid() && 0 < p < |disk| && k < N()
      modifies this`disk
      ensures Valid() && |disk| == |old(disk)| && |old(disk)[p]| == 4 * N()
      ensures disk == old(disk)[p := SetPtr(old(disk)[p], k, child)]
    {
      disk := disk[p := SetPtr(disk[p], k, child)];
    }

    method InstallChild(ino: Inode, p: word, path: seq<nat>, child: word, ghost t: Tree, ghost disk0: Disk,
                        ghost used0: set<nat>)
      returns (ghost kid: Tree)
      requires Valid() && |path| > 1 && IsPath(path, |path|, N()) && t.Node? && t.b == p
      requires TreeIn(disk0, used0, p, |path|, t, N()) && t.kids[path[0]].Null?
      requires 0 < child < |disk0| && child !in used0 && used == used0 + {child as nat}
               && disk == disk0[child := Zeros(bsize)]
      modifies this`disk, ino`iBlocks
      ensures Valid() && |disk| == |disk0|
      ensures Opened(disk0, disk, used0, used, path, t, child, kid, N())
      ensures Charged(old(ino.iBlocks), used0, ino.iBlocks, used, W())
    {
      ChargedOne(ino.iBlocks, used0, child, W());
      ino.iBlocks := ino.iBlocks + W();
      assert p as nat in Blocks(t);
      StorePtr(p, path[0], child);
      kid := Node(child, Nulls(N()));
      OpenedFresh(disk0, disk, used0, path, t, child, N());
    }

    /** Store the data block's number in its slot of the last index block. */
    method AppendLast(p: word, path: seq<nat>, phys: word, ghost t: Tree) returns (ghost t': Tree)
      requires Valid() && |path| == 1 && IsPath(path, 1, N())
      requires TreeIn(disk, used, p, 1, t, N()) && t.Node? && Shaped(t, 1, N())
      requires 0 < phys < |disk| && phys in used && phys !in Blocks(t)
      modifies this`disk
      ensures Valid() && Spares(IndexBlocks(t))
      ensures TreeIn(disk, used, p, 1, t', N()) && Grown(t, t', path, phys, {}, N())
    {
      AppendLeaf(disk, disk[p := SetPtr(disk[p], path[0], phys)], used, p, path, phys, t, N());
      disk := disk[p := SetPtr(disk[p], path[0], phys)];
      t' := Node(t.b, t.kids[path[0] := Leaf(phys)]);
    }

    /**
     The indirect branches of `ext2_append_block_to_inode`, which differ only in depth: descend from index
     block `p` along the slot numbers in `path`, adding index blocks where pointers are null.
     */
    method AppendInto(ino: Inode, p: word, path: seq<nat>, phys: word, ghost t: Tree)
      returns (status: Status, ghost t': Tree)
      requires Valid() && path != [] && IsPath(path, |path|, N())
      requires TreeIn(disk, used, p, |path|, t, N()) && t.Node? && Shaped(t, |path|, N())
      requires 0 < phys < |disk| && phys in used && phys !in Blocks(t)
      modifies this, balloc, ino`iBlocks
      ensures Valid() && Spares(IndexBlocks(t)) && old(used) <= used && TreeIn(disk, used, p, |path|, t', N())
      ensures Charged(old(ino.iBlocks), old(used), ino.iBlocks, used, W())
      ensures status == Ok ==> Grown(t, t', path, phys, used - old(used), N())
      ensures status == NoSpace
              ==> balloc.Full() && !Leads(t, path, N()) && Padded(t, t', |path|, used - old(used), N())
      decreases |path|, 1
    {
      t' := t;
      assert 0 in used by {
        assert Look(used, 0);
      }
      if |path| == 1 {
        t' := AppendLast(p, path, phys, t);
        return Ok, t';
      }
      var child;
      ghost var kid;
      child, kid := ChildIndex(ino, p, path, t);
      if child.None? {
        NotPadded(t, |path|, used, N());
        return NoSpace, t;
      }
      ghost var iBlocks1, used1 := ino.iBlocks, used;
      status, t' := AppendBelow(ino, child.value, path, phys, t, kid, old(disk), old(used));
      ChargedTwice(old(ino.iBlocks), old(used), iBlocks1, used1, ino.iBlocks, used, W());
    }

    /** Go on below the index block that `ChildIndex` opened. */
    method AppendBelow(ino: Inode, child: word, path: seq<nat>, phys: word, ghost t: Tree, ghost kid: Tree,
                       ghost disk0: Disk, ghost used0: set<nat>)
      returns (status: Status, ghost t': Tree)
      requires Valid() && |path| > 1 && IsPath(path, |path|, N()) && |disk0| == |disk| && used0 <= used
      requires t.Node? && TreeIn(disk0, used0, t.b, |path|, t, N()) && Shaped(t, |path|, N())
      requires 0 < phys < |disk| && 0 in used0 && phys in used0 && phys !in Blocks(t)
      requires Opened(disk0, disk, used0, used, path, t, child, kid, N())
      modifies this, balloc, ino`iBlocks
      ensures Valid() && |disk| == |disk0| && used0 <= used && TreeIn(disk, used, t.b, |path|, t', N())
      ensures forall b :: 0 <= b < |disk| && b in used0 && b !in IndexBlocks(t) ==> disk[b] == disk0[b]
      ensures Charged(old(ino.iBlocks), old(used), ino.iBlocks, used, W())
      ensures status == Ok ==> Grown(t, t', path, phys, used - used0, N())
      ensures status == NoSpace ==> balloc.Full() && !Leads(t, path, N()) && Padded(t, t', |path|, used - used0, N())
      decreases |path|, 0
    {
      ghost var used1, disk1, kid' := used, disk, kid;
      status, kid' := AppendInto(ino, child, path[1..], phys, kid);
      t' := Node(t.b, t.kids[path[0] := kid']);
      if status == Ok {
        AppendDeeper(disk0, disk1, disk, used0, used1, used, path, t, child, kid, kid', phys, N());
      } else {
        PaddedDeeper(disk0, disk1, disk, used0, used1, used, path, t, child, kid, kid', N());
      }
    }

    /** The file of `ino` is in place on this volume. */
    ghost predicate FileOk(ino: Inode)
      reads this, balloc, ino
    {
      Placed(disk, used, ino.iBlock, ino.iBlocks, ino.trees, ino.data, ino.own, ino.index, N(), W())
    }

    /** The slot and the slot numbers of a logical block, by the range tests of the source. */
    method SlotAndPath(idx: nat) returns (s: nat, path: seq<nat>)
      requires bsize in {1024, 2048, 4096} && idx < Capacity(N())
      ensures s < SLOTS && (s < DIRECT <==> idx < DIRECT) && |path| == SlotLevel(s) && IsPath(path, |path|, N())
      ensures At(idx, s, path, N())
    {
      s, path := SlotOf(idx, N()), SlotPath(idx, N());
    }

    /** The top index block of an indirect slot, allocated first if the pointer is null. */
    method TopIndex(ino: Inode, s: nat, ghost t: Tree) returns (top: Option<word>, ghost t1: Tree)
      requires Valid() && DIRECT <= s < SLOTS == |ino.iBlock|
      requires TopOpened(disk, used, used, ino.iBlock[s], SlotLevel(s), t, t, N())
      modifies this, balloc, ino`iBlocks, ino`iBlock
      ensures Valid() && Charged(old(ino.iBlocks), old(used), ino.iBlocks, used, W())
      ensures top.None? ==> balloc.Full() && disk == old(disk) && used == old(used) && t.Null?
      ensures top.None? ==> ino.iBlock == old(ino.iBlock)
      ensures top.Some? ==> Spares({}) && t1.Node? && ino.iBlock == old(ino.iBlock)[s := top.value]
      ensures top.Some? ==> TopOpened(disk, old(used), used, top.value, SlotLevel(s), t, t1, N())
    {
      var cur := ino.iBlock[s];
      t1 := t;
      RepresentsIsShaped(disk, cur, SlotLevel(s), t, N());
      top := GetOrAllocIndex(cur);
      if top.Some? && cur == 0 {
        t1 := InstallTop(ino, s, top.value, old(used));
      } else {
      }
    }

    method InstallTop(ino: Inode, s: nat, p: word, ghost used0: set<nat>) returns (ghost t1: Tree)
      requires Valid() && DIRECT <= s < SLOTS == |ino.iBlock|
      requires 0 < p < |disk| && p !in used0 && used == used0 + {p as nat} && disk[p] == Zeros(bsize)
      modifies ino`iBlocks, ino`iBlock
      ensures ino.iBlock == old(ino.iBlock)[s := p] && t1.Node?
      ensures TopOpened(disk, used0, used, p, SlotLevel(s), Null, t1, N())
      ensures Charged(old(ino.iBlocks), used0, ino.iBlocks, used, W())
    {
      ChargedOne(ino.iBlocks, used0, p, W());
      ino.iBlocks := ino.iBlocks + W();
      ino.iBlock := ino.iBlock[s := p];
      t1 := Node(p, Nulls(N()));
      TopFresh(disk, used0, p, SlotLevel(s), N());
    }

    /** Attach `phys` below an indirect slot whose tree is `t`. */
    method AppendIndirect(ino: Inode, s: nat, path: seq<nat>, phys: word, ghost t: Tree)
      returns (status: Status, p: word, ghost t': Tree)
      requires Valid() && DIRECT <= s < SLOTS == |ino.iBlock|
      requires |path| == SlotLevel(s) && IsPath(path, |path|, N())
      requires TopOpened(disk, used, used, ino.iBlock[s], SlotLevel(s), t, t, N())
      requires 0 < phys < |disk| && phys in used && phys !in Blocks(t)
      modifies this, balloc, ino`iBlocks, ino`iBlock
      ensures Valid() && Spares(IndexBlocks(t)) && old(used) <= used && ino.iBlock == old(ino.iBlock)[s := p]
      ensures TreeIn(disk, used, p, SlotLevel(s), t', N())
      ensures Charged(old(ino.iBlocks), old(used), ino.iBlocks, used, W())
      ensures status == Ok ==> Grown(t, t', path, phys, used - old(used), N())
      ensures status == NoSpace
              ==> balloc.Full() && !Leads(t, path, N()) && Padded(t, t', |path|, used - old(used), N())
    {
      var top;
      ghost var t1;
      top, t1 := TopIndex(ino, s, t);
      if top.None? {
        NotPadded(t, |path|, used, N());
        return NoSpace, ino.iBlock[s], t;
      }
      p := top.value;
      assert 0 in old(used) by {
        assert Look(old(used), 0);
      }
      ghost var iBlocks1, used1 := ino.iBlocks, used;
      status, t' := AppendUnderTop(ino, top.value, path, phys, t, t1, old(disk), old(used));
      ChargedTwice(old(ino.iBlocks), old(used), iBlocks1, used1, ino.iBlocks, used, W());
    }

    method AppendUnderTop(ino: Inode, top: word, path: seq<nat>, phys: word, ghost t: Tree, ghost t1: Tree,
                          ghost disk0: Disk, ghost used0: set<nat>)
      returns (status: Status, ghost t': Tree)
      requires Valid() && path != [] && IsPath(path, |path|, N()) && |disk0| == |disk|
      requires TopOpened(disk, used0, used, top, |path|, t, t1, N()) && t1.Node?
      requires forall b :: 0 <= b < |disk| && b in used0 ==> disk[b] == disk0[b]
      requires 0 < phys < |disk| && 0 in used0 && phys in used0 && phys !in Blocks(t) && Blocks(t) <= used0
      modifies this, balloc, ino`iBlocks
      ensures Valid() && |disk| == |disk0| && used0 <= used && TreeIn(disk, used, top, |path|, t', N())
      ensures forall b :: 0 <= b < |disk| && b in used0 && b !in IndexBlocks(t) ==> disk[b] == disk0[b]
      ensures Charged(old(ino.iBlocks), old(used), ino.iBlocks, used, W())
      ensures status == Ok ==> Grown(t, t', path, phys, used - used0, N())
      ensures status == NoSpace ==> balloc.Full() && !Leads(t, path, N()) && Padded(t, t', |path|, used - used0, N())
    {
      status, t' := AppendInto(ino, top, path, phys, t1);
      if status == Ok {
        TopGrown(old(disk), used0, old(used), used, top, t, t1, t', path, phys, N());
      } else {
        TopPadded(old(disk), used0, old(used), used, top, t, t1, t', |path|, N());
      }
      TopFrame(disk0, old(disk), disk, used0, old(used), IndexBlocks(t), IndexBlocks(t1));
    }

    /**
     `ext2_append_block_to_inode`: store `phys` at the logical block the size ends in, for any hole-free file and any
     size. When that is the block after the last, the file is in place again, one block longer.
     */
    method AppendBlock(ino: Inode, phys: word) returns (status: Status)
      requires Valid() && FileOk(ino) && 0 < phys < |disk| && phys in used && phys !in ino.own
      modifies this, balloc, ino`iBlocks, ino`iBlock, ino`trees, ino`data, ino`own, ino`index
      ensures Valid() && Spares(old(ino.index)) && old(used) <= used
      ensures status == NoSpace ==> balloc.Full() && IndexMissing(old(ino.trees), ino.iSize / bsize, N())
      ensures status == NoSpace ==>
                FileLegible(ino) && ino.data == old(ino.data) && ino.own == old(ino.own) + (used - old(used))
      ensures status == Ok ==> StoredAt(disk, ino.iBlock, old(ino.trees), ino.trees, ino.iSize / bsize, phys, N())
      ensures status == Ok ==> ino.iBlocks >= W() && Charged(old(ino.iBlocks), old(used), ino.iBlocks - W(), used, W())
      ensures status == Ok && old(|ino.data|) == ino.iSize / bsize ==>
                && FileOk(ino) && ino.data == old(ino.data) + [phys as nat]
                && ino.own == old(ino.own) + ({phys as nat} + (used - old(used)))
    {
      var idx := ino.iSize / bsize;
      SizeFits(ino.iSize, bsize);
      var s, path := SlotAndPath(idx);
      ghost var trees := ino.trees;
      SlotReady(disk, used, ino.iBlock, ino.iBlocks, trees, ino.data, ino.own, ino.index, N(), W(), idx, s, path, phys);
      var p;
      ghost var t';
      status, p, t' := StoreInSlot(ino, s, path, phys, trees[s]);
      Settle(ino, status, idx, s, path, p, t', phys, old(disk), old(used), old(ino.iBlock), old(ino.iBlocks));
    }

    /** What the file is now, after either outcome. */
    ghost method Settle(ino: Inode, status: Status, a: nat, s: nat, path: seq<nat>, p: word, t': Tree, phys: word,
                        disk0: Disk, used0: set<nat>, iBlock0: seq<word>, iBlocks0: nat)
      requires Placed(disk0, used0, iBlock0, iBlocks0, ino.trees, ino.data, ino.own, ino.index, N(), W())
      requires At(a, s, path, N()) && phys in used0 && phys !in ino.own && |disk| == |disk0| && used0 <= used
      requires |iBlock0| == SLOTS && |ino.trees| == SLOTS && s < SLOTS && ino.iBlock == iBlock0[s := p]
      requires |path| == SlotLevel(s) && IsPath(path, |path|, N()) && Shaped(ino.trees[s], |path|, N())
      requires 0 !in Blocks(ino.trees[s]) && (a == |ino.data| ==> Lookup(ino.trees[s], path, N()) == 0)
      requires TreeIn(disk, used, p, SlotLevel(s), t', N())
      requires forall b :: 0 <= b < |disk0| && b in used0 && b !in IndexBlocks(ino.trees[s]) ==> disk[b] == disk0[b]
      requires status == Ok ==> Grown(ino.trees[s], t', path, phys, used - used0, N())
      requires status == Ok ==> ino.iBlocks >= W() && Charged(iBlocks0, used0, ino.iBlocks - W(), used, W())
      requires status == NoSpace ==>
                 Padded(ino.trees[s], t', |path|, used - used0, N()) && !Leads(ino.trees[s], path, N())
      requires status == NoSpace ==> Charged(iBlocks0, used0, ino.iBlocks, used, W())
      modifies ino`trees, ino`data, ino`own, ino`index
      ensures forall b :: 0 <= b < |disk0| && b in used0 && b !in old(ino.index) ==> disk[b] == disk0[b]
      ensures status == NoSpace ==> IndexMissing(old(ino.trees), a, N())
      ensures status == NoSpace ==>
                FileLegible(ino) && ino.data == old(ino.data) && ino.own == old(ino.own) + (used - used0)
      ensures status == Ok ==> StoredAt(disk, ino.iBlock, old(ino.trees), ino.trees, a, phys, N())
      ensures status == Ok && a == old(|ino.data|) ==>
                && FileOk(ino) && ino.data == old(ino.data) + [phys as nat]
                && ino.own == old(ino.own) + ({phys as nat} + (used - used0))
    {
      if status == NoSpace {
        Pad(ino, a, s, path, p, t', disk0, used0, iBlock0, iBlocks0);
      } else {
        Record(ino, a, s, path, p, t', phys, disk0, used0, iBlock0, iBlocks0);
      }
    }

    /** The file of `ino` has its map, though maybe more index blocks than it needs. */
    ghost predicate FileLegible(ino: Inode)
      reads this, balloc, ino
    {
      Legible(disk, used, ino.iBlock, ino.iBlocks, ino.trees, ino.data, ino.own, ino.index, N(), W())
    }

    /** What is there after an append that ran out of blocks. */
    ghost method Pad(ino: Inode, a: nat, s: nat, path: seq<nat>, p: word, t': Tree, disk0: Disk, used0: set<nat>,
                     iBlock0: seq<word>, iBlocks0: nat)
      requires Placed(disk0, used0, iBlock0, iBlocks0, ino.trees, ino.data, ino.own, ino.index, N(), W())
      requires At(a, s, path, N()) && |disk| == |disk0| && used0 <= used
      requires |iBlock0| == SLOTS && |ino.trees| == SLOTS && s < SLOTS && ino.iBlock == iBlock0[s := p]
      requires |path| == SlotLevel(s) && IsPath(path, |path|, N()) && Shaped(ino.trees[s], |path|, N())
      requires TreeIn(disk, used, p, SlotLevel(s), t', N())
      requires Padded(ino.trees[s], t', |path|, used - used0, N()) && !Leads(ino.trees[s], path, N())
      requires forall b :: 0 <= b < |disk0| && b in used0 && b !in IndexBlocks(ino.trees[s]) ==> disk[b] == disk0[b]
      requires Charged(iBlocks0, used0, ino.iBlocks, used, W())
      modifies ino`trees, ino`own, ino`index
      ensures FileLegible(ino) && ino.own == old(ino.own) + (used - used0)
      ensures IndexMissing(old(ino.trees), a, N())
      ensures forall b :: 0 <= b < |disk0| && b in used0 && b !in old(ino.index) ==> disk[b] == disk0[b]
    {
      SlotPadded(disk0, disk, used0, used, iBlock0, iBlocks0, ino.iBlocks, ino.trees, ino.data, ino.own, ino.index, N(),
                 W(), a, s, path, p, t');
      var trees' := ino.trees[s := t'];
      AdoptLegible(ino, trees', ino.own + (used - used0), IndexOf(trees'));
    }

    ghost method AdoptLegible(ino: Inode, trees: seq<Tree>, own: set<nat>, index: set<nat>)
      requires Legible(disk, used, ino.iBlock, ino.iBlocks, trees, ino.data, own, index, N(), W())
      modifies ino`trees, ino`own, ino`index
      ensures FileLegible(ino) && ino.own == own
    {
      ino.trees, ino.own, ino.index := trees, own, index;
    }

    /** What is stored now. */
    ghost method Record(ino: Inode, a: nat, s: nat, path: seq<nat>, p: word, t': Tree, phys: word, disk0: Disk,
                        used0: set<nat>, iBlock0: seq<word>, iBlocks0: nat)
      requires Placed(disk0, used0, iBlock0, iBlocks0, ino.trees, ino.data, ino.own, ino.index, N(), W())
      requires At(a, s, path, N()) && phys in used0 && phys !in ino.own && |disk| == |disk0| && used0 <= used
      requires |iBlock0| == SLOTS && |ino.trees| == SLOTS && s < SLOTS && ino.iBlock == iBlock0[s := p]
      requires |path| == SlotLevel(s) && IsPath(path, |path|, N()) && Shaped(ino.trees[s], |path|, N())
      requires 0 !in Blocks(ino.trees[s]) && (a == |ino.data| ==> Lookup(ino.trees[s], path, N()) == 0)
      requires TreeIn(disk, used, p, SlotLevel(s), t', N()) && Grown(ino.trees[s], t', path, phys, used - used0, N())
      requires forall b :: 0 <= b < |disk0| && b in used0 && b !in IndexBlocks(ino.trees[s]) ==> disk[b] == disk0[b]
      requires ino.iBlocks >= W() && Charged(iBlocks0, used0, ino.iBlocks - W(), used, W())
      modifies ino`trees, ino`data, ino`own, ino`index
      ensures StoredAt(disk, ino.iBlock, old(ino.trees), ino.trees, a, phys, N())
      ensures a == old(|ino.data|) ==>
                && FileOk(ino) && ino.data == old(ino.data) + [phys as nat]
                && ino.own == old(ino.own) + ({phys as nat} + (used - used0))
      ensures forall b :: 0 <= b < |disk0| && b in used0 && b !in old(ino.index) ==> disk[b] == disk0[b]
    {
      SlotStored(disk0, disk, used0, used, iBlock0, iBlocks0, ino.trees, ino.data, ino.own, ino.index, N(), W(), a, s,
                 path, p, t', phys);
      if a == |ino.data| {
        VacantGrown(ino.trees[s], t', path, phys, used - used0, N());
        Attach(ino, s, path, p, t', phys, disk0, used0, iBlock0, iBlocks0);
      } else {
        ino.trees := ino.trees[s := t'];
      }
    }

    method StoreInSlot(ino: Inode, s: nat, path: seq<nat>, phys: word, ghost t: Tree)
      returns (status: Status, p: word, ghost t': Tree)
      requires Valid() && s < SLOTS == |ino.iBlock| && |path| == SlotLevel(s) && IsPath(path, |path|, N())
      requires TopOpened(disk, used, used, ino.iBlock[s], SlotLevel(s), t, t, N())
      requires 0 < phys < |disk| && phys in used && phys !in Blocks(t) && 0 !in Blocks(t) && Blocks(t) <= used
      modifies this, balloc, ino`iBlocks, ino`iBlock
      ensures Valid() && Spares(IndexBlocks(t)) && old(used) <= used && ino.iBlock == old(ino.iBlock)[s := p]
      ensures TreeIn(disk, used, p, SlotLevel(s), t', N())
      ensures status == Ok ==> ino.iBlocks >= W() && Charged(old(ino.iBlocks), old(used), ino.iBlocks - W(), used, W())
      ensures status == NoSpace ==> Charged(old(ino.iBlocks), old(used), ino.iBlocks, used, W())
      ensures status == Ok ==> Grown(t, t', path, phys, used - old(used), N())
      ensures status == NoSpace
              ==> balloc.Full() && !Leads(t, path, N()) && Padded(t, t', |path|, used - old(used), N())
    {
      if s < DIRECT {
        status, p, t' := Ok, phys, Leaf(phys);
        ino.iBlock := ino.iBlock[s := phys];
        DirectStored(t, path, phys, used, N());
      } else {
        status, p, t' := AppendIndirect(ino, s, path, phys, t);
      }
      if status == Ok {
        ino.iBlocks := ino.iBlocks + W();
      }
    }

    ghost method Adopt(ino: Inode, trees: seq<Tree>, data: seq<nat>, own: set<nat>, index: set<nat>)
      requires Placed(disk, used, ino.iBlock, ino.iBlocks, trees, data, own, index, N(), W())
      modifies ino`trees, ino`data, ino`own, ino`index
      ensures FileOk(ino) && ino.trees == trees && ino.data == data && ino.own == own && ino.index == index
    {
      ino.trees, ino.data, ino.own, ino.index := trees, data, own, index;
    }

    /** The file is in place again, one block longer. */
    ghost method Attach(ino: Inode, s: nat, path: seq<nat>, p: word, t': Tree, phys: word, disk0: Disk, used0: set<nat>,
                        iBlock0: seq<word>, iBlocks0: nat)
      requires Placed(disk0, used0, iBlock0, iBlocks0, ino.trees, ino.data, ino.own, ino.index, N(), W())
      requires At(|ino.data|, s, path, N()) && phys in used0 && phys !in ino.own && |disk| == |disk0| && used0 <= used
      requires |iBlock0| == SLOTS && |ino.trees| == SLOTS && s < SLOTS && ino.iBlock == iBlock0[s := p]
      requires |path| == SlotLevel(s) && IsPath(path, |path|, N()) && Shaped(ino.trees[s], |path|, N())
      requires TreeIn(disk, used, p, SlotLevel(s), t', N()) && GrownBy(ino.trees[s], t', path, phys, used - used0, N())
      requires forall b :: 0 <= b < |disk0| && b in used0 && b !in IndexBlocks(ino.trees[s]) ==> disk[b] == disk0[b]
      requires ino.iBlocks >= W() && Charged(iBlocks0, used0, ino.iBlocks - W(), used, W())
      modifies ino`trees, ino`data, ino`own, ino`index
      ensures FileOk(ino) && ino.trees == old(ino.trees)[s := t']
      ensures ino.data == old(ino.data) + [phys as nat] && ino.own == old(ino.own) + ({phys as nat} + (used - used0))
      ensures forall b :: 0 <= b < |disk0| && b in used0 && b !in old(ino.index) ==> disk[b] == disk0[b]
    {
      var trees', data', own', index' :=
        SlotGrew(disk0, disk, used0, used, iBlock0, ino.iBlock, iBlocks0, ino.iBlocks, ino.trees, ino.data,
                 ino.own, ino.index, N(), W(), s, path, p, t', phys);
      Adopt(ino, trees', data', own', index');
    }
  }
}
