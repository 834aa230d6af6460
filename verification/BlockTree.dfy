/**
 The block map of an ext2 inode as a tree: null pointers, data blocks and index blocks.
 `Represents` ties a tree to the index words on the disk; everything else is about trees alone.
 A block holds `n` pointers, so a subtree of level `l` spans `n^l` logical blocks.
 */
module BlockTree {
  import opened Arith
  import opened Words

  type Disk = seq<seq<byte>>

  datatype Tree = Null | Leaf(b: nat) | Node(b: nat, kids: seq<Tree>)

  ghost predicate Sized(disk: Disk, n: nat) {
    n > 0 && |disk| > 0 && forall i :: 0 <= i < |disk| ==> |disk[i]| == 4 * n
  }

  /** Pointers per block, for blocks of 1024, 2048 and 4096 bytes. */
  predicate Fanout(n: nat) {
    n in {256, 512, 1024}
  }

  function Span(n: nat, level: nat): (s: nat)
    ensures n > 0 ==> s > 0
  {
    if level == 0 then 1 else n * Span(n, level - 1)
  }

  /** Null, or a data block at level 0, or an index block with `n` subtrees of the level below. */
  ghost predicate Shaped(t: Tree, level: nat, n: nat) {
    match t
    case Null => true
    case Leaf(b) => level == 0
    case Node(b, kids) => level > 0 && |kids| == n && forall i :: 0 <= i < n ==> Shaped(kids[i], level - 1, n)
  }

  /** Pointer `p`, read as the root of a level-`level` subtree, denotes tree `t` on this disk. */
  ghost predicate Represents(disk: Disk, p: nat, level: nat, t: Tree, n: nat)
    requires Sized(disk, n)
    decreases level
  {
    match t
    case Null => p == 0
    case Leaf(b) => level == 0 && p == b && 0 < b < |disk|
    case Node(b, kids) =>
      && level > 0 && p == b && 0 < b < |disk| && |kids| == n
      && forall i :: 0 <= i < n ==> Represents(disk, Ptr(disk[b], i), level - 1, kids[i], n)
  }

  ghost function Blocks(t: Tree): set<nat> {
    match t
    case Null => {}
    case Leaf(b) => {b}
    case Node(b, kids) => {b} + set i, x | 0 <= i < |kids| && x in Blocks(kids[i]) :: x
  }

  ghost function BlocksOf(kids: seq<Tree>): set<nat> {
    set i, x | 0 <= i < |kids| && x in Blocks(kids[i]) :: x
  }

  /** The index blocks: the only ones whose contents the tree depends on. */
  ghost function IndexBlocks(t: Tree): set<nat> {
    match t
    case Null => {}
    case Leaf(b) => {}
    case Node(b, kids) => {b} + set i, x | 0 <= i < |kids| && x in IndexBlocks(kids[i]) :: x
  }

  ghost predicate Distinct(t: Tree) {
    match t
    case Null => true
    case Leaf(b) => true
    case Node(b, kids) =>
      && (forall i :: 0 <= i < |kids| ==> b !in Blocks(kids[i]) && Distinct(kids[i]))
      && (forall i, j :: 0 <= i < j < |kids| ==> Blocks(kids[i]) !! Blocks(kids[j]))
  }

  ghost predicate KidsDistinct(kids: seq<Tree>) {
    && (forall i :: 0 <= i < |kids| ==> Distinct(kids[i]))
    && (forall i, j :: 0 <= i < j < |kids| ==> Blocks(kids[i]) !! Blocks(kids[j]))
  }

  // ---- Paths ----

  /** The digits of an offset in base `n`, most significant first: one slot number per level. */
  predicate IsPath(path: seq<nat>, level: nat, n: nat) {
    |path| == level && forall i :: 0 <= i < level ==> path[i] < n
  }

  function Value(path: seq<nat>, n: nat): nat {
    if path == [] then 0 else path[0] * Span(n, |path| - 1) + Value(path[1..], n)
  }

  /** The slot numbers the source computes for an offset below single, double and triple indirection. */
  function PathOf(idx: nat, level: nat, n: nat): seq<nat>
    requires n > 0 && level <= 3
  {
    MulPositive(n);
    if level == 0 then []
    else if level == 1 then [idx]
    else if level == 2 then [idx / n, idx % n]
    else [idx / (n * n), (idx % (n * n)) / n, idx % n]
  }

  lemma MulPositive(n: nat)
    requires n > 0
    ensures n * n > 0
  {
  }

  lemma SpanUpTo3(n: nat)
    ensures Span(n, 0) == 1 && Span(n, 1) == n && Span(n, 2) == n * n && Span(n, 3) == n * (n * n)
  {
    assert Span(n, 2) == n * Span(n, 1) && Span(n, 3) == n * Span(n, 2);
  }

  /** Those slot numbers are in bounds, and they are the digits of the offset. */
  lemma PathOfIsPath(idx: nat, level: nat, n: nat)
    requires Fanout(n) && level <= 3 && idx < Span(n, level)
    ensures IsPath(PathOf(idx, level, n), level, n) && Value(PathOf(idx, level, n), n) == idx
  {
    SpanUpTo3(n);
    if level == 1 {
      ConsValue(idx, [], n);
      assert [idx] == [idx] + [];
    } else if level == 2 {
      PathOfTwo(idx, n);
    } else if level == 3 {
      PathOfThree(idx, n);
    }
  }

  lemma PathOfTwo(idx: nat, n: nat)
    requires Fanout(n) && idx < n * n
    ensures IsPath(PathOf(idx, 2, n), 2, n) && Value(PathOf(idx, 2, n), n) == idx
  {
    TwoDigits(idx, n);
    TwoDigitPath(idx / n, idx % n, idx, n);
  }

  lemma PathOfThree(idx: nat, n: nat)
    requires Fanout(n) && idx < n * (n * n)
    ensures IsPath(PathOf(idx, 3, n), 3, n) && Value(PathOf(idx, 3, n), n) == idx
  {
    ThreeDigits(idx, n);
    ThreeDigitPath(idx / (n * n), (idx % (n * n)) / n, idx % n, idx, n);
  }

  lemma TwoDigitPath(a: nat, b: nat, idx: nat, n: nat)
    requires a < n && b < n && a * n + b == idx
    ensures IsPath([a, b], 2, n) && Value([a, b], n) == idx
  {
    ConsValue2(a, b, n);
  }

  lemma ThreeDigitPath(a: nat, b: nat, c: nat, idx: nat, n: nat)
    requires a < n && b < n && c < n && a * (n * n) + (b * n + c) == idx
    ensures IsPath([a, b, c], 3, n) && Value([a, b, c], n) == idx
  {
    ConsValue3(a, b, c, n);
  }

  lemma TwoDigits(idx: nat, n: nat)
    requires Fanout(n) && idx < n * n
    ensures idx / n < n && idx % n < n && (idx / n) * n + idx % n == idx
  {
    if n == 256 {
    } else if n == 512 {
    } else {
    }
  }

  lemma ThreeDigits(idx: nat, n: nat)
    requires Fanout(n) && idx < n * (n * n)
    ensures n * n > 0 && idx / (n * n) < n && 0 <= (idx % (n * n)) / n < n && idx % n < n
    ensures (idx / (n * n)) * (n * n) + (((idx % (n * n)) / n) * n + idx % n) == idx
    ensures (idx % (n * n)) % n == idx % n
  {
    if n == 256 {
    } else if n == 512 {
    } else {
    }
  }

  lemma ConsValue(q: nat, rest: seq<nat>, n: nat)
    ensures Value([q] + rest, n) == q * Span(n, |rest|) + Value(rest, n)
  {
    assert ([q] + rest)[1..] == rest;
  }

  lemma ConsValue2(a: nat, b: nat, n: nat)
    ensures Value([a, b], n) == a * n + b
  {
    SpanUpTo3(n);
    ConsValue(b, [], n);
    ConsValue(a, [b], n);
    assert [a, b] == [a] + [b] && [b] == [b] + [];
  }

  lemma ConsValue3(a: nat, b: nat, c: nat, n: nat)
    ensures Value([a, b, c], n) == a * (n * n) + (b * n + c)
  {
    SpanUpTo3(n);
    ConsValue2(b, c, n);
    ConsValue(a, [b, c], n);
    assert [a, b, c] == [a] + [b, c];
  }

  lemma MulMono(a: nat, b: nat, s: nat)
    ensures a <= b ==> a * s <= b * s
  {
  }

  lemma {:induction false} ValueBound(path: seq<nat>, level: nat, n: nat)
    requires n > 0 && IsPath(path, level, n)
    ensures Value(path, n) < Span(n, level)
  {
    if level > 0 {
      ValueBound(path[1..], level - 1, n);
      var s := Span(n, level - 1);
      MulMono(path[0] + 1, n, s);
      assert (path[0] + 1) * s == path[0] * s + s;
    }
  }

  /** The data block at the end of `path`, 0 when there is none. */
  ghost function Lookup(t: Tree, path: seq<nat>, n: nat): nat
    requires Shaped(t, |path|, n) && IsPath(path, |path|, n)
    decreases |path|
  {
    match t
    case Null => 0
    case Leaf(b) => b
    case Node(b, kids) => Lookup(kids[path[0]], path[1..], n)
  }

  /** Hole-free: a subtree is present exactly when its first logical index lies below `count`. */
  ghost predicate Dense(t: Tree, level: nat, first: nat, count: nat, n: nat)
    requires Shaped(t, level, n)
  {
    && (t.Null? <==> first >= count)
    && (t.Node? ==> forall i :: 0 <= i < n ==> Dense(t.kids[i], level - 1, KidFirst(first, i, level, n), count, n))
  }

  function KidFirst(first: nat, i: nat, level: nat, n: nat): nat
    requires level > 0
  {
    first + i * Span(n, level - 1)
  }

  lemma {:induction false} RepresentsIsShaped(disk: Disk, p: nat, level: nat, t: Tree, n: nat)
    requires Sized(disk, n) && Represents(disk, p, level, t, n)
    ensures Shaped(t, level, n)
    ensures t.Null? <==> p == 0
    ensures forall b :: b in Blocks(t) ==> 0 < b < |disk|
    decreases level
  {
    if t.Node? {
      forall i | 0 <= i < n
        ensures Shaped(t.kids[i], level - 1, n)
        ensures forall b :: b in Blocks(t.kids[i]) ==> 0 < b < |disk|
      {
        RepresentsIsShaped(disk, Ptr(disk[t.b], i), level - 1, t.kids[i], n);
      }
    }
  }

  /** Frame: writes that miss the index blocks of a tree leave it in place. */
  lemma {:induction false} RepresentsFrame(disk: Disk, disk': Disk, p: nat, level: nat, t: Tree, n: nat)
    requires Sized(disk, n) && Sized(disk', n) && |disk| == |disk'|
    requires Represents(disk, p, level, t, n)
    requires forall b :: b in IndexBlocks(t) && b < |disk| ==> disk'[b] == disk[b]
    ensures Represents(disk', p, level, t, n)
    decreases level
  {
    if t.Node? {
      assert t.b in IndexBlocks(t);
      forall i | 0 <= i < n
        ensures Represents(disk', Ptr(disk'[t.b], i), level - 1, t.kids[i], n)
      {
        assert forall b :: b in IndexBlocks(t.kids[i]) ==> b in IndexBlocks(t);
        RepresentsFrame(disk, disk', Ptr(disk[t.b], i), level - 1, t.kids[i], n);
      }
    }
  }

  lemma {:induction false} IndexWithinBlocks(t: Tree)
    ensures IndexBlocks(t) <= Blocks(t)
  {
    if t.Node? {
      forall i | 0 <= i < |t.kids|
        ensures IndexBlocks(t.kids[i]) <= Blocks(t.kids[i])
      {
        IndexWithinBlocks(t.kids[i]);
      }
    }
  }

  // ---- Lookup ----

  /** A mapped logical block is a data block of the tree, never one of its index blocks. */
  lemma {:induction false} LookupIsDataBlock(t: Tree, path: seq<nat>, n: nat)
    requires Shaped(t, |path|, n) && IsPath(path, |path|, n) && Distinct(t)
    ensures Lookup(t, path, n) != 0 ==> Lookup(t, path, n) in Blocks(t) && Lookup(t, path, n) !in IndexBlocks(t)
    decreases |path|
  {
    if t.Node? {
      var k := path[0];
      LookupIsDataBlock(t.kids[k], path[1..], n);
      var x := Lookup(t.kids[k], path[1..], n);
      if x != 0 {
        forall j | 0 <= j < n
          ensures x !in IndexBlocks(t.kids[j])
        {
          IndexWithinBlocks(t.kids[j]);
          if j < k {
            assert Blocks(t.kids[j]) !! Blocks(t.kids[k]);
          } else if k < j {
            assert Blocks(t.kids[k]) !! Blocks(t.kids[j]);
          }
        }
      }
    }
  }

  /** Two logical blocks of one tree never share a data block. */
  lemma {:induction false} LookupIsInjective(t: Tree, p: seq<nat>, q: seq<nat>, n: nat)
    requires Shaped(t, |p|, n) && Distinct(t) && |p| == |q| && IsPath(p, |p|, n) && IsPath(q, |q|, n)
    requires Lookup(t, p, n) == Lookup(t, q, n) != 0
    ensures p == q
    decreases |p|
  {
    if t.Node? {
      LookupIsDataBlock(t.kids[p[0]], p[1..], n);
      LookupIsDataBlock(t.kids[q[0]], q[1..], n);
      assert p[0] == q[0];
      LookupIsInjective(t.kids[p[0]], p[1..], q[1..], n);
      assert p == [p[0]] + p[1..] && q == [q[0]] + q[1..];
    }
  }

  /** In a hole-free tree the mapped indices are exactly those below the count. */
  lemma {:induction false} DenseLookup(t: Tree, first: nat, count: nat, path: seq<nat>, n: nat)
    requires n > 0 && Shaped(t, |path|, n) && Dense(t, |path|, first, count, n) && IsPath(path, |path|, n)
    requires forall b :: b in Blocks(t) ==> b > 0
    ensures Lookup(t, path, n) != 0 <==> first + Value(path, n) < count
    decreases |path|
  {
    if t.Node? {
      var k := path[0];
      assert forall b :: b in Blocks(t.kids[k]) ==> b in Blocks(t);
      DenseLookup(t.kids[k], KidFirst(first, k, |path|, n), count, path[1..], n);
    } else if t.Leaf? {
      assert t.b in Blocks(t);
    }
  }

  // ---- Growth ----

  ghost function Nulls(n: nat): seq<Tree> {
    seq(n, _ => Null)
  }

  ghost function KidsOrNulls(t: Tree, n: nat): seq<Tree> {
    if t.Node? then t.kids else Nulls(n)
  }

  /** `t'` is `t` with data block `phys` added at the end of `path`, and the index blocks on the way to it. */
  ghost predicate Inserted(t: Tree, t': Tree, path: seq<nat>, phys: nat, n: nat)
    requires Shaped(t, |path|, n) && IsPath(path, |path|, n)
    decreases |path|
  {
    if path == [] then t.Null? && t' == Leaf(phys)
    else
      var base, k := KidsOrNulls(t, n), path[0];
      && t'.Node? && |t'.kids| == n && (t.Node? ==> t'.b == t.b)
      && (forall j :: 0 <= j < n && j != k ==> t'.kids[j] == base[j])
      && Inserted(base[k], t'.kids[k], path[1..], phys, n)
  }

  lemma {:induction false} InsertedShaped(t: Tree, t': Tree, path: seq<nat>, phys: nat, n: nat)
    requires Shaped(t, |path|, n) && IsPath(path, |path|, n) && Inserted(t, t', path, phys, n)
    ensures Shaped(t', |path|, n) && Lookup(t, path, n) == 0
    decreases |path|
  {
    if path != [] {
      InsertedShaped(KidsOrNulls(t, n)[path[0]], t'.kids[path[0]], path[1..], phys, n);
    }
  }

  /** `t'` is `t` with `phys` stored at the end of `path`, whatever was there. */
  ghost predicate Put(t: Tree, t': Tree, path: seq<nat>, phys: nat, n: nat)
    requires Shaped(t, |path|, n) && IsPath(path, |path|, n)
    decreases |path|
  {
    if path == [] then t' == Leaf(phys)
    else
      var base, k := KidsOrNulls(t, n), path[0];
      && t'.Node? && |t'.kids| == n
      && (forall j :: 0 <= j < n && j != k ==> t'.kids[j] == base[j])
      && Put(base[k], t'.kids[k], path[1..], phys, n)
  }

  lemma {:induction false} PutLookup(t: Tree, t': Tree, path: seq<nat>, phys: nat, n: nat, q: seq<nat>)
    requires Shaped(t, |path|, n) && IsPath(path, |path|, n) && Put(t, t', path, phys, n) && IsPath(q, |path|, n)
    ensures Shaped(t', |path|, n)
    ensures Lookup(t', q, n) == if q == path then phys else Lookup(t, q, n)
    decreases |path|
  {
    if path != [] {
      assert q == [q[0]] + q[1..] && path == [path[0]] + path[1..];
      PutLookup(KidsOrNulls(t, n)[path[0]], t'.kids[path[0]], path[1..], phys, n,
                if q[0] == path[0] then q[1..] else path[1..]);
    }
  }

  lemma {:induction false} InsertedIsPut(t: Tree, t': Tree, path: seq<nat>, phys: nat, n: nat)
    requires Shaped(t, |path|, n) && IsPath(path, |path|, n) && Inserted(t, t', path, phys, n)
    ensures Put(t, t', path, phys, n)
    decreases |path|
  {
    if path != [] {
      InsertedIsPut(KidsOrNulls(t, n)[path[0]], t'.kids[path[0]], path[1..], phys, n);
    }
  }

  lemma InsertedLookup(t: Tree, t': Tree, path: seq<nat>, phys: nat, n: nat, q: seq<nat>)
    requires Shaped(t, |path|, n) && IsPath(path, |path|, n) && Inserted(t, t', path, phys, n)
    requires Shaped(t', |path|, n) && IsPath(q, |path|, n)
    ensures Lookup(t', q, n) == if q == path then phys else Lookup(t, q, n)
  {
    InsertedIsPut(t, t', path, phys, n);
    PutLookup(t, t', path, phys, n, q);
  }

  /** A subtree that ends at or before both counts is complete under either. */
  lemma {:induction false} DenseComplete(t: Tree, level: nat, first: nat, count: nat, count': nat, n: nat)
    requires n > 0 && Shaped(t, level, n) && Dense(t, level, first, count, n)
    requires first + Span(n, level) <= count && first + Span(n, level) <= count'
    ensures Dense(t, level, first, count', n)
    decreases level
  {
    if t.Node? {
      forall i | 0 <= i < n
        ensures Dense(t.kids[i], level - 1, KidFirst(first, i, level, n), count', n)
      {
        KidRange(first, i, level, n);
        DenseComplete(t.kids[i], level - 1, KidFirst(first, i, level, n), count, count', n);
      }
    }
  }

  lemma KidRange(first: nat, i: nat, level: nat, n: nat)
    requires level > 0 && i < n
    ensures first <= KidFirst(first, i, level, n)
    ensures KidFirst(first, i, level, n) + Span(n, level - 1) <= first + Span(n, level)
  {
    var s := Span(n, level - 1);
    MulMono(i + 1, n, s);
    assert (i + 1) * s == i * s + s;
  }

  lemma KidsOrdered(first: nat, i: nat, j: nat, level: nat, n: nat)
    requires level > 0 && i < j
    ensures KidFirst(first, i, level, n) + Span(n, level - 1) <= KidFirst(first, j, level, n)
  {
    var s := Span(n, level - 1);
    MulMono(i + 1, j, s);
    assert (i + 1) * s == i * s + s;
  }

  /** Inserting at the first unmapped index keeps the tree hole-free. */
  lemma {:induction false} InsertedDense(t: Tree, t': Tree, first: nat, path: seq<nat>, phys: nat, n: nat)
    requires n > 0 && Shaped(t, |path|, n) && IsPath(path, |path|, n) && Inserted(t, t', path, phys, n)
    requires Shaped(t', |path|, n) && Dense(t, |path|, first, first + Value(path, n), n)
    ensures Dense(t', |path|, first, first + Value(path, n) + 1, n)
    decreases |path|
  {
    if path != [] {
      var level, k, count := |path|, path[0], first + Value(path, n);
      var base := KidsOrNulls(t, n);
      var r := Value(path[1..], n);
      ValueBound(path[1..], level - 1, n);
      assert KidFirst(first, k, level, n) + r == count;
      forall j | 0 <= j < n
        ensures Dense(t'.kids[j], level - 1, KidFirst(first, j, level, n), count + 1, n)
      {
        KidRange(first, j, level, n);
        assert Dense(base[j], level - 1, KidFirst(first, j, level, n), count, n);
        if j < k {
          KidsOrdered(first, j, k, level, n);
          DenseComplete(base[j], level - 1, KidFirst(first, j, level, n), count, count + 1, n);
        } else if j > k {
          KidsOrdered(first, k, j, level, n);
        } else {
          InsertedDense(base[k], t'.kids[k], KidFirst(first, k, level, n), path[1..], phys, n);
        }
      }
    }
  }

  // ---- Truncation ----

  /** The tree that is left when every logical block at or above `cut` goes. */
  ghost function Cut(t: Tree, level: nat, first: nat, cut: nat, n: nat): Tree
    requires Shaped(t, level, n)
    decreases level
  {
    match t
    case Null => Null
    case Leaf(b) => if first >= cut then Null else t
    case Node(b, kids) =>
      if first >= cut then Null
      else Node(b, seq(n, i requires 0 <= i < n => Cut(kids[i], level - 1, KidFirst(first, i, level, n), cut, n)))
  }

  /** `BlocksFrom` of one subtree. */
  ghost function KidBlocksFrom(kids: seq<Tree>, i: nat, level: nat, first: nat, cut: nat, n: nat): set<nat>
    requires level > 0 && i < |kids| && Shaped(kids[i], level - 1, n)
    decreases level, 0
  {
    BlocksFrom(kids[i], level - 1, KidFirst(first, i, level, n), cut, n)
  }

  /** The data and index blocks whose first logical index is at or above `cut`. */
  ghost function BlocksFrom(t: Tree, level: nat, first: nat, cut: nat, n: nat): set<nat>
    requires Shaped(t, level, n)
    decreases level, 1
  {
    match t
    case Null => {}
    case Leaf(b) => if first >= cut then {b} else {}
    case Node(b, kids) =>
      (if first >= cut then {b} else {})
      + set i, x | 0 <= i < n && x in KidBlocksFrom(kids, i, level, first, cut, n) :: x
  }

  lemma {:induction false} BlocksFromWithin(t: Tree, level: nat, first: nat, cut: nat, n: nat)
    requires Shaped(t, level, n)
    ensures BlocksFrom(t, level, first, cut, n) <= Blocks(t)
    ensures first >= cut ==> BlocksFrom(t, level, first, cut, n) == Blocks(t)
    decreases level
  {
    if t.Node? {
      forall i | 0 <= i < n
        ensures KidBlocksFrom(t.kids, i, level, first, cut, n) <= Blocks(t.kids[i])
        ensures first >= cut ==> KidBlocksFrom(t.kids, i, level, first, cut, n) == Blocks(t.kids[i])
      {
        KidRange(first, i, level, n);
        BlocksFromWithin(t.kids[i], level - 1, KidFirst(first, i, level, n), cut, n);
      }
    }
  }

  /** Why a subtree that ends before the cut can be skipped. */
  lemma {:induction false} CutSkips(t: Tree, level: nat, first: nat, cut: nat, n: nat)
    requires n > 0 && Shaped(t, level, n) && first + Span(n, level) <= cut
    ensures Cut(t, level, first, cut, n) == t && BlocksFrom(t, level, first, cut, n) == {}
    decreases level
  {
    if t.Node? {
      forall i | 0 <= i < n
        ensures Cut(t.kids[i], level - 1, KidFirst(first, i, level, n), cut, n) == t.kids[i]
        ensures KidBlocksFrom(t.kids, i, level, first, cut, n) == {}
      {
        KidRange(first, i, level, n);
        CutSkips(t.kids[i], level - 1, KidFirst(first, i, level, n), cut, n);
      }
      assert Cut(t, level, first, cut, n).kids == t.kids;
    }
  }

  /** Exactly the blocks from the cut on leave the tree. */
  lemma {:induction false} CutBlocks(t: Tree, level: nat, first: nat, cut: nat, n: nat)
    requires n > 0 && Shaped(t, level, n) && Distinct(t)
    ensures Shaped(Cut(t, level, first, cut, n), level, n)
    ensures Distinct(Cut(t, level, first, cut, n))
    ensures Blocks(Cut(t, level, first, cut, n)) == Blocks(t) - BlocksFrom(t, level, first, cut, n)
    decreases level, 1
  {
    BlocksFromWithin(t, level, first, cut, n);
    if t.Node? && first < cut {
      var c := Cut(t, level, first, cut, n);
      forall i | 0 <= i < n
        ensures Shaped(c.kids[i], level - 1, n) && Distinct(c.kids[i])
        ensures Blocks(c.kids[i]) == Blocks(t.kids[i]) - KidBlocksFrom(t.kids, i, level, first, cut, n)
        ensures KidBlocksFrom(t.kids, i, level, first, cut, n) <= Blocks(t.kids[i])
      {
        CutKid(t.kids, i, level, first, cut, n);
      }
      CutBlocksOfNode(t, c, level, first, cut, n);
    }
  }

  lemma {:induction false} CutKid(kids: seq<Tree>, i: nat, level: nat, first: nat, cut: nat, n: nat)
    requires n > 0 && level > 0 && i < |kids| && Shaped(kids[i], level - 1, n) && Distinct(kids[i])
    ensures var c := Cut(kids[i], level - 1, KidFirst(first, i, level, n), cut, n);
            && Shaped(c, level - 1, n) && Distinct(c)
            && Blocks(c) == Blocks(kids[i]) - KidBlocksFrom(kids, i, level, first, cut, n)
            && KidBlocksFrom(kids, i, level, first, cut, n) <= Blocks(kids[i])
    decreases level, 0
  {
    var kid, from, below := kids[i], KidFirst(first, i, level, n), level - 1;
    CutBlocks(kid, below, from, cut, n);
    BlocksFromWithin(kid, below, from, cut, n);
  }

  lemma CutBlocksOfNode(t: Tree, c: Tree, level: nat, first: nat, cut: nat, n: nat)
    requires Shaped(t, level, n) && Distinct(t) && t.Node? && first < cut
    requires c.Node? && c.b == t.b && |c.kids| == n
    requires forall i :: 0 <= i < n
               ==> Blocks(c.kids[i]) == Blocks(t.kids[i]) - KidBlocksFrom(t.kids, i, level, first, cut, n)
    requires forall i :: 0 <= i < n ==> KidBlocksFrom(t.kids, i, level, first, cut, n) <= Blocks(t.kids[i])
    ensures Blocks(c) == Blocks(t) - BlocksFrom(t, level, first, cut, n)
    ensures forall i, j :: 0 <= i < j < n ==> Blocks(c.kids[i]) !! Blocks(c.kids[j])
    ensures forall i :: 0 <= i < n ==> c.b !in Blocks(c.kids[i])
  {
    forall x
      ensures x in Blocks(c) <==> x in Blocks(t) && x !in BlocksFrom(t, level, first, cut, n)
    {
      if x in Blocks(t) && x != t.b {
        var i :| 0 <= i < n && x in Blocks(t.kids[i]);
        assert forall j :: 0 <= j < n && j != i ==> x !in Blocks(t.kids[j]);
        assert x in BlocksFrom(t, level, first, cut, n) <==> x in KidBlocksFrom(t.kids, i, level, first, cut, n);
        assert x in Blocks(c) <==> x in Blocks(c.kids[i]);
      }
    }
  }

  /** A mapped block is among those from the cut on exactly when its logical index is. */
  lemma {:induction false} LookupCut(t: Tree, first: nat, cut: nat, n: nat, path: seq<nat>)
    requires Shaped(t, |path|, n) && IsPath(path, |path|, n) && Distinct(t) && Lookup(t, path, n) != 0
    ensures Lookup(t, path, n) in BlocksFrom(t, |path|, first, cut, n) <==> first + Value(path, n) >= cut
    decreases |path|
  {
    if t.Node? {
      var k, x := path[0], Lookup(t, path, n);
      var kidFirst := KidFirst(first, k, |path|, n);
      LookupCut(t.kids[k], kidFirst, cut, n, path[1..]);
      LookupIsDataBlock(t.kids[k], path[1..], n);
      forall j | 0 <= j < n && j != k
        ensures x !in KidBlocksFrom(t.kids, j, |path|, first, cut, n)
      {
        BlocksFromWithin(t.kids[j], |path| - 1, KidFirst(first, j, |path|, n), cut, n);
        assert j < k ==> Blocks(t.kids[j]) !! Blocks(t.kids[k]);
        assert k < j ==> Blocks(t.kids[k]) !! Blocks(t.kids[j]);
      }
      assert x in BlocksFrom(t, |path|, first, cut, n) <==> x in KidBlocksFrom(t.kids, k, |path|, first, cut, n);
      assert first + Value(path, n) == kidFirst + Value(path[1..], n);
    }
  }

  /** Below the cut nothing moves, from the cut on nothing is mapped. */
  lemma {:induction false} CutLookup(t: Tree, first: nat, cut: nat, n: nat, path: seq<nat>)
    requires Shaped(t, |path|, n) && IsPath(path, |path|, n)
    requires Shaped(Cut(t, |path|, first, cut, n), |path|, n)
    ensures Lookup(Cut(t, |path|, first, cut, n), path, n)
         == if first + Value(path, n) < cut then Lookup(t, path, n) else 0
    decreases |path|
  {
    if t.Node? && first < cut {
      assert Cut(t, |path|, first, cut, n).kids[path[0]]
          == Cut(t.kids[path[0]], |path| - 1, KidFirst(first, path[0], |path|, n), cut, n);
      CutLookup(t.kids[path[0]], KidFirst(first, path[0], |path|, n), cut, n, path[1..]);
    }
  }

  lemma CutKidIs(t: Tree, level: nat, first: nat, cut: nat, n: nat, i: nat)
    requires t.Node? && Shaped(t, level, n) && first < cut && i < n
    ensures Cut(t, level, first, cut, n).Node? && |Cut(t, level, first, cut, n).kids| == n
    ensures Cut(t, level, first, cut, n).kids[i] == Cut(t.kids[i], level - 1, KidFirst(first, i, level, n), cut, n)
  {
  }

  lemma DenseNode(c: Tree, level: nat, first: nat, count: nat, n: nat)
    requires c.Node? && Shaped(c, level, n) && first < count
    requires forall i :: 0 <= i < n ==> Dense(c.kids[i], level - 1, KidFirst(first, i, level, n), count, n)
    ensures Dense(c, level, first, count, n)
  {
  }

  lemma DenseKid(t: Tree, level: nat, first: nat, count: nat, n: nat, i: nat)
    requires t.Node? && Shaped(t, level, n) && Dense(t, level, first, count, n) && i < n
    ensures first < count && Dense(t.kids[i], level - 1, KidFirst(first, i, level, n), count, n)
  {
  }

  lemma {:induction false} CutDense(t: Tree, level: nat, first: nat, cut: nat, count: nat, n: nat)
    requires n > 0 && Shaped(t, level, n) && Dense(t, level, first, count, n)
    requires Shaped(Cut(t, level, first, cut, n), level, n)
    ensures Dense(Cut(t, level, first, cut, n), level, first, if cut < count then cut else count, n)
    decreases level
  {
    if t.Node? && first < cut {
      var c := Cut(t, level, first, cut, n);
      CutKidIs(t, level, first, cut, n, 0);
      DenseKid(t, level, first, count, n, 0);
      forall i | 0 <= i < n
        ensures Dense(c.kids[i], level - 1, KidFirst(first, i, level, n), if cut < count then cut else count, n)
      {
        CutKidIs(t, level, first, cut, n, i);
        DenseKid(t, level, first, count, n, i);
        CutDense(t.kids[i], level - 1, KidFirst(first, i, level, n), cut, count, n);
      }
      DenseNode(c, level, first, if cut < count then cut else count, n);
    }
  }
}
