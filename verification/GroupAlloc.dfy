/** Bitmaps of lib/kernel/bitmap.c: eight flags to a byte, a set bit for a number in use. */
module Bitmaps {

  function Mask(j: nat): bv8
    requires j < 8
  {
    match j
    case 0 => 0x01
    case 1 => 0x02
    case 2 => 0x04
    case 3 => 0x08
    case 4 => 0x10
    case 5 => 0x20
    case 6 => 0x40
    case _ => 0x80
  }

  predicate BitOf(b: bv8, j: nat)
    requires j < 8
  {
    b & Mask(j) != 0
  }

  function WithBit(b: bv8, j: nat, value: bool): bv8
    requires j < 8
  {
    if value then b | Mask(j) else b & !Mask(j)
  }

  lemma WithBitSetsOne(b: bv8, j: nat, value: bool, i: nat)
    requires i < 8 && j < 8
    ensures BitOf(WithBit(b, j, value), i) == if i == j then value else BitOf(b, i)
  {
  }

  /** A byte is 0xff exactly when none of its bits is clear. */
  lemma FullByte(b: bv8)
    ensures b == 0xff <==> forall j: nat :: j < 8 ==> BitOf(b, j)
  {
    assert (BitOf(b, 0) && BitOf(b, 1) && BitOf(b, 2) && BitOf(b, 3)
            && BitOf(b, 4) && BitOf(b, 5) && BitOf(b, 6) && BitOf(b, 7)) ==> b == 0xff;
  }

  predicate Check(bits: seq<bv8>, i: nat)
    requires i < 8 * |bits|
  {
    BitOf(bits[i / 8], i % 8)
  }

  function Set(bits: seq<bv8>, i: nat, value: bool): (r: seq<bv8>)
    requires i < 8 * |bits|
    ensures |r| == |bits|
    ensures forall k: nat :: k < 8 * |bits| ==> Check(r, k) == if k == i then value else Check(bits, k)
  {
    var r := bits[i / 8 := WithBit(bits[i / 8], i % 8, value)];
    assert forall k: nat :: k < 8 * |bits| ==> Check(r, k) == if k == i then value else Check(bits, k) by {
      forall k: nat | k < 8 * |bits|
        ensures Check(r, k) == if k == i then value else Check(bits, k)
      {
        if k / 8 == i / 8 {
          WithBitSetsOne(bits[i / 8], i % 8, value, k % 8);
        }
      }
    }
    r
  }

  ghost function FreeBits(bits: seq<bv8>): set<nat> {
    set i: nat | i < 8 * |bits| && !Check(bits, i)
  }

  ghost predicate AllSet(bits: seq<bv8>, n: nat) {
    n <= 8 * |bits| && forall k: nat :: k < n ==> Check(bits, k)
  }

  lemma AllSetBit(bits: seq<bv8>, i: nat, j: nat)
    requires i < |bits| && j < 8 && AllSet(bits, 8 * i + j)
    ensures Check(bits, 8 * i + j) == BitOf(bits[i], j)
    ensures BitOf(bits[i], j) ==> AllSet(bits, 8 * i + j + 1)
  {
    assert (8 * i + j) / 8 == i && (8 * i + j) % 8 == j;
  }

  lemma AllSetByte(bits: seq<bv8>, i: nat)
    requires i < |bits| && AllSet(bits, 8 * i) && bits[i] == 0xff
    ensures AllSet(bits, 8 * (i + 1))
  {
    FullByte(bits[i]);
    for j := 0 to 8
      invariant AllSet(bits, 8 * i + j)
    {
      AllSetBit(bits, i, j);
    }
  }

  /** `bitmap_scan` for a single bit: skip full bytes, then set bits. Its assertion is the precondition. */
  method Scan(bits: seq<bv8>) returns (idx: nat)
    requires FreeBits(bits) != {}
    ensures idx < 8 * |bits| && !Check(bits, idx)
    ensures forall k: nat :: k < idx ==> Check(bits, k)
  {
    var byteIdx := 0;
    ghost var f :| f in FreeBits(bits);
    while bits[byteIdx] == 0xff
      invariant byteIdx < |bits| && AllSet(bits, 8 * byteIdx) && 8 * byteIdx <= f
      decreases |bits| - byteIdx
    {
      AllSetByte(bits, byteIdx);
      assert f >= 8 * (byteIdx + 1);
      byteIdx := byteIdx + 1;
    }
    FullByte(bits[byteIdx]);
    ghost var j: nat :| j < 8 && !BitOf(bits[byteIdx], j);
    var bitIdx := 0;
    while BitOf(bits[byteIdx], bitIdx)
      invariant bitIdx <= j && AllSet(bits, 8 * byteIdx + bitIdx)
      decreases 8 - bitIdx
    {
      AllSetBit(bits, byteIdx, bitIdx);
      bitIdx := bitIdx + 1;
    }
    AllSetBit(bits, byteIdx, bitIdx);
    idx := byteIdx * 8 + bitIdx;
  }

  ghost function FreeBelow(bits: seq<bv8>, n: nat): set<nat>
    requires n <= 8 * |bits|
  {
    set k: nat | k < n && !Check(bits, k)
  }

  lemma FreeBelowNext(bits: seq<bv8>, n: nat)
    requires n < 8 * |bits|
    ensures |FreeBelow(bits, n + 1)| == |FreeBelow(bits, n)| + if Check(bits, n) then 0 else 1
  {
    if Check(bits, n) {
      assert FreeBelow(bits, n + 1) == FreeBelow(bits, n);
    } else {
      assert FreeBelow(bits, n + 1) == FreeBelow(bits, n) + {n};
    }
  }

  /** `bitmap_count`: the number of clear bits. */
  method Count(bits: seq<bv8>) returns (count: nat)
    ensures count == |FreeBits(bits)|
  {
    count := 0;
    for i := 0 to |bits|
      invariant count == |FreeBelow(bits, 8 * i)|
    {
      for j := 0 to 8
        invariant count == |FreeBelow(bits, 8 * i + j)|
      {
        FreeBelowNext(bits, 8 * i + j);
        assert (8 * i + j) / 8 == i && (8 * i + j) % 8 == j;
        if !BitOf(bits[i], j) {
          count := count + 1;
        }
      }
    }
    assert FreeBelow(bits, 8 * |bits|) == FreeBits(bits);
  }
}

/**
 `ext2_resource_alloc` and `ext2_resource_free` of fs/ext2/inode.c: numbers handed out group by group.
 One object serves blocks (`first` is the first data block) or inodes (`first` is 1).
 */
module GroupAllocation {
  import opened Arith
  import opened Options
  import opened Bitmaps

  /** A group descriptor's free count, with the bitmap block it points to. */
  datatype Group = Group(bits: seq<bv8>, freeCount: nat)

  ghost function SumFree(groups: seq<Group>): nat {
    if groups == [] then 0 else SumFree(groups[..|groups| - 1]) + groups[|groups| - 1].freeCount
  }

  lemma {:induction false} SumFreeUpdate(groups: seq<Group>, g: nat, x: Group)
    requires g < |groups|
    ensures SumFree(groups[g := x]) == SumFree(groups) - groups[g].freeCount + x.freeCount
  {
    var last := |groups| - 1;
    if g == last {
      assert groups[g := x][..last] == groups[..last];
    } else {
      SumFreeUpdate(groups[..last], g, x);
      assert groups[g := x][..last] == groups[..last][g := x];
    }
  }

  /** The number of bit `bit` of group `g`. */
  function Number(first: nat, per: nat, g: nat, bit: nat): nat {
    first + g * per + bit
  }

  /** No two bits share a number. */
  lemma NumberIsInjective(first: nat, per: nat, g: nat, bit: nat, h: nat, c: nat)
    requires bit < per && c < per && Number(first, per, g, bit) == Number(first, per, h, c)
    ensures g == h && bit == c
  {
    DivModUnique(g * per + bit, per, g, bit);
    DivModUnique(h * per + c, per, h, c);
  }

  /** Division finds the group and the bit of a number again. */
  function Locate(first: nat, per: nat, x: nat, total: nat): (r: (nat, nat))
    requires per > 0 && first <= x < first + total * per
    ensures r.0 < total && r.1 < per && x == Number(first, per, r.0, r.1)
  {
    DivLess(x - first, total, per);
    ((x - first) / per, (x - first) % per)
  }

  lemma NumberInRange(first: nat, per: nat, g: nat, bit: nat, total: nat)
    requires g < total && bit < per
    ensures first <= Number(first, per, g, bit) < first + total * per
  {
    MulGrows(total - g, per);
    assert (total - g) * per == total * per - g * per;
    MulGrows(g, per);
  }

  ghost predicate GroupsOk(groups: seq<Group>, per: nat) {
    && per > 0
    && (forall g :: 0 <= g < |groups| ==> |groups[g].bits| * 8 == per)
    && (forall g :: 0 <= g < |groups| ==> groups[g].freeCount == |FreeBits(groups[g].bits)|)
  }

  predicate BitSet(groups: seq<Group>, g: nat, bit: nat) {
    g < |groups| && bit < 8 * |groups[g].bits| && Check(groups[g].bits, bit)
  }

  /** `used` is the set of numbers whose bit is set. */
  ghost predicate Marks(groups: seq<Group>, first: nat, per: nat, limit: nat, used: set<nat>) {
    && (forall x :: x in used ==> first <= x < limit)
    && (forall g: nat, bit: nat :: g < |groups| && bit < per ==>
          (Number(first, per, g, bit) in used <==> BitSet(groups, g, bit)))
  }

  /** Writing one bit of one bitmap changes the status of one number. */
  lemma OneBitOneNumber(groups: seq<Group>, groups': seq<Group>, first: nat, per: nat, limit: nat, used: set<nat>,
                        g: nat, bit: nat, value: bool)
    requires GroupsOk(groups, per) && GroupsOk(groups', per) && g < |groups| && bit < per
    requires limit == first + |groups| * per && Marks(groups, first, per, limit, used)
    requires |groups'| == |groups| && groups' == groups[g := groups'[g]]
             && groups'[g].bits == Set(groups[g].bits, bit, value)
    ensures var x := Number(first, per, g, bit);
            Marks(groups', first, per, limit, if value then used + {x} else used - {x})
  {
    var x := Number(first, per, g, bit);
    var used' := if value then used + {x} else used - {x};
    NumberInRange(first, per, g, bit, |groups|);
    forall h: nat, c: nat | h < |groups| && c < per
      ensures Number(first, per, h, c) in used' <==> BitSet(groups', h, c)
    {
      if Number(first, per, h, c) == x {
        NumberIsInjective(first, per, g, bit, h, c);
      }
    }
  }

  lemma NoFreeBits(group: Group, per: nat)
    requires |group.bits| * 8 == per && group.freeCount == |FreeBits(group.bits)| == 0
    ensures forall bit: nat :: bit < per ==> Check(group.bits, bit)
  {
    assert FreeBits(group.bits) == {};
    forall bit: nat | bit < per
      ensures Check(group.bits, bit)
    {
      assert bit !in FreeBits(group.bits);
    }
  }

  /** The groups in the order the search visits them. */
  function Visit(start: nat, i: nat, total: nat): nat
    requires total > 0
  {
    (start + i) % total
  }

  /** The search starts at `start` and goes on to the next group, after the last one to the first. */
  lemma VisitOrder(start: nat, i: nat, total: nat)
    requires start < total
    ensures Visit(start, 0, total) == start
    ensures Visit(start, i + 1, total) == if Visit(start, i, total) == total - 1 then 0 else Visit(start, i, total) + 1
  {
    var q, r := (start + i) / total, (start + i) % total;
    DivModIs(start + i, total);
    if r == total - 1 {
      assert (q + 1) * total == q * total + total;
      DivModUnique(start + i + 1, total, q + 1, 0);
    } else {
      DivModUnique(start + i + 1, total, q, r + 1);
    }
    DivModUnique(start, total, 0, start);
  }

  lemma EveryGroupVisited(start: nat, total: nat, g: nat) returns (i: nat)
    requires g < total
    ensures i < total && Visit(start, i, total) == g
  {
    var s, q := start % total, start / total;
    assert start == q * total + s;
    if g >= s {
      i := g - s;
      DivModUnique(start + i, total, q, g);
    } else {
      i := g - s + total;
      assert (q + 1) * total == q * total + total;
      DivModUnique(start + i, total, q + 1, g);
    }
  }

  class GroupAllocator {
    var groups: seq<Group>
    var freeTotal: nat
    const first: nat
    const perGroup: nat

    /** The numbers run from `first` up to `limit`; `used` are those marked in the bitmaps. */
    ghost const limit: nat
    ghost var used: set<nat>

    ghost predicate Valid()
      reads this
    {
      && GroupsOk(groups, perGroup) && freeTotal == SumFree(groups)
      && limit == first + |groups| * perGroup
      && Marks(groups, first, perGroup, limit, used)
    }

    constructor (groups: seq<Group>, freeTotal: nat, first: nat, perGroup: nat, ghost used: set<nat>)
      requires GroupsOk(groups, perGroup) && freeTotal == SumFree(groups)
      requires Marks(groups, first, perGroup, first + |groups| * perGroup, used)
      ensures Valid() && this.groups == groups && this.first == first && this.perGroup == perGroup && this.used == used
    {
      this.groups, this.freeTotal, this.first, this.perGroup := groups, freeTotal, first, perGroup;
      this.limit, this.used := first + |groups| * perGroup, used;
    }

    ghost predicate Full()
      reads this
    {
      forall x :: first <= x < limit ==> x in used
    }

    lemma NoneFreeIsFull()
      requires Valid() && forall g :: 0 <= g < |groups| ==> groups[g].freeCount == 0
      ensures Full()
    {
      forall x | first <= x < limit
        ensures x in used
      {
        var (g, bit) := Locate(first, perGroup, x, |groups|);
        NoFreeBits(groups[g], perGroup);
        assert BitSet(groups, g, bit);
      }
    }

    lemma SomeFreeIsNotFull(g: nat)
      requires Valid() && g < |groups| && groups[g].freeCount != 0
      ensures !Full()
    {
      var bit :| bit in FreeBits(groups[g].bits);
      NumberInRange(first, perGroup, g, bit, |groups|);
      assert Number(first, perGroup, g, bit) !in used;
    }

    /** `x` is the lowest clear bit of the `i`-th group visited, and the groups visited before are full. */
    ghost predicate FirstFit(gs: seq<Group>, start: nat, i: nat, x: nat) {
      && i < |gs|
      && (forall j: nat :: j < i ==> gs[Visit(start, j, |gs|)].freeCount == 0)
      && exists bit: nat ::
           && x == Number(first, perGroup, Visit(start, i, |gs|), bit)
           && !BitSet(gs, Visit(start, i, |gs|), bit)
           && forall b: nat :: b < bit ==> BitSet(gs, Visit(start, i, |gs|), b)
    }

    /** A number not in use, or none when every number is. The search starts at `startGroup` and wraps around. */
    method Alloc(startGroup: nat) returns (r: Option<nat>)
      requires Valid()
      modifies this
      ensures Valid() && |groups| == old(|groups|)
      ensures r.None? <==> old(Full())
      ensures r.None? ==> groups == old(groups) && freeTotal == old(freeTotal) && Full()
      ensures r.None? ==> used == old(used)
      ensures r.Some? ==> first <= r.value < limit && r.value !in old(used)
      ensures r.Some? ==> used == old(used) + {r.value} && freeTotal == old(freeTotal) - 1
      ensures r.Some? ==> exists i: nat :: FirstFit(old(groups), startGroup, i, r.value)
    {
      var total := |groups|;
      for i := 0 to total
        invariant groups == old(groups) && freeTotal == old(freeTotal) && used == old(used)
        invariant forall j: nat :: j < i ==> groups[Visit(startGroup, j, total)].freeCount == 0
      {
        var group := Visit(startGroup, i, total);
        if groups[group].freeCount == 0 {
          continue;
        }
        SomeFreeIsNotFull(group);
        var bit := Scan(groups[group].bits);
        Take(group, bit);
        r := Some(Number(first, perGroup, group, bit));
        assert forall b: nat :: b < bit ==> BitSet(old(groups), group, b);
        assert FirstFit(old(groups), startGroup, i, r.value);
        return;
      }
      forall g: nat | g < total
        ensures groups[g].freeCount == 0
      {
        var i := EveryGroupVisited(startGroup, total, g);
      }
      NoneFreeIsFull();
      r := None;
    }

    /** Set a clear bit and count it, in the group and in the superblock. */
    method Take(g: nat, bit: nat)
      requires Valid() && g < |groups| && bit < perGroup && !Check(groups[g].bits, bit)
      modifies this
      ensures Valid() && |groups| == old(|groups|)
      ensures first <= Number(first, perGroup, g, bit) < limit && Number(first, perGroup, g, bit) !in old(used)
      ensures used == old(used) + {Number(first, perGroup, g, bit)} && freeTotal == old(freeTotal) - 1
    {
      ghost var before := groups;
      var group := groups[g];
      var bits := Set(group.bits, bit, true);
      assert bit in FreeBits(group.bits);
      assert FreeBits(bits) == FreeBits(group.bits) - {bit};
      var group' := Group(bits, group.freeCount - 1);
      SumFreeUpdate(groups, g, group');
      NumberInRange(first, perGroup, g, bit, |groups|);
      groups := groups[g := group'];
      freeTotal := freeTotal - 1;
      OneBitOneNumber(before, groups, first, perGroup, limit, used, g, bit, true);
      used := used + {Number(first, perGroup, g, bit)};
    }

    /** Give a number back. One that is free already is left alone. */
    method Free(x: nat)
      requires Valid() && first <= x < limit
      modifies this
      ensures Valid() && |groups| == old(|groups|)
      ensures used == old(used) - {x}
      ensures freeTotal == old(freeTotal) + if x in old(used) then 1 else 0
    {
      var (g, bit) := Locate(first, perGroup, x, |groups|);
      assert x in used <==> BitSet(groups, g, bit);
      if Check(groups[g].bits, bit) {
        Clear(g, bit);
      }
    }

    /** Clear a set bit and count it, in the group and in the superblock. */
    method Clear(g: nat, bit: nat)
      requires Valid() && g < |groups| && bit < perGroup && Check(groups[g].bits, bit)
      modifies this
      ensures Valid() && |groups| == old(|groups|)
      ensures used == old(used) - {Number(first, perGroup, g, bit)} && freeTotal == old(freeTotal) + 1
    {
      ghost var before := groups;
      var group := groups[g];
      var bits := Set(group.bits, bit, false);
      assert FreeBits(bits) == FreeBits(group.bits) + {bit};
      var group' := Group(bits, group.freeCount + 1);
      SumFreeUpdate(groups, g, group');
      groups := groups[g := group'];
      freeTotal := freeTotal + 1;
      OneBitOneNumber(before, groups, first, perGroup, limit, used, g, bit, false);
      used := used - {Number(first, perGroup, g, bit)};
    }
  }
}
