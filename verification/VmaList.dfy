/**
 mm/vma.c and the address-space calls of mm/memory.c for anonymous areas: the ordered list of areas as a function
 from addresses to flags, and the searches over it.
 */
module VmaList {
  import opened Layout
  import opened Options
  import opened Words

  const USER_VADDR_START := 0x804_8000
  const USER_STACK_BASE := 0xC000_0000
  const USER_STACK_SIZE := 0x80_0000
  const USER_MMAP_SEARCH_TOP := USER_STACK_BASE - USER_STACK_SIZE

  const VM_READ: bv32 := 0x01
  const VM_WRITE: bv32 := 0x02
  const VM_ANON: bv32 := 0x10
  const VM_GROWSDOWN: bv32 := 0x20
  const VM_GROWSUP: bv32 := 0x40
  const HEAP_FLAGS: bv32 := VM_READ | VM_WRITE | VM_GROWSUP | VM_ANON
  const STACK_FLAGS: bv32 := VM_READ | VM_WRITE | VM_GROWSDOWN | VM_ANON

  const VM_EXEC: bv32 := 0x04
  const PROT_READ: bv32 := 0x1
  const PROT_WRITE: bv32 := 0x2
  const PROT_EXEC: bv32 := 0x4
  const MAP_PRIVATE: bv32 := 0x02
  const MAP_ANON: bv32 := 0x20

  /** `prot_to_vm_flags` for a private anonymous mapping. */
  function ProtFlags(prot: bv32): (flags: bv32)
    ensures flags & VM_READ != 0 <==> prot & PROT_READ != 0
    ensures flags & VM_WRITE != 0 <==> prot & PROT_WRITE != 0
    ensures flags & VM_EXEC != 0 <==> prot & PROT_EXEC != 0
    ensures flags & VM_ANON != 0 && flags & !(VM_READ | VM_WRITE | VM_EXEC | VM_ANON) == 0
  {
    (if prot & PROT_READ != 0 then VM_READ else 0) | (if prot & PROT_WRITE != 0 then VM_WRITE else 0)
    | (if prot & PROT_EXEC != 0 then VM_EXEC else 0) | VM_ANON
  }

  /**
   What `do_mmap` turns down before it looks for a place, or, for the descriptor and the offset, after it found one.
   */
  predicate MmapRefused(addr: word, len: word, prot: bv32, flags: bv32, fd: int, offset: word) {
    || len == 0 || addr != 0 || flags & MAP_PRIVATE == 0 || flags & !(MAP_PRIVATE | MAP_ANON) != 0
    || prot & !(PROT_READ | PROT_WRITE | PROT_EXEC) != 0 || fd != -1 || offset != 0
  }

  datatype Area = Area(start: nat, end: nat, flags: bv32)
  {
    predicate Has(a: nat) {
      start <= a < end
    }
  }

  predicate Aligned(a: nat) {
    a % PG_SIZE == 0
  }

  ghost predicate Ordered(areas: seq<Area>) {
    && (forall i :: 0 <= i < |areas| ==> areas[i].start <= areas[i].end)
    && (forall i, j :: 0 <= i < j < |areas| ==> areas[i].end <= areas[j].start)
  }

  ghost predicate InUserSpace(areas: seq<Area>) {
    forall i :: 0 <= i < |areas| ==>
      && USER_VADDR_START <= areas[i].start && areas[i].end <= USER_STACK_BASE
      && Aligned(areas[i].start) && Aligned(areas[i].end)
  }

  /** The flags an address has, None where nothing is mapped. */
  ghost function At(areas: seq<Area>, a: nat): Option<bv32> {
    if areas == [] then None else if areas[0].Has(a) then Some(areas[0].flags) else At(areas[1..], a)
  }

  // ---- The list as a function ----

  lemma {:induction false} AtConcat(p: seq<Area>, s: seq<Area>, a: nat)
    ensures At(p + s, a) == if At(p, a).Some? then At(p, a) else At(s, a)
  {
    if p == [] {
      assert p + s == s;
    } else {
      AtConcat(p[1..], s, a);
      assert (p + s)[1..] == p[1..] + s;
    }
  }

  lemma {:induction false} AtSome(areas: seq<Area>, i: nat, a: nat)
    requires Ordered(areas) && i < |areas| && areas[i].Has(a)
    ensures At(areas, a) == Some(areas[i].flags)
  {
    if i > 0 {
      assert areas[0].end <= areas[i].start;
      AtSome(areas[1..], i - 1, a);
    }
  }

  lemma {:induction false} AtNone(areas: seq<Area>, a: nat)
    requires forall i :: 0 <= i < |areas| ==> !areas[i].Has(a)
    ensures At(areas, a) == None
  {
    if areas != [] {
      AtNone(areas[1..], a);
    }
  }

  /** Replacing a stretch of the list changes the function where the stretch changed, and nowhere else. */
  lemma EditAt(p: seq<Area>, m: seq<Area>, m': seq<Area>, s: seq<Area>, lo: nat, hi: nat, x: Option<bv32>, a: nat)
    requires At(m', a) == if lo <= a < hi then x else At(m, a)
    requires lo <= a < hi ==> At(p, a) == None && At(s, a) == None
    ensures At(p + m' + s, a) == if lo <= a < hi then x else At(p + m + s, a)
  {
    AtConcat(p + m', s, a);
    AtConcat(p, m', a);
    AtConcat(p + m, s, a);
    AtConcat(p, m, a);
  }

  /** The function after setting the addresses of a range. */
  ghost predicate SetOn(areas: seq<Area>, areas': seq<Area>, lo: nat, hi: nat, x: Option<bv32>) {
    forall a: nat :: At(areas', a) == if lo <= a < hi then x else At(areas, a)
  }

  lemma Edit(p: seq<Area>, m: seq<Area>, m': seq<Area>, s: seq<Area>, lo: nat, hi: nat, x: Option<bv32>)
    requires SetOn(m, m', lo, hi, x)
    requires forall i :: 0 <= i < |p| ==> p[i].end <= lo
    requires forall i :: 0 <= i < |s| ==> hi <= s[i].start
    ensures SetOn(p + m + s, p + m' + s, lo, hi, x)
  {
    forall a: nat
      ensures At(p + m' + s, a) == if lo <= a < hi then x else At(p + m + s, a)
    {
      if lo <= a < hi {
        AtNone(p, a);
        AtNone(s, a);
      }
      EditAt(p, m, m', s, lo, hi, x, a);
    }
  }

  lemma OrderedEdit(p: seq<Area>, m: seq<Area>, m': seq<Area>, s: seq<Area>, lo: nat, hi: nat)
    requires Ordered(p + m + s) && Ordered(m')
    requires forall i :: 0 <= i < |m'| ==> lo <= m'[i].start && m'[i].end <= hi
    requires forall i :: 0 <= i < |p| ==> p[i].end <= lo
    requires forall i :: 0 <= i < |s| ==> hi <= s[i].start
    ensures Ordered(p + m' + s)
  {
    OrderedParts(p, m, s);
    var t' := p + m' + s;
    forall i, j | 0 <= i < j < |t'|
      ensures t'[i].end <= t'[j].start
    {
    }
  }

  lemma OrderedParts(p: seq<Area>, m: seq<Area>, s: seq<Area>)
    requires Ordered(p + m + s)
    ensures Ordered(p) && Ordered(s)
    ensures forall i, j :: 0 <= i < |p| && 0 <= j < |s| ==> p[i].end <= s[j].start
  {
    var t := p + m + s;
    assert forall i :: 0 <= i < |p| ==> p[i] == t[i];
    assert forall i :: 0 <= i < |s| ==> s[i] == t[|p| + |m| + i];
  }

  lemma UserEdit(p: seq<Area>, m: seq<Area>, m': seq<Area>, s: seq<Area>)
    requires InUserSpace(p + m + s) && InUserSpace(m')
    ensures InUserSpace(p + m' + s)
  {
    var t := p + m + s;
    assert forall i :: 0 <= i < |p| ==> p[i] == t[i];
    assert forall i :: 0 <= i < |s| ==> s[i] == t[|p| + |m| + i];
  }

  // ---- Adding ----

  /** The range meets no area and holds no empty one. */
  ghost predicate Room(areas: seq<Area>, start: nat, end: nat) {
    forall i :: 0 <= i < |areas| ==> areas[i].end <= start || (end <= areas[i].start && start < areas[i].start)
  }

  /** The place of the first area that starts after `start`. */
  ghost predicate PlaceFor(areas: seq<Area>, start: nat, p: nat) {
    && p <= |areas|
    && (forall i :: 0 <= i < p ==> areas[i].start <= start)
    && (p < |areas| ==> areas[p].start > start)
  }

  /** `add_vma_sorted` for an anonymous area: grow the left neighbour, or both into one, or the right one, or insert. */
  function Added(areas: seq<Area>, p: nat, start: nat, end: nat, flags: bv32): seq<Area>
    requires p <= |areas|
  {
    if p > 0 && areas[p - 1].end == start && areas[p - 1].flags == flags then
      if p < |areas| && areas[p].start == end && areas[p].flags == flags then
        areas[..p - 1] + [Area(areas[p - 1].start, areas[p].end, flags)] + areas[p + 1..]
      else
        areas[..p - 1] + [Area(areas[p - 1].start, end, flags)] + areas[p..]
    else if p < |areas| && areas[p].start == end && areas[p].flags == flags then
      areas[..p] + [Area(start, areas[p].end, flags)] + areas[p + 1..]
    else
      areas[..p] + [Area(start, end, flags)] + areas[p..]
  }

  predicate Joins(v: Area, w: Area) {
    v.end == w.start && v.flags == w.flags
  }

  /** No two neighbours touch and have the same flags. */
  ghost predicate Coalesced(areas: seq<Area>) {
    forall i, j :: 0 <= i && j == i + 1 < |areas| ==> !Joins(areas[i], areas[j])
  }

  lemma CoalescedParts(areas: seq<Area>, p: nat)
    requires Coalesced(areas) && p <= |areas|
    ensures Coalesced(areas[..p]) && Coalesced(areas[p..])
  {
  }

  lemma CoalescedSplice(l: seq<Area>, v: Area, r: seq<Area>)
    requires Coalesced(l) && Coalesced(r)
    requires l != [] ==> !Joins(l[|l| - 1], v)
    requires r != [] ==> !Joins(v, r[0])
    ensures Coalesced(l + [v] + r)
  {
    var s := l + [v] + r;
    forall i, j | 0 <= i && j == i + 1 < |s|
      ensures !Joins(s[i], s[j])
    {
      if i > |l| {
        assert s[i] == r[i - |l| - 1] && s[j] == r[j - |l| - 1];
      }
    }
  }

  lemma CoalescedAround(areas: seq<Area>, lo: nat, v: Area, hi: nat)
    requires Coalesced(areas) && lo <= hi <= |areas|
    requires lo > 0 ==> !Joins(areas[lo - 1], v)
    requires hi < |areas| ==> !Joins(v, areas[hi])
    ensures Coalesced(areas[..lo] + [v] + areas[hi..])
  {
    CoalescedParts(areas, lo);
    CoalescedParts(areas, hi);
    CoalescedSplice(areas[..lo], v, areas[hi..]);
  }

  lemma NeighboursApart(areas: seq<Area>, p: nat, v: Area)
    requires Coalesced(areas) && 0 < p < |areas|
    ensures v.start == areas[p].start && v.flags == areas[p].flags ==> !Joins(areas[p - 1], v)
    ensures v.end == areas[p - 1].end && v.flags == areas[p - 1].flags ==> !Joins(v, areas[p])
  {
    assert !Joins(areas[p - 1], areas[p]);
  }

  /** Whatever could be joined to the new area is, on both sides. */
  lemma AddedCoalesces(areas: seq<Area>, p: nat, start: nat, end: nat, flags: bv32)
    requires Coalesced(areas) && p <= |areas|
    ensures Coalesced(Added(areas, p, start, end, flags))
  {
    var left := p > 0 && Joins(areas[p - 1], Area(start, end, flags));
    var right := p < |areas| && Joins(Area(start, end, flags), areas[p]);
    var lo, hi := if left then p - 1 else p, if right then p + 1 else p;
    var v := Area(if left then areas[p - 1].start else start, if right then areas[p].end else end, flags);
    if left && p > 1 {
      NeighboursApart(areas, p - 1, v);
    }
    if right && p + 1 < |areas| {
      NeighboursApart(areas, p + 1, v);
    }
    CoalescedAround(areas, lo, v, hi);
  }

  lemma PlaceSplits(areas: seq<Area>, start: nat, end: nat, p: nat)
    requires Ordered(areas) && Room(areas, start, end) && PlaceFor(areas, start, p)
    ensures forall i :: 0 <= i < p ==> areas[i].end <= start
    ensures forall i :: p <= i < |areas| ==> end <= areas[i].start
  {
    forall i | p <= i < |areas|
      ensures end <= areas[i].start
    {
      assert areas[p].start > start;
      assert i > p ==> areas[p].end <= areas[i].start;
    }
  }

  lemma OneArea(a: Area, x: nat)
    ensures At([a], x) == if a.Has(x) then Some(a.flags) else None
  {
    assert At([a][1..], x) == None;
  }

  lemma TwoAreas(a: Area, b: Area, x: nat)
    ensures At([a, b], x) == if a.Has(x) then Some(a.flags) else if b.Has(x) then Some(b.flags) else None
  {
    assert [a, b][1..] == [b];
    OneArea(b, x);
  }

  predicate MergesLeft(areas: seq<Area>, p: nat, start: nat, flags: bv32) {
    0 < p <= |areas| && areas[p - 1].end == start && areas[p - 1].flags == flags
  }

  predicate MergesRight(areas: seq<Area>, p: nat, end: nat, flags: bv32) {
    p < |areas| && areas[p].start == end && areas[p].flags == flags
  }

  /** The area the new range ends up in. */
  function Merged(areas: seq<Area>, p: nat, start: nat, end: nat, flags: bv32): Area
    requires p <= |areas|
  {
    Area(if MergesLeft(areas, p, start, flags) then areas[p - 1].start else start,
         if MergesRight(areas, p, end, flags) then areas[p].end else end, flags)
  }

  lemma AddedShape(areas: seq<Area>, p: nat, start: nat, end: nat, flags: bv32)
    requires p <= |areas|
    ensures Added(areas, p, start, end, flags)
            == areas[..MergeLo(areas, p, start, flags)] + [Merged(areas, p, start, end, flags)]
               + areas[MergeHi(areas, p, end, flags)..]
  {
  }

  lemma Cut3<T>(s: seq<T>, lo: nat, hi: nat)
    requires lo <= hi <= |s|
    ensures s == s[..lo] + s[lo..hi] + s[hi..]
  {
  }

  function MergeLo(areas: seq<Area>, p: nat, start: nat, flags: bv32): (lo: nat)
    ensures lo <= p
  {
    if MergesLeft(areas, p, start, flags) then p - 1 else p
  }

  function MergeHi(areas: seq<Area>, p: nat, end: nat, flags: bv32): (hi: nat)
    requires p <= |areas|
    ensures p <= hi <= |areas|
  {
    if MergesRight(areas, p, end, flags) then p + 1 else p
  }

  /** The merged area lies between the areas that are kept. */
  lemma MergedBetween(areas: seq<Area>, p: nat, start: nat, end: nat, flags: bv32)
    requires Ordered(areas) && start <= end && Room(areas, start, end) && PlaceFor(areas, start, p)
    ensures var one := Merged(areas, p, start, end, flags);
            && one.start <= start <= end <= one.end
            && (forall i :: 0 <= i < MergeLo(areas, p, start, flags) ==> areas[i].end <= one.start)
            && (forall i :: MergeHi(areas, p, end, flags) <= i < |areas| ==> one.end <= areas[i].start)
  {
    PlaceSplits(areas, start, end, p);
  }

  lemma MergedRange(areas: seq<Area>, p: nat, start: nat, end: nat, flags: bv32)
    requires Ordered(areas) && start <= end && p <= |areas|
    ensures SetOn(areas[MergeLo(areas, p, start, flags)..MergeHi(areas, p, end, flags)],
                  [Merged(areas, p, start, end, flags)], start, end, Some(flags))
  {
    var left, right := MergesLeft(areas, p, start, flags), MergesRight(areas, p, end, flags);
    MergedSets(areas[MergeLo(areas, p, start, flags)..MergeHi(areas, p, end, flags)],
               [Merged(areas, p, start, end, flags)], start, end, flags, left, right);
  }

  lemma EditBetween(areas: seq<Area>, lo: nat, hi: nat, one: Area, start: nat, end: nat, flags: bv32)
    requires Ordered(areas) && lo <= hi <= |areas| && one.start <= start <= end <= one.end
    requires SetOn(areas[lo..hi], [one], start, end, Some(flags))
    requires forall i :: 0 <= i < lo ==> areas[i].end <= one.start
    requires forall i :: hi <= i < |areas| ==> one.end <= areas[i].start
    ensures Ordered(areas[..lo] + [one] + areas[hi..])
    ensures SetOn(areas, areas[..lo] + [one] + areas[hi..], start, end, Some(flags))
  {
    Cut3(areas, lo, hi);
    Edit(areas[..lo], areas[lo..hi], [one], areas[hi..], start, end, Some(flags));
    OrderedEdit(areas[..lo], areas[lo..hi], [one], areas[hi..], one.start, one.end);
  }

  /** Whatever merging happens, the range gets the flags and no other address changes. */
  lemma AddedSets(areas: seq<Area>, p: nat, start: nat, end: nat, flags: bv32)
    requires Ordered(areas) && start <= end && Room(areas, start, end) && PlaceFor(areas, start, p)
    ensures Ordered(Added(areas, p, start, end, flags))
    ensures SetOn(areas, Added(areas, p, start, end, flags), start, end, Some(flags))
  {
    AddedShape(areas, p, start, end, flags);
    MergedBetween(areas, p, start, end, flags);
    MergedRange(areas, p, start, end, flags);
    EditBetween(areas, MergeLo(areas, p, start, flags), MergeHi(areas, p, end, flags),
                Merged(areas, p, start, end, flags),
                start, end, flags);
  }

  lemma MergedSets(m: seq<Area>, m': seq<Area>, start: nat, end: nat, flags: bv32, left: bool, right: bool)
    requires start <= end && |m'| == 1 && m'[0].flags == flags
    requires |m| == (if left then 1 else 0) + (if right then 1 else 0)
    requires left ==> m[0].start <= m[0].end == start && m[0].flags == flags && m'[0].start == m[0].start
    requires right
             ==> m[|m| - 1].end >= m[|m| - 1].start == end && m[|m| - 1].flags == flags && m'[0].end == m[|m| - 1].end
    requires !left ==> m'[0].start == start
    requires !right ==> m'[0].end == end
    ensures SetOn(m, m', start, end, Some(flags))
  {
    forall a: nat
      ensures At(m', a) == if start <= a < end then Some(flags) else At(m, a)
    {
      assert m' == [m'[0]];
      OneArea(m'[0], a);
      if left && right {
        assert m == [m[0], m[1]];
        TwoAreas(m[0], m[1], a);
      } else if left || right {
        assert m == [m[0]];
        OneArea(m[0], a);
      }
    }
  }

  // ---- Changing one area ----

  function ReplaceAt(areas: seq<Area>, i: nat, pieces: seq<Area>): seq<Area>
    requires i < |areas|
  {
    areas[..i] + pieces + areas[i + 1..]
  }

  lemma ReplaceSets(areas: seq<Area>, i: nat, pieces: seq<Area>, lo: nat, hi: nat, x: Option<bv32>)
    requires Ordered(areas) && i < |areas| && Ordered(pieces) && SetOn([areas[i]], pieces, lo, hi, x)
    requires forall j :: 0 <= j < |pieces| ==> areas[i].start <= pieces[j].start && pieces[j].end <= areas[i].end
    requires areas[i].start <= lo && hi <= areas[i].end
    ensures Ordered(ReplaceAt(areas, i, pieces)) && SetOn(areas, ReplaceAt(areas, i, pieces), lo, hi, x)
  {
    Cut3(areas, i, i + 1);
    assert areas[i..i + 1] == [areas[i]];
    Edit(areas[..i], [areas[i]], pieces, areas[i + 1..], lo, hi, x);
    OrderedEdit(areas[..i], [areas[i]], pieces, areas[i + 1..], areas[i].start, areas[i].end);
  }

  lemma ReplaceInUser(areas: seq<Area>, i: nat, pieces: seq<Area>)
    requires InUserSpace(areas) && InUserSpace(pieces) && i < |areas|
    ensures InUserSpace(ReplaceAt(areas, i, pieces))
  {
    Cut3(areas, i, i + 1);
    assert areas[i..i + 1] == [areas[i]];
    UserEdit(areas[..i], [areas[i]], pieces, areas[i + 1..]);
  }

  /** What `vaddr_remove` leaves of an area: nothing, its tail, its head, or both with a hole between them. */
  function Punched(v: Area, lo: nat, hi: nat): seq<Area> {
    if lo == v.start && hi == v.end then []
    else if lo == v.start then [Area(hi, v.end, v.flags)]
    else if hi == v.end then [Area(v.start, lo, v.flags)]
    else [Area(v.start, lo, v.flags), Area(hi, v.end, v.flags)]
  }

  lemma InsideOne(areas: seq<Area>, i: nat, lo: nat, hi: nat)
    requires Ordered(areas) && i < |areas| && areas[i].start <= lo <= hi <= areas[i].end
    ensures lo < hi ==> At(areas, lo).Some?
    ensures lo == hi ==> SetOn(areas, areas, lo, hi, None)
  {
    if lo < hi {
      AtSome(areas, i, lo);
    }
  }

  lemma PunchSets(areas: seq<Area>, i: nat, lo: nat, hi: nat)
    requires Ordered(areas) && InUserSpace(areas) && i < |areas|
    requires areas[i].start <= lo <= hi <= areas[i].end && Aligned(lo) && Aligned(hi)
    ensures var areas' := ReplaceAt(areas, i, Punched(areas[i], lo, hi));
            Ordered(areas') && InUserSpace(areas') && SetOn(areas, areas', lo, hi, None)
  {
    PunchedClears(areas[i], lo, hi);
    ReplaceSets(areas, i, Punched(areas[i], lo, hi), lo, hi, None);
    PunchedInUser(areas[i], lo, hi);
    ReplaceInUser(areas, i, Punched(areas[i], lo, hi));
  }

  lemma PunchedInUser(v: Area, lo: nat, hi: nat)
    requires v.start <= lo <= hi <= v.end && Aligned(lo) && Aligned(hi) && InUserSpace([v])
    ensures InUserSpace(Punched(v, lo, hi))
  {
    assert [v][0] == v;
  }

  lemma PunchedClears(v: Area, lo: nat, hi: nat)
    requires v.start <= lo <= hi <= v.end
    ensures SetOn([v], Punched(v, lo, hi), lo, hi, None) && Ordered(Punched(v, lo, hi))
  {
    forall a: nat
      ensures At(Punched(v, lo, hi), a) == if lo <= a < hi then None else At([v], a)
    {
      OneArea(v, a);
      OneArea(Area(hi, v.end, v.flags), a);
      OneArea(Area(v.start, lo, v.flags), a);
      TwoAreas(Area(v.start, lo, v.flags), Area(hi, v.end, v.flags), a);
    }
  }

  /** `vma_split` */
  function Halves(v: Area, at: nat): seq<Area> {
    [Area(v.start, at, v.flags), Area(at, v.end, v.flags)]
  }

  lemma HalvesSame(v: Area, at: nat)
    requires v.start <= at <= v.end
    ensures SetOn([v], Halves(v, at), at, at, None) && Ordered(Halves(v, at))
  {
    forall a: nat
      ensures At(Halves(v, at), a) == At([v], a)
    {
      OneArea(v, a);
      TwoAreas(Area(v.start, at, v.flags), Area(at, v.end, v.flags), a);
    }
  }

  lemma Recoloured(v: Area, flags: bv32)
    requires v.start <= v.end
    ensures SetOn([v], [v.(flags := flags)], v.start, v.end, Some(flags)) && Ordered([v.(flags := flags)])
  {
    forall a: nat
      ensures At([v.(flags := flags)], a) == if v.Has(a) then Some(flags) else At([v], a)
    {
      OneArea(v, a);
      OneArea(v.(flags := flags), a);
    }
  }

  /** Setting a range in two steps. */
  lemma SetOnNext(areas: seq<Area>, mid: seq<Area>, areas': seq<Area>, lo: nat, cur: nat, from: nat, to: nat,
                  x: Option<bv32>)
    requires SetOn(areas, mid, lo, cur, x) && SetOn(mid, areas', from, to, x) && lo <= cur <= from <= to
    requires x.None? ==> forall a: nat :: cur <= a < from ==> At(mid, a) == None
    requires x.Some? ==> cur == from
    ensures SetOn(areas, areas', lo, to, x)
  {
    forall a: nat
      ensures At(areas', a) == if lo <= a < to then x else At(areas, a)
    {
    }
  }

  /** The break moves down, within the range, exactly when the byte below it was mapped there. */
  ghost predicate BreakAfter(areas: seq<Area>, brk: nat, brk': nat, lo: nat, hi: nat) {
    if lo < brk <= hi && At(areas, brk - 1).Some? then lo <= brk' < brk else brk' == brk
  }

  lemma BreakNext(areas: seq<Area>, mid: seq<Area>, brk: nat, brk1: nat, brk2: nat, lo: nat, cur: nat, from: nat,
                  to: nat)
    requires lo <= cur <= from <= to && SetOn(areas, mid, lo, cur, None) && BreakAfter(areas, brk, brk1, lo, cur)
    requires forall a: nat :: cur <= a < from ==> At(mid, a) == None
    requires forall a: nat :: from <= a < to ==> At(mid, a).Some?
    requires brk2 == if from < brk1 <= to then from else brk1
    ensures BreakAfter(areas, brk, brk2, lo, to)
  {
    if brk > 0 {
      assert brk - 1 >= cur ==> At(mid, brk - 1) == At(areas, brk - 1);
    }
  }

  // ---- Address arithmetic ----

  /** `PAGE_ALIGN_UP` in 32 bits. */
  function AlignUp(x: word): word {
    var y := (x + PG_SIZE - 1) % WORD_LIMIT;
    y - y % PG_SIZE
  }

  /** Rounding up to whole pages, without a limit. */
  function RoundUp(x: nat): nat {
    (x + PG_SIZE - 1) / PG_SIZE * PG_SIZE
  }

  lemma AlignUpRounds(x: word)
    ensures x <= RoundUp(x) < x + PG_SIZE && Aligned(RoundUp(x))
    ensures AlignUp(x) == if RoundUp(x) < WORD_LIMIT then RoundUp(x) else 0
    ensures Aligned(x) ==> RoundUp(x) == x
  {
  }

  lemma PagesAligned(start: nat, pages: nat)
    requires Aligned(start)
    ensures Aligned(start + pages * PG_SIZE)
  {
  }

  lemma RoundUpGrows(x: nat, y: nat)
    ensures x <= y ==> RoundUp(x) <= RoundUp(y)
  {
  }

  /** The heap and the stack. */
  predicate Grows(flags: bv32): (r: bool)
    ensures r <==> flags & VM_GROWSUP != 0 || flags & VM_GROWSDOWN != 0
  {
    flags & (VM_GROWSUP | VM_GROWSDOWN) != 0
  }

  // ---- Searching ----

  /** A place for `size` bytes: inside the mmap window, meeting no area and straddling no empty one. */
  ghost predicate Fits(areas: seq<Area>, r: nat, size: nat) {
    && USER_VADDR_START <= r && r + size <= USER_MMAP_SEARCH_TOP
    && forall i :: 0 <= i < |areas| ==> areas[i].end <= r || r + size <= areas[i].start
  }

  /** The state of the downward search: areas from `i` on lie above `top`, and nothing fits that ends above it. */
  ghost predicate Searched(areas: seq<Area>, i: nat, top: nat, size: nat) {
    && i <= |areas| && top <= USER_MMAP_SEARCH_TOP
    && (forall j :: i <= j < |areas| ==> top <= areas[j].start)
    && (forall r: nat :: r + size > top ==> !Fits(areas, r, size))
  }

  lemma SearchHit(areas: seq<Area>, i: nat, top: nat, size: nat)
    requires Ordered(areas) && InUserSpace(areas) && size > 0 && Searched(areas, i, top, size) && i > 0
    requires top > areas[i - 1].end && top - areas[i - 1].end >= size
    ensures Fits(areas, top - size, size)
  {
    forall j | 0 <= j < |areas|
      ensures areas[j].end <= top - size || top <= areas[j].start
    {
      assert j < i - 1 ==> areas[j].end <= areas[i - 1].start;
    }
  }

  lemma SearchDown(areas: seq<Area>, i: nat, top: nat, size: nat)
    requires Ordered(areas) && size > 0 && Searched(areas, i, top, size) && i > 0
    requires !(top > areas[i - 1].end && top - areas[i - 1].end >= size)
    ensures Searched(areas, i - 1, if areas[i - 1].start < top then areas[i - 1].start else top, size)
  {
  }

  lemma WholePages(from: nat, to: nat)
    requires Aligned(from) && Aligned(to) && from <= to
    ensures from + (to - from) / PG_SIZE * PG_SIZE == to
  {
  }

  lemma SameArea(areas: seq<Area>, i: nat, j: nat, a: nat)
    requires Ordered(areas) && i < |areas| && j < |areas| && areas[i].Has(a) && areas[j].Has(a)
    ensures i == j
  {
  }

  lemma AddedInUser(areas: seq<Area>, p: nat, start: nat, end: nat, flags: bv32)
    requires InUserSpace(areas) && InUserSpace([Area(start, end, flags)]) && p <= |areas|
    ensures InUserSpace(Added(areas, p, start, end, flags))
  {
    var lo, hi := MergeLo(areas, p, start, flags), MergeHi(areas, p, end, flags);
    AddedShape(areas, p, start, end, flags);
    Cut3(areas, lo, hi);
    assert InUserSpace([Area(start, end, flags)]) && [Area(start, end, flags)][0] == Area(start, end, flags);
    UserEdit(areas[..lo], areas[lo..hi], [Merged(areas, p, start, end, flags)], areas[hi..]);
  }

  // ---- munmap ----

  /**
   The areas the range check of `sys_munmap` looks at: those that reach into the range, and the empty ones inside it
   that do not sit right at the end of another area.
   */
  ghost predicate Noticed(areas: seq<Area>, i: nat, addr: nat, end: nat)
    requires i < |areas|
  {
    && addr < areas[i].end && areas[i].start < end
    && (areas[i].start == areas[i].end ==> forall j :: 0 <= j < i ==> areas[j].end < areas[i].start)
  }

  /** None of the areas noticed is the heap or the stack. */
  ghost predicate Removable(areas: seq<Area>, addr: nat, end: nat) {
    forall i :: 0 <= i < |areas| && Noticed(areas, i, addr, end) ==>
      areas[i].flags & VM_GROWSUP == 0 && areas[i].flags & VM_GROWSDOWN == 0
  }

  /** The area has an address in the range. */
  ghost predicate Meets(v: Area, addr: nat, end: nat) {
    v.start < v.end && addr < v.end && v.start < end
  }

  /** An area that may grow and is not empty is in the way of every range that meets it. */
  lemma GrowingAreaStays(areas: seq<Area>, i: nat, addr: nat, end: nat)
    requires i < |areas| && Meets(areas[i], addr, end)
    requires areas[i].flags & VM_GROWSDOWN != 0 || areas[i].flags & VM_GROWSUP != 0
    ensures !Removable(areas, addr, end)
  {
    assert Noticed(areas, i, addr, end);
  }

  /** The stack of a new program is in the way of every range that meets it, and so is a heap that is not empty. */
  lemma StackAndHeapStay(areas: seq<Area>, i: nat, addr: nat, end: nat)
    requires i < |areas| && addr < areas[i].end && areas[i].start < end
    requires || areas[i] == Area(USER_STACK_BASE - USER_STACK_SIZE, USER_STACK_BASE, STACK_FLAGS)
             || (areas[i].start < areas[i].end && areas[i].flags == HEAP_FLAGS)
    ensures !Removable(areas, addr, end)
  {
    assert STACK_FLAGS & VM_GROWSDOWN != 0 && HEAP_FLAGS & VM_GROWSUP != 0;
    GrowingAreaStays(areas, i, addr, end);
  }

  /** A failing case: the empty heap at 0x8049000, right behind the data area, is not noticed; alone it is. */
  lemma EmptyHeapOverlooked()
    ensures var heap := Area(0x804_9000, 0x804_9000, HEAP_FLAGS);
            var data := Area(0x804_8000, 0x804_9000, VM_READ | VM_WRITE | VM_ANON);
            && Grows(heap.flags) && Ordered([data, heap]) && InUserSpace([data, heap])
            && Removable([data, heap], 0x804_8000, 0x804_A000) && !Removable([heap], 0x804_8000, 0x804_A000)
  {
    var heap := Area(0x804_9000, 0x804_9000, HEAP_FLAGS);
    var data := Area(0x804_8000, 0x804_9000, VM_READ | VM_WRITE | VM_ANON);
    assert [data, heap][0].end == heap.start;
    assert !Noticed([data, heap], 1, 0x804_8000, 0x804_A000);
    assert Noticed([heap], 0, 0x804_8000, 0x804_A000);
  }

  /** As far as the check got. */
  ghost predicate Checked(areas: seq<Area>, addr: nat, end: nat, cursor: nat) {
    && addr <= cursor <= end
    && (cursor == end ==> Removable(areas, addr, end))
    && forall i :: 0 <= i < |areas| && areas[i].end <= cursor && Noticed(areas, i, addr, end) ==> !Grows(areas[i].flags)
  }

  /** `i` is the first area that ends after `a`. */
  ghost predicate FirstAfter(areas: seq<Area>, i: nat, a: nat) {
    && i <= |areas|
    && (forall j :: 0 <= j < i ==> areas[j].end <= a)
    && (i < |areas| ==> a < areas[i].end)
  }

  lemma CheckedNext(areas: seq<Area>, addr: nat, end: nat, cursor: nat, i: nat)
    requires Ordered(areas) && Checked(areas, addr, end, cursor) && cursor < end && FirstAfter(areas, i, cursor)
    requires i < |areas| && areas[i].start < end && !Grows(areas[i].flags)
    ensures Checked(areas, addr, end, if end < areas[i].end then end else areas[i].end)
  {
    var next := if end < areas[i].end then end else areas[i].end;
    forall j | 0 <= j < |areas| && (next == end || areas[j].end <= next) && Noticed(areas, j, addr, end)
      ensures !Grows(areas[j].flags)
    {
    }
  }

  lemma CheckedAll(areas: seq<Area>, addr: nat, end: nat, cursor: nat, i: nat)
    requires Ordered(areas) && Checked(areas, addr, end, cursor) && cursor < end && FirstAfter(areas, i, cursor)
    requires i < |areas| ==> areas[i].start >= end
    ensures Removable(areas, addr, end)
  {
    forall j | 0 <= j < |areas| && Noticed(areas, j, addr, end)
      ensures !Grows(areas[j].flags)
    {
    }
  }

  lemma CheckedBlocks(areas: seq<Area>, addr: nat, end: nat, cursor: nat, i: nat)
    requires Ordered(areas) && addr <= cursor < end && FirstAfter(areas, i, cursor)
    requires i < |areas| && areas[i].start < end && Grows(areas[i].flags)
    ensures !Removable(areas, addr, end)
  {
    assert Noticed(areas, i, addr, end);
  }

  lemma HoleBefore(areas: seq<Area>, a: nat, i: nat)
    requires Ordered(areas) && FirstAfter(areas, i, a)
    ensures forall x: nat :: a <= x && (i < |areas| ==> x < areas[i].start) ==> At(areas, x) == None
  {
    forall x: nat | a <= x && (i < |areas| ==> x < areas[i].start)
      ensures At(areas, x) == None
    {
      forall j | 0 <= j < |areas|
        ensures !areas[j].Has(x)
      {
        assert j > i ==> areas[i].end <= areas[j].start;
      }
      AtNone(areas, x);
    }
  }

  lemma Coverage(areas: seq<Area>, i: nat)
    requires Ordered(areas) && i < |areas|
    ensures MappedOn(areas, areas[i].start, areas[i].end)
  {
    forall a: nat | areas[i].Has(a)
      ensures At(areas, a).Some?
    {
      AtSome(areas, i, a);
    }
  }

  ghost predicate MappedOn(areas: seq<Area>, lo: nat, hi: nat) {
    forall a: nat :: lo <= a < hi ==> At(areas, a).Some?
  }

  /** The flags changed from `addr` up to `to`, which is the end of the range or the first hole in it. */
  ghost predicate ProtectedTo(areas: seq<Area>, areas': seq<Area>, addr: nat, to: nat, end: nat, flags: bv32) {
    && addr <= to <= end && SetOn(areas, areas', addr, to, Some(flags)) && MappedOn(areas, addr, to)
    && (to < end ==> At(areas, to) == None)
  }

  /** `addr + PAGE_ALIGN_UP(len)` in 32 bits: past `addr` only when it does not wrap. */
  method EndOf(addr: word, len: word) returns (end: word)
    requires Aligned(addr)
    ensures Aligned(end)
    ensures addr + RoundUp(len) < WORD_LIMIT ==> end == addr + RoundUp(len)
    ensures addr + RoundUp(len) >= WORD_LIMIT ==> end <= addr
  {
    AlignUpRounds(len);
    end := (addr + AlignUp(len)) % WORD_LIMIT;
  }

  /** The argument checks of `sys_munmap`: the end of the range, unless it is empty, unaligned or outside. */
  method UnmapEnd(addr: word, len: word) returns (end: Option<nat>)
    ensures end.Some? <==>
              len > 0 && Aligned(addr) && USER_VADDR_START <= addr && addr + RoundUp(len) <= USER_STACK_BASE
    ensures end.Some? ==> end.value == addr + RoundUp(len) && addr < end.value && Aligned(end.value)
  {
    AlignUpRounds(len);
    if len == 0 || addr % PG_SIZE != 0 {
      return None;
    }
    var size := AlignUp(len);
    if size == 0 {
      return None;
    }
    var to := (addr + size) % WORD_LIMIT;
    if addr < USER_VADDR_START || to <= addr || to > USER_STACK_BASE {
      return None;
    }
    end := Some(to);
  }

  predicate IsHeap(areas: seq<Area>, i: nat, endData: nat) {
    i < |areas| && areas[i].start == endData && areas[i].flags == HEAP_FLAGS
  }

  /** Area `i` now ends at `end`: the range between its two ends is mapped with its flags, or unmapped. */
  ghost predicate MovedEnd(areas: seq<Area>, areas': seq<Area>, i: nat, end: nat) {
    i < |areas| &&
    if end >= areas[i].end then SetOn(areas, areas', areas[i].end, end, Some(areas[i].flags))
    else SetOn(areas, areas', end, areas[i].end, None)
  }

  lemma MoveEndOrdered(areas: seq<Area>, i: nat, end: nat)
    requires Ordered(areas) && InUserSpace(areas) && i < |areas| && areas[i].start <= end <= USER_STACK_BASE
             && Aligned(end)
    requires i + 1 < |areas| ==> end <= areas[i + 1].start
    ensures var areas' := areas[i := areas[i].(end := end)];
            Ordered(areas') && InUserSpace(areas')
    ensures forall j :: i < j < |areas| ==> end <= areas[j].start && areas[i].end <= areas[j].start
  {
    forall j | i < j < |areas|
      ensures end <= areas[j].start
    {
      assert j > i + 1 ==> areas[i + 1].end <= areas[j].start;
    }
  }

  lemma EndMovesOne(v: Area, end: nat)
    requires v.start <= end && v.start <= v.end
    ensures if end >= v.end then SetOn([v], [v.(end := end)], v.end, end, Some(v.flags))
            else SetOn([v], [v.(end := end)], end, v.end, None)
  {
    forall a: nat
      ensures At([v.(end := end)], a) == if v.start <= a < end then Some(v.flags) else None
      ensures At([v], a) == if v.start <= a < v.end then Some(v.flags) else None
    {
      OneArea(v, a);
      OneArea(v.(end := end), a);
    }
  }

  lemma MoveEndMoves(areas: seq<Area>, i: nat, end: nat)
    requires Ordered(areas) && InUserSpace(areas) && i < |areas| && areas[i].start <= end <= USER_STACK_BASE
             && Aligned(end)
    requires i + 1 < |areas| ==> end <= areas[i + 1].start
    ensures var areas' := areas[i := areas[i].(end := end)];
            Ordered(areas') && InUserSpace(areas') && MovedEnd(areas, areas', i, end)
  {
    var v, p, s := areas[i], areas[..i], areas[i + 1..];
    MoveEndOrdered(areas, i, end);
    EndMovesOne(v, end);
    assert forall j :: 0 <= j < |p| ==> p[j].end <= v.start;
    assert areas == p + [v] + s && areas[i := v.(end := end)] == p + [v.(end := end)] + s;
    if end >= v.end {
      Edit(p, [v], [v.(end := end)], s, v.end, end, Some(v.flags));
    } else {
      Edit(p, [v], [v.(end := end)], s, end, v.end, None);
    }
  }

  /**
   Area `h` is the heap, the only one, and the break is not past its end; unmapping may have left it below its start.
   */
  ghost predicate HeapHolds(areas: seq<Area>, h: nat, endData: nat, brk: nat) {
    && IsHeap(areas, h, endData) && (forall j :: 0 <= j < |areas| && IsHeap(areas, j, endData) ==> j == h)
    && RoundUp(brk) <= areas[h].end && brk < USER_STACK_BASE
  }

  /** Why a request is turned down: out of range, or in the way of the next area. */
  ghost predicate BrkRefused(areas: seq<Area>, h: nat, brk: nat, newBrk: nat)
    requires h < |areas|
  {
    || newBrk < areas[h].start || RoundUp(newBrk) >= USER_STACK_BASE
    || (RoundUp(newBrk) > RoundUp(brk) && h + 1 < |areas| && RoundUp(newBrk) > areas[h + 1].start)
  }

  ghost predicate MappedNowhere(areas: seq<Area>, lo: nat, hi: nat) {
    forall a: nat :: lo <= a < hi ==> At(areas, a) == None
  }

  lemma FitIsFree(areas: seq<Area>, r: nat, size: nat)
    requires Fits(areas, r, size) && size > 0
    ensures Room(areas, r, r + size) && MappedNowhere(areas, r, r + size)
  {
    forall a: nat | r <= a < r + size
      ensures At(areas, a) == None
    {
      AtNone(areas, a);
    }
  }

  /**
   The highest fit ends at the top of the window or at the start of an area, so it is a whole number of pages from
   there.
   */
  lemma FitIsAligned(areas: seq<Area>, r: nat, size: nat)
    requires InUserSpace(areas) && Fits(areas, r, size) && Aligned(size) && size > 0
    requires forall q: nat :: q > r ==> !Fits(areas, q, size)
    ensures Aligned(r) && Aligned(r + size)
  {
    assert !Fits(areas, r + 1, size);
    if r + 1 + size <= USER_MMAP_SEARCH_TOP {
      var i :| 0 <= i < |areas| && !(areas[i].end <= r + 1 || r + 1 + size <= areas[i].start);
      assert r + size == areas[i].start;
    } else {
      assert r + size == USER_MMAP_SEARCH_TOP;
    }
  }

  datatype Protected = Ok | EINVAL | ENOMEM

  class AddressSpace {
    var areas: seq<Area>
    var endData: nat
    var brk: nat

    ghost predicate Valid()
      reads this
    {
      Ordered(areas) && InUserSpace(areas)
    }

    constructor ()
      ensures Valid() && areas == []
    {
      areas, endData, brk := [], 0, 0;
    }

    /** `find_vma` */
    method FindVma(a: nat) returns (r: Option<nat>)
      requires Valid()
      ensures r.None? <==> At(areas, a).None?
      ensures r.Some? ==> r.value < |areas| && areas[r.value].Has(a) && At(areas, a) == Some(areas[r.value].flags)
    {
      for i := 0 to |areas|
        invariant forall j :: 0 <= j < i ==> !areas[j].Has(a)
      {
        if areas[i].Has(a) {
          AtSome(areas, i, a);
          return Some(i);
        }
      }
      AtNone(areas, a);
      return None;
    }

    /** `find_covering_or_next_vma` */
    method FindCoveringOrNext(a: nat) returns (i: nat)
      requires Valid()
      ensures FirstAfter(areas, i, a)
    {
      i := 0;
      while i < |areas| && !(a < areas[i].end)
        invariant i <= |areas| && forall j :: 0 <= j < i ==> areas[j].end <= a
      {
        i := i + 1;
      }
    }

    /** `add_vma` */
    method Add(start: nat, end: nat, flags: bv32)
      requires Valid() && start <= end && Room(areas, start, end) && InUserSpace([Area(start, end, flags)])
      modifies `areas
      ensures Valid() && SetOn(old(areas), areas, start, end, Some(flags))
      ensures Coalesced(old(areas)) ==> Coalesced(areas)
      ensures exists p :: PlaceFor(old(areas), start, p) && areas == Added(old(areas), p, start, end, flags)
    {
      var p := 0;
      while p < |areas| && !(areas[p].start > start)
        invariant p <= |areas| && forall i :: 0 <= i < p ==> areas[i].start <= start
      {
        p := p + 1;
      }
      AddedSets(areas, p, start, end, flags);
      AddedInUser(areas, p, start, end, flags);
      if Coalesced(areas) {
        AddedCoalesces(areas, p, start, end, flags);
      }
      assert PlaceFor(areas, start, p);
      areas := Added(areas, p, start, end, flags);
    }

    /** `vaddr_remove`: the list, and the break when it lies in what goes. */
    method Remove(start: nat, pgCnt: nat, ghost i: nat)
      requires Valid() && Aligned(start) && i < |areas|
      requires areas[i].start <= start && start + pgCnt * PG_SIZE <= areas[i].end
      modifies `areas, `brk
      ensures Valid() && SetOn(old(areas), areas, start, start + pgCnt * PG_SIZE, None)
      ensures brk == if start < old(brk) <= start + pgCnt * PG_SIZE then start else old(brk)
    {
      var end := start + pgCnt * PG_SIZE;
      PagesAligned(start, pgCnt);
      var r := FindVma(start);
      InsideOne(areas, i, start, end);
      if r.None? {
        return;
      }
      var v := areas[r.value];
      if start < end {
        SameArea(areas, i, r.value, start);
      }
      PunchSets(areas, r.value, start, end);
      areas := ReplaceAt(areas, r.value, Punched(v, start, end));
      if end >= brk && start < brk {
        brk := start;
      }
    }

    /** The first pass of `sys_munmap`, which only looks. */
    method MayUnmap(addr: nat, end: nat) returns (ok: bool)
      requires Valid() && addr < end
      ensures ok <==> Removable(areas, addr, end)
    {
      var cursor := addr;
      assert Checked(areas, addr, end, cursor);
      while cursor < end
        invariant Checked(areas, addr, end, cursor)
        decreases end - cursor
      {
        var i := FindCoveringOrNext(cursor);
        if i == |areas| || areas[i].start >= end {
          CheckedAll(areas, addr, end, cursor, i);
          return true;
        }
        if Grows(areas[i].flags) {
          CheckedBlocks(areas, addr, end, cursor, i);
          return false;
        }
        CheckedNext(areas, addr, end, cursor, i);
        cursor := if end < areas[i].end then end else areas[i].end;
      }
      return true;
    }

    /** The second pass: one area at a time, skipping the holes. */
    method UnmapRange(addr: nat, end: nat)
      requires Valid() && addr < end && Aligned(addr) && Aligned(end)
      modifies `areas, `brk
      ensures Valid() && SetOn(old(areas), areas, addr, end, None) && BreakAfter(old(areas), old(brk), brk, addr, end)
    {
      var cursor := addr;
      while cursor < end
        invariant addr <= cursor <= end && Aligned(cursor) && Valid() && SetOn(old(areas), areas, addr, cursor, None)
        invariant BreakAfter(old(areas), old(brk), brk, addr, cursor)
        decreases end - cursor
      {
        var i := FindCoveringOrNext(cursor);
        HoleBefore(areas, cursor, i);
        if i == |areas| || areas[i].start >= end {
          SetOnNext(old(areas), areas, areas, addr, cursor, end, end, None);
          BreakNext(old(areas), areas, old(brk), brk, brk, addr, cursor, end, end);
          return;
        }
        var from := if cursor < areas[i].start then areas[i].start else cursor;
        var segEnd := if end < areas[i].end then end else areas[i].end;
        ghost var mid, brk1 := areas, brk;
        WholePages(from, segEnd);
        Coverage(areas, i);
        Remove(from, (segEnd - from) / PG_SIZE, i);
        SetOnNext(old(areas), mid, areas, addr, cursor, from, segEnd, None);
        BreakNext(old(areas), mid, old(brk), brk1, brk, addr, cursor, from, segEnd);
        cursor := segEnd;
      }
    }

    /** `sys_munmap`: exactly the requested pages are unmapped, or nothing changes. */
    method Munmap(addr: word, len: word) returns (ok: bool)
      requires Valid()
      modifies `areas, `brk
      ensures Valid()
      ensures var end := addr + RoundUp(len);
              && (ok <==> len > 0 && Aligned(addr) && USER_VADDR_START <= addr && end <= USER_STACK_BASE
                          && Removable(old(areas), addr, end))
              && (if ok
                  then SetOn(old(areas), areas, addr, end, None) && BreakAfter(old(areas), old(brk), brk, addr, end)
                  else areas == old(areas) && brk == old(brk))
    {
      var end := UnmapEnd(addr, len);
      if end.None? {
        return false;
      }
      ok := MayUnmap(addr, end.value);
      if ok {
        UnmapRange(addr, end.value);
      }
    }

    /** `vma_split`: no address changes. */
    method SplitAt(i: nat, at: nat)
      requires Valid() && i < |areas| && areas[i].start <= at <= areas[i].end && Aligned(at)
      modifies `areas
      ensures Valid() && SetOn(old(areas), areas, at, at, None) && |areas| == |old(areas)| + 1
      ensures areas[i] == old(areas)[i].(end := at) && areas[i + 1] == old(areas)[i].(start := at)
    {
      var v := areas[i];
      HalvesSame(v, at);
      ReplaceSets(areas, i, Halves(v, at), at, at, None);
      ReplaceInUser(areas, i, Halves(v, at));
      areas := ReplaceAt(areas, i, Halves(v, at));
    }

    /** Cut the area at `cur` so that it starts there and does not go past `end`. */
    method Isolate(cur: nat, end: nat) returns (i: nat)
      requires Valid() && At(areas, cur).Some? && cur < end && Aligned(cur) && Aligned(end)
      modifies `areas
      ensures Valid() && SetOn(old(areas), areas, cur, cur, None)
      ensures i < |areas| && areas[i].start == cur < areas[i].end <= end
    {
      var r := FindVma(cur);
      i := r.value;
      if areas[i].start < cur {
        SplitAt(i, cur);
        r := FindVma(cur);
        SameArea(areas, i + 1, r.value, cur);
        i := r.value;
      }
      if areas[i].end > end {
        SplitAt(i, end);
      }
    }

    /** One turn of `sys_mprotect`: the area at `cur` is cut to the range and gets the new flags. */
    method ProtectStep(cur: nat, end: nat, flags: bv32) returns (next: nat)
      requires Valid() && At(areas, cur).Some? && cur < end && Aligned(cur) && Aligned(end)
      modifies `areas
      ensures Valid() && cur < next <= end && Aligned(next)
      ensures SetOn(old(areas), areas, cur, next, Some(flags))
      ensures forall a: nat :: cur <= a < next ==> At(old(areas), a).Some?
    {
      var i := Isolate(cur, end);
      var v := areas[i];
      Coverage(areas, i);
      Recoloured(v, flags);
      ReplaceSets(areas, i, [v.(flags := flags)], v.start, v.end, Some(flags));
      ReplaceInUser(areas, i, [v.(flags := flags)]);
      areas := ReplaceAt(areas, i, [v.(flags := flags)]);
      next := v.end;
    }

    /** The loop of `sys_mprotect`. */
    method ProtectRange(addr: nat, end: nat, flags: bv32) returns (ok: bool, ghost to: nat)
      requires Valid() && Aligned(addr) && Aligned(end)
      modifies `areas
      ensures Valid()
      ensures end <= addr ==> ok && areas == old(areas)
      ensures addr <= end ==> (ok <==> to == end) && ProtectedTo(old(areas), areas, addr, to, end, flags)
    {
      var cur := addr;
      while cur < end
        invariant addr <= cur && Aligned(cur) && Valid() && (addr <= end ==> cur <= end)
                  && (end <= addr ==> areas == old(areas))
        invariant SetOn(old(areas), areas, addr, cur, Some(flags)) && MappedOn(old(areas), addr, cur)
        decreases end - cur
      {
        var v := FindVma(cur);
        if v.None? {
          return false, cur;
        }
        ghost var mid := areas;
        var next := ProtectStep(cur, end, flags);
        SetOnNext(old(areas), mid, areas, addr, cur, cur, next, Some(flags));
        cur := next;
      }
      return true, cur;
    }

    /**
     `sys_mprotect`. When the end of the range does not wrap, the flags change from `addr` up to the first hole, and the
     call succeeds exactly when there is none. When it wraps, the call reports success and changes nothing.
     */
    method Mprotect(addr: word, len: word, flags: bv32) returns (r: Protected, ghost to: nat)
      requires Valid()
      modifies `areas
      ensures Valid() && (r == EINVAL <==> !Aligned(addr))
      ensures r == EINVAL ==> areas == old(areas)
      ensures r != EINVAL && addr + RoundUp(len) >= WORD_LIMIT ==> r == Ok && areas == old(areas)
      ensures r != EINVAL && addr + RoundUp(len) < WORD_LIMIT ==>
                && (r == Ok <==> to == addr + RoundUp(len))
                && ProtectedTo(old(areas), areas, addr, to, addr + RoundUp(len), flags)
    {
      to := 0;
      if addr % PG_SIZE != 0 {
        return EINVAL, 0;
      }
      var end := EndOf(addr, len);
      var ok;
      ok, to := ProtectRange(addr, end, flags);
      r := if ok then Ok else ENOMEM;
    }

    // ---- brk ----

    /** `find_heap_vma` */
    method FindHeap() returns (i: nat)
      ensures IsHeap(areas, i, endData) || (i == |areas| && forall j :: 0 <= j < |areas| ==> !IsHeap(areas, j, endData))
    {
      i := 0;
      while i < |areas| && !(areas[i].start == endData && areas[i].flags == HEAP_FLAGS)
        invariant i <= |areas| && forall j :: 0 <= j < i ==> !IsHeap(areas, j, endData)
      {
        i := i + 1;
      }
    }

    /** Move the end of area `i`; nothing else is in the way. */
    method MoveEnd(i: nat, end: nat)
      requires Valid() && i < |areas| && areas[i].start <= end <= USER_STACK_BASE && Aligned(end)
      requires i + 1 < |areas| ==> end <= areas[i + 1].start
      modifies `areas
      ensures Valid() && areas == old(areas)[i := old(areas)[i].(end := end)]
      ensures MovedEnd(old(areas), areas, i, end)
      ensures forall j :: 0 <= j < |areas| ==> (IsHeap(areas, j, endData) <==> IsHeap(old(areas), j, endData))
    {
      MoveEndMoves(areas, i, end);
      areas := areas[i := areas[i].(end := end)];
    }

    /** Move the end of the heap with the break. */
    method MoveBreak(h: nat, newBrk: word, newAligned: nat)
      requires Valid() && HeapHolds(areas, h, endData, brk) && endData <= newBrk < USER_STACK_BASE
      requires newAligned == RoundUp(newBrk) && Aligned(newAligned) && newBrk <= newAligned < USER_STACK_BASE
      requires newAligned <= areas[h].end || h + 1 == |areas| || newAligned <= areas[h + 1].start
      modifies `areas, `brk
      ensures Valid() && brk == newBrk && HeapHolds(areas, h, endData, brk)
      ensures MovedEnd(old(areas), areas, h, newAligned)
    {
      MoveEnd(h, newAligned);
      brk := newBrk;
    }

    /** `sys_brk` once the request is known to be in range and its pages are counted. */
    method BrkTo(h: nat, newBrk: word, oldAligned: nat, newAligned: nat)
      requires Valid() && HeapHolds(areas, h, endData, brk) && endData <= newBrk < USER_STACK_BASE
      requires oldAligned == RoundUp(brk) && newAligned == RoundUp(newBrk) && Aligned(newAligned)
      requires newBrk <= newAligned < USER_STACK_BASE && (newBrk < brk ==> newAligned <= oldAligned)
      modifies `areas, `brk
      ensures Valid() && HeapHolds(areas, h, endData, brk)
      ensures BrkRefused(old(areas), h, old(brk), newBrk) ==> brk == old(brk) && areas == old(areas)
      ensures !BrkRefused(old(areas), h, old(brk), newBrk) ==> brk == newBrk
      ensures !BrkRefused(old(areas), h, old(brk), newBrk) && newAligned == oldAligned ==> areas == old(areas)
      ensures !BrkRefused(old(areas), h, old(brk), newBrk) && newAligned != oldAligned ==>
                MovedEnd(old(areas), areas, h, newAligned)
    {
      if newBrk < brk {
        if newAligned < oldAligned {
          MoveBreak(h, newBrk, newAligned);
        } else {
          brk := newBrk;
        }
        return;
      }
      if newAligned <= oldAligned {
        RoundUpGrows(brk, newBrk);
        brk := newBrk;
        return;
      }
      if h + 1 < |areas| && newAligned > areas[h + 1].start {
        return;
      }
      MoveBreak(h, newBrk, newAligned);
    }

    /**
     `sys_brk`. The new end takes effect or the old one is reported back; only the pages between the two ends of the
     heap change, all to mapped or all to unmapped.
     */
    method Brk(newBrk: word, ghost h0: nat) returns (r: nat)
      requires Valid() && HeapHolds(areas, h0, endData, brk)
      modifies `areas, `brk
      ensures Valid() && r == brk && HeapHolds(areas, h0, endData, brk) && (brk != old(brk) ==> brk >= endData)
      ensures newBrk == 0 || BrkRefused(old(areas), h0, old(brk), newBrk) ==> brk == old(brk) && areas == old(areas)
      ensures newBrk != 0 && !BrkRefused(old(areas), h0, old(brk), newBrk) ==>
                && brk == newBrk
                && if RoundUp(newBrk) == RoundUp(old(brk)) then areas == old(areas)
                   else MovedEnd(old(areas), areas, h0, RoundUp(newBrk))
    {
      AlignUpRounds(newBrk);
      if newBrk == 0 || newBrk < endData || newBrk >= USER_STACK_BASE {
        return brk;
      }
      var h := FindHeap();
      AlignUpRounds(brk);
      var oldAligned, newAligned := AlignUp(brk), AlignUp(newBrk);
      if newAligned < newBrk || newAligned >= USER_STACK_BASE {
        return brk;
      }
      RoundUpGrows(newBrk, brk);
      BrkTo(h, newBrk, oldAligned, newAligned);
      r := brk;
    }

    // ---- mmap ----

    /** `vma_find_gap_reverse`: the highest place that fits, 0 when none does. */
    method FindGapReverse(pgCnt: nat) returns (r: nat)
      requires Valid() && 0 < pgCnt && pgCnt * PG_SIZE < WORD_LIMIT
      ensures r != 0 ==> Fits(areas, r, pgCnt * PG_SIZE) && forall q: nat :: q > r ==> !Fits(areas, q, pgCnt * PG_SIZE)
      ensures r == 0 ==> forall q: nat :: !Fits(areas, q, pgCnt * PG_SIZE)
    {
      var size := pgCnt * PG_SIZE;
      var top: nat := USER_MMAP_SEARCH_TOP;
      if top <= USER_VADDR_START || top - USER_VADDR_START < size {
        return 0;
      }
      var i: nat := |areas|;
      while i > 0
        invariant Searched(areas, i, top, size)
      {
        var v := areas[i - 1];
        if top > v.end && top - v.end >= size {
          SearchHit(areas, i, top, size);
          return top - size;
        }
        SearchDown(areas, i, top, size);
        if v.start < top {
          top := v.start;
        }
        i := i - 1;
      }
      if top > USER_VADDR_START && top - USER_VADDR_START >= size {
        return top - size;
      }
      return 0;
    }

    /** Map `size` bytes at the highest place that fits. */
    method MapHighest(len: word, flags: bv32) returns (r: nat)
      requires Valid()
      modifies `areas
      ensures Valid()
      ensures r != 0
              ==> SetOn(old(areas), areas, r, r + RoundUp(len), Some(flags))
                  && MappedNowhere(old(areas), r, r + RoundUp(len))
      ensures r != 0
              ==> Fits(old(areas), r, RoundUp(len)) && forall q: nat :: q > r ==> !Fits(old(areas), q, RoundUp(len))
      ensures r == 0 ==> areas == old(areas) && (len == 0 || forall q: nat :: !Fits(areas, q, RoundUp(len)))
      ensures r != 0 ==> len > 0
    {
      if len == 0 {
        return 0;
      }
      AlignUpRounds(len);
      var size := AlignUp(len);
      if size == 0 {
        return 0;
      }
      WholePages(0, size);
      r := FindGapReverse(size / PG_SIZE);
      if r == 0 {
        return 0;
      }
      FitIsFree(areas, r, size);
      FitIsAligned(areas, r, size);
      Add(r, r + size, flags);
    }

    /**
     `do_mmap` with MAP_ANON among the flags; None stands for MAP_FAILED. Refused exactly as `MmapRefused` says or when
     no place fits; otherwise the highest free range of whole pages gets the flags, and nothing else changes.
     */
    method MmapAnon(addr: word, len: word, prot: bv32, flags: bv32, fd: int, offset: word) returns (r: Option<nat>)
      requires Valid() && flags & MAP_ANON != 0
      modifies `areas
      ensures Valid()
      ensures r.None? <==>
                MmapRefused(addr, len, prot, flags, fd, offset) || forall q: nat :: !Fits(old(areas), q, RoundUp(len))
      ensures r.None? ==> areas == old(areas)
      ensures r.Some? ==>
                && SetOn(old(areas), areas, r.value, r.value + RoundUp(len), Some(ProtFlags(prot)))
                && MappedNowhere(old(areas), r.value, r.value + RoundUp(len))
                && Fits(old(areas), r.value, RoundUp(len))
                && forall q: nat :: q > r.value ==> !Fits(old(areas), q, RoundUp(len))
    {
      if len == 0 || addr != 0 || flags & MAP_PRIVATE == 0 || flags & !(MAP_PRIVATE | MAP_ANON) != 0
         || prot & !(PROT_READ | PROT_WRITE | PROT_EXEC) != 0 {
        return None;
      }
      if fd != -1 || offset != 0 {
        return None;
      }
      var vaddr := MapHighest(len, ProtFlags(prot));
      r := if vaddr == 0 then None else Some(vaddr);
    }
  }

  /**
   A failing case: protecting the upper half of the 32-bit range reports success and leaves a page in it as it was.
   */
  method ProtectUpperHalf(flags: bv32, wanted: bv32) returns (space: AddressSpace, r: Protected)
    ensures fresh(space) && space.Valid() && r == Ok
    ensures At(space.areas, 0x8000_0000) == Some(flags)
  {
    space := new AddressSpace();
    space.Add(0x8000_0000, 0x8000_1000, flags);
    ghost var to;
    r, to := space.Mprotect(0x8000_0000, 0x8000_0000, wanted);
  }
}
