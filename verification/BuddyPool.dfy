/**
 The buddy allocator of mm/buddy.c and `palloc_pages_exact` of mm/memory.c, with its free lists,
 counters and the per-page flags and orders it keeps in the global page array.
 */
module BuddyAllocator {
  import opened Arith
  import opened BuddyBlocks
  import opened Layout
  import opened Lists
  import opened Options

  /** The two fields of `struct page` the allocator uses: bit 0 of `flags`, and `order`. */
  datatype Page = Page(taken: bool, order: int)

  /** The lists hold exactly the free blocks, each once, and the counters are the list lengths. */
  ghost predicate ListsAgree(areas: seq<seq<nat>>, nrFree: seq<nat>, free: set<Block>) {
    && |areas| == MAX_ORDER && |nrFree| == MAX_ORDER
    && (forall k :: 0 <= k < MAX_ORDER ==> nrFree[k] == |areas[k]| && NoDup(areas[k]))
    && (forall b: Block :: b in free <==> b.order < MAX_ORDER && b.head in areas[b.order])
  }

  /** The blocks partition the page range `[lo, hi)`. */
  ghost predicate Tiles(s: set<Block>, lo: nat, hi: nat) {
    && Disjoint(s)
    && (forall b :: b in s ==> lo <= b.head && b.End() <= hi)
    && (forall p: nat :: lo <= p < hi ==> Covers(s, p))
  }

  /** No page belongs to two blocks that are handed out, or to one and a free one. */
  lemma LiveApart(free: set<Block>, live: set<Block>, lo: nat, hi: nat, b: Block, c: Block, p: nat)
    requires Tiles(free + live, lo, hi) && free !! live && b in live && c in free + live && b != c
    ensures !(b.Has(p) && c.Has(p))
  {
    assert b in free + live;
  }

  lemma FreePages(free: set<Block>, live: set<Block>, lo: nat, hi: nat, p: nat)
    requires Tiles(free + live, lo, hi) && free !! live
    ensures Covers(free, p) <==> lo <= p < hi && !Covers(live, p)
  {
    if lo <= p < hi {
      assert Covers(free + live, p);
      var b :| b in free + live && b.Has(p);
    }
    if Covers(free, p) {
      var b :| b in free && b.Has(p);
      forall c | c in live
        ensures !c.Has(p)
      {
        LiveApart(free, live, lo, hi, c, b, p);
      }
    }
  }

  /** Whatever the order of allocations and frees, the free blocks depend only on which pages are handed out. */
  lemma HistoryIndependent(free: set<Block>, live: set<Block>, free': set<Block>, live': set<Block>, lo: nat, hi: nat)
    requires Tiles(free + live, lo, hi) && free !! live && Coalesced(free)
    requires Tiles(free' + live', lo, hi) && free' !! live' && Coalesced(free')
    requires SamePages(live, live')
    ensures free == free'
  {
    forall p: nat
      ensures Covers(free, p) <==> Covers(free', p)
    {
      FreePages(free, live, lo, hi, p);
      FreePages(free', live', lo, hi, p);
    }
    DisjointPart(free, live);
    DisjointPart(free', live');
    CanonicalFormIsUnique(free, free');
  }

  lemma DisjointPart(s: set<Block>, t: set<Block>)
    requires Disjoint(s + t)
    ensures Disjoint(s)
  {
    assert forall b :: b in s ==> b in s + t;
  }

  /** What the page array says at the head of each block. */
  ghost predicate HeadsAgree(pages: seq<Page>, free: set<Block>, live: set<Block>) {
    && (forall b :: b in free ==> b.head < |pages| && !pages[b.head].taken && pages[b.head].order == b.order)
    && (forall b :: b in live ==> b.head < |pages| && pages[b.head].taken)
  }

  lemma HasHead(b: Block)
    ensures b.Has(b.head)
  {
    assert Pow2(b.order) > 0;
  }

  lemma PushAgrees(areas: seq<seq<nat>>, nrFree: seq<nat>, free: set<Block>, h: nat, k: nat, list: seq<nat>)
    requires ListsAgree(areas, nrFree, free) && k < MAX_ORDER && Block(h, k) !in free
    requires list == areas[k] + [h] || list == [h] + areas[k]
    ensures ListsAgree(areas[k := list], nrFree[k := nrFree[k] + 1], free + {Block(h, k)})
  {
    assert h !in areas[k] by { assert Block(h, k).order == k; }
    forall b: Block
      ensures b in free + {Block(h, k)} <==> b.order < MAX_ORDER && b.head in areas[k := list][b.order]
    {
    }
  }

  lemma RemoveAgrees(areas: seq<seq<nat>>, nrFree: seq<nat>, free: set<Block>, h: nat, k: nat, list: seq<nat>)
    requires ListsAgree(areas, nrFree, free) && k < MAX_ORDER && Block(h, k) in free
    requires NoDup(list) && |list| == |areas[k]| - 1
    requires forall y :: y in list <==> y in areas[k] && y != h
    ensures ListsAgree(areas[k := list], nrFree[k := nrFree[k] - 1], free - {Block(h, k)})
  {
    assert nrFree[k] > 0;
    forall b: Block
      ensures b in free - {Block(h, k)} <==> b.order < MAX_ORDER && b.head in areas[k := list][b.order]
    {
    }
  }

  lemma SplitTiles(s: set<Block>, c: Block, lo: nat, hi: nat)
    requires Tiles(s, lo, hi) && c in s && c.order > 0
    ensures Tiles(s - {c} + {c.Half(false), c.Half(true)}, lo, hi)
    ensures c.Half(false) !in s - {c} && c.Half(true) !in s - {c}
  {
    var a, b := c.Half(false), c.Half(true);
    HalvesAreBuddies(c);
    ParentIsBlockAndBuddy(a);
    HasHead(a);
    HasHead(b);
    assert c.Has(a.head) && c.Has(b.head);
    var t := s - {c} + {a, b};
    forall x, y, p: nat | x in t && y in t && x.Has(p) && y.Has(p)
      ensures x == y
    {
      assert x == a || x == b ==> c.Has(p);
      assert y == a || y == b ==> c.Has(p);
    }
    forall p: nat | lo <= p < hi
      ensures Covers(t, p)
    {
      assert Covers(s, p);
      var d :| d in s && d.Has(p);
      if d == c {
        assert a.Has(p) || b.Has(p);
      } else {
        assert d in t;
      }
    }
  }

  lemma MergeTiles(s: set<Block>, c: Block, lo: nat, hi: nat)
    requires Tiles(s, lo, hi) && c in s && c.Buddy() in s && c.order + 1 < MAX_ORDER
    ensures Tiles(s - {c, c.Buddy()} + {c.Parent()}, lo, hi)
    ensures c.Parent() !in s
  {
    var d, m := c.Buddy(), c.Parent();
    ParentIsBlockAndBuddy(c);
    HasHead(c);
    HasHead(d);
    var t := s - {c, d} + {m};
    assert m.Has(c.head);
    assert m !in s;
    forall x, p: nat | x in s - {c, d} && x.Has(p)
      ensures !m.Has(p)
    {
      assert m.Has(p) <==> c.Has(p) || d.Has(p);
    }
    assert Disjoint(t);
    assert m.head == c.head || m.head == d.head;
    forall p: nat | lo <= p < hi
      ensures Covers(t, p)
    {
      assert Covers(s, p);
      var e :| e in s && e.Has(p);
      if e == c || e == d {
        assert m.Has(p);
      } else {
        assert e in t;
      }
    }
  }

  /** A subset of a disjoint set is disjoint; a subset of a canonical one is canonical. */
  lemma CanonicalWithout(s: set<Block>, b: Block)
    requires Canonical(s)
    ensures Canonical(s - {b})
  {
  }

  /** Adding a block that meets nothing and whose buddy is absent keeps the set canonical. */
  lemma CanonicalWith(s: set<Block>, b: Block)
    requires Canonical(s) && Disjoint(s + {b})
    requires b.order < MAX_ORDER - 1 ==> b.Buddy() !in s
    ensures Canonical(s + {b})
  {
    ParentIsBlockAndBuddy(b);
    forall c | c in s && c.order < MAX_ORDER - 1 && c.Buddy() == b
      ensures false
    {
      ParentIsBlockAndBuddy(c);
    }
  }

  /**
   Why the flag test of `pfree_pages` is enough: when block `c` is out of every list, the page at its
   buddy's index is unallocated and carries order `c.order` exactly if the buddy is a free block.
   Stale words inside larger blocks are never consulted.
   */
  lemma FlagTestFindsFreeBuddy(pages: seq<Page>, free: set<Block>, live: set<Block>, c: Block, lo: nat, hi: nat)
    requires Tiles(free + live + {c}, lo, hi) && c !in free + live && HeadsAgree(pages, free, live)
    requires hi <= |pages| && c.order < MAX_ORDER - 1
    requires lo <= c.Buddy().head < hi
    ensures c.Buddy() in free
       <==> !pages[c.Buddy().head].taken && pages[c.Buddy().head].order == c.order
  {
    var d := c.Buddy();
    HasHead(d);
    var s := free + live + {c};
    assert Covers(s, d.head);
    var e :| e in s && e.Has(d.head);
    BuddyIsWholeBlock(s, c, e);
    HeadsSame(e, d);
  }

  lemma HeadsSame(e: Block, d: Block)
    requires e.Aligned() && d.Aligned() && e.order <= d.order && e.Has(d.head)
    ensures e.head == d.head
  {
    HasHead(d);
    Nested(e, d, d.head);
  }

  /** Nothing larger than `c` can hold the head of its buddy, since it would hold `c` too. */
  lemma BuddyIsWholeBlock(s: set<Block>, c: Block, e: Block)
    requires Disjoint(s) && c in s && e in s && e.Has(c.Buddy().head)
    ensures e != c && e.order <= c.order && c.Buddy().Aligned()
  {
    var d := c.Buddy();
    ParentIsBlockAndBuddy(c);
    HasHead(c);
    HasHead(d);
    assert d.Has(d.head) && !c.Has(d.head);
    assert c.Parent().Has(d.head) && c.Parent().Has(c.head);
    if e.order > c.order {
      Nested(c.Parent(), e, d.head);
      assert false;
    }
  }

  lemma HeadsApart(s: set<Block>, c: Block, lo: nat, hi: nat)
    requires Tiles(s + {c}, lo, hi) && c !in s
    ensures lo <= c.head < hi
    ensures forall x :: x in s ==> x.head != c.head
  {
    HasHead(c);
    assert c in s + {c};
    forall x | x in s
      ensures x.head != c.head
    {
      HasHead(x);
      assert x in s + {c};
    }
  }

  /** One halving: the upper half goes on a free list, the lower half stays in hand. */
  lemma SplitCarry(pages: seq<Page>, free: set<Block>, live: set<Block>, c: Block, lo: nat, hi: nat)
    requires Tiles(free + live + {c}, lo, hi) && free !! live && c !in free + live
    requires Coalesced(free) && HeadsAgree(pages, free, live) && hi <= |pages| && c.order > 0
    ensures var a, b := c.Half(false), c.Half(true);
            && lo <= b.head < hi
            && b !in free + live && a !in free + {b} + live
            && Tiles(free + {b} + live + {a}, lo, hi)
            && Coalesced(free + {b})
            && HeadsAgree(pages[b.head := Page(false, b.order)], free + {b}, live)
            && (forall p: nat :: c.Has(p) <==> a.Has(p) || b.Has(p))
            && (forall p: nat :: !(a.Has(p) && b.Has(p)))
  {
    var s := free + live + {c};
    var a, b := c.Half(false), c.Half(true);
    SplitTiles(s, c, lo, hi);
    HalvesAreBuddies(c);
    ParentIsBlockAndBuddy(a);
    HasHead(a);
    HasHead(b);
    assert s - {c} == free + live;
    assert s - {c} + {a, b} == free + {b} + live + {a};
    CanonicalWith(free, b);
    forall x | x in free + live
      ensures x.head != b.head
    {
      HasHead(x);
      assert x in free + {b} + live + {a} && b in free + {b} + live + {a};
    }
    assert forall p: nat :: c.Has(p) <==> c.Half(false).Parent().Has(p);
  }

  lemma SamePagesSplit(s: set<Block>, c: Block)
    requires c.Aligned() && c.order > 0
    ensures SamePages(s + {c}, s + {c.Half(true)} + {c.Half(false)})
  {
    var a, b := c.Half(false), c.Half(true);
    HalvesAreBuddies(c);
    ParentIsBlockAndBuddy(a);
    forall p: nat
      ensures Covers(s + {c}, p) <==> Covers(s + {b} + {a}, p)
    {
      assert c.Has(p) <==> c.Half(false).Parent().Has(p);
      if Covers(s + {c}, p) {
        var x :| x in s + {c} && x.Has(p);
        var y := if x != c then x else if a.Has(p) then a else b;
        assert y in s + {b} + {a} && y.Has(p);
      }
      if Covers(s + {b} + {a}, p) {
        var x :| x in s + {b} + {a} && x.Has(p);
        var y := if x == a || x == b then c else x;
        assert y in s + {c} && y.Has(p);
      }
    }
  }

  /** Taking `c` out of a set whose pages were those of `s0` leaves exactly the other pages of `s0`. */
  lemma TakenPages(s0: set<Block>, s: set<Block>, c: Block)
    requires SamePages(s0, s + {c}) && Disjoint(s + {c}) && c !in s
    ensures AllCovered(s0, c)
    ensures forall p: nat :: Covers(s, p) <==> Covers(s0, p) && !c.Has(p)
  {
    forall p: nat
      ensures c.Has(p) ==> Covers(s0, p)
      ensures Covers(s, p) <==> Covers(s0, p) && !c.Has(p)
    {
      assert c in s + {c};
      assert Covers(s0, p) <==> Covers(s + {c}, p);
      if Covers(s, p) {
        var x :| x in s && x.Has(p);
        assert x in s + {c};
      }
      if Covers(s + {c}, p) && !c.Has(p) {
        var x :| x in s + {c} && x.Has(p);
        assert x in s;
      }
    }
  }

  lemma MergeCarry(pages: seq<Page>, free: set<Block>, live: set<Block>, c: Block, lo: nat, hi: nat)
    requires Tiles(free + live + {c}, lo, hi) && free !! live && c !in free + live
    requires Coalesced(free) && HeadsAgree(pages, free, live)
    requires c.Buddy() in free && c.order < MAX_ORDER - 1
    ensures var d, m := c.Buddy(), c.Parent();
            && m !in free + live && m.head == (if c.head > d.head then d.head else c.head)
            && Tiles(free - {d} + live + {m}, lo, hi)
            && Coalesced(free - {d})
            && HeadsAgree(pages, free - {d}, live)
  {
    var s := free + live + {c};
    ParentIsBlockAndBuddy(c);
    MergeTiles(s, c, lo, hi);
    assert s - {c, c.Buddy()} + {c.Parent()} == free - {c.Buddy()} + live + {c.Parent()};
  }

  lemma SamePagesMerge(s: set<Block>, c: Block)
    requires c.Aligned() && c.Buddy() in s
    ensures SamePages(s + {c}, s - {c.Buddy()} + {c.Parent()})
  {
    var d, m := c.Buddy(), c.Parent();
    ParentIsBlockAndBuddy(c);
    forall p: nat
      ensures Covers(s + {c}, p) <==> Covers(s - {d} + {m}, p)
    {
      assert m.Has(p) <==> c.Has(p) || d.Has(p);
      if Covers(s + {c}, p) {
        var x :| x in s + {c} && x.Has(p);
        var y := if x == c || x == d then m else x;
        assert y in s - {d} + {m} && y.Has(p);
      }
      if Covers(s - {d} + {m}, p) {
        var x :| x in s - {d} + {m} && x.Has(p);
        var y := if x != m then x else if c.Has(p) then c else d;
        assert y in s + {c} && y.Has(p);
      }
    }
  }

  lemma AddedPages(s0: set<Block>, s: set<Block>, c: Block)
    requires SamePages(s0 + {c}, s)
    ensures forall p: nat :: Covers(s, p) <==> Covers(s0, p) || c.Has(p)
  {
    forall p: nat
      ensures Covers(s, p) <==> Covers(s0, p) || c.Has(p)
    {
      assert Covers(s0 + {c}, p) <==> Covers(s, p);
      assert c in s0 + {c};
      if Covers(s0, p) {
        var x :| x in s0 && x.Has(p);
        assert x in s0 + {c};
      }
    }
  }

  lemma SamePagesTrans(s: set<Block>, t: set<Block>, u: set<Block>)
    requires SamePages(s, t) && SamePages(t, u)
    ensures SamePages(s, u)
  {
  }

  /** The single-page blocks of `[a, b)`. */
  ghost function Singles(a: nat, b: nat): set<Block> {
    set p: nat | a <= p < b :: Block(p, 0)
  }

  /** The least order whose blocks hold `n` pages. */
  ghost function OrderFor(n: nat): (k: nat)
    ensures Pow2(k) >= n && (k > 0 ==> Pow2(k - 1) < n)
  {
    LeastOrder(n, 0)
  }

  ghost function LeastOrder(n: nat, k: nat): (r: nat)
    requires k > 0 ==> Pow2(k - 1) < n
    ensures r >= k && Pow2(r) >= n && (r > 0 ==> Pow2(r - 1) < n)
    decreases n - Pow2(k)
  {
    if Pow2(k) >= n then k else LeastOrder(n, k + 1)
  }

  lemma {:induction false} PowMonotone(a: nat, b: nat)
    requires a <= b
    ensures Pow2(a) <= Pow2(b)
    decreases b
  {
    if a < b {
      PowMonotone(a, b - 1);
    }
  }

  lemma OrderIsUnique(n: nat, a: nat, b: nat)
    requires Pow2(a) >= n && (a > 0 ==> Pow2(a - 1) < n)
    requires Pow2(b) >= n && (b > 0 ==> Pow2(b - 1) < n)
    ensures a == b
  {
    if a < b {
      PowMonotone(a, b - 1);
    } else if b < a {
      PowMonotone(b, a - 1);
    }
  }

  method PgCntToOrder(pgCnt: nat) returns (order: nat)
    requires pgCnt <= Pow2(MAX_ORDER - 1)
    ensures order == OrderFor(pgCnt) && order < MAX_ORDER
  {
    order := 0;
    while Pow2(order) < pgCnt
      invariant order < MAX_ORDER
      invariant order > 0 ==> Pow2(order - 1) < pgCnt
      decreases MAX_ORDER - order
    {
      if order == MAX_ORDER - 1 {
        assert false;
      }
      order := order + 1;
    }
    OrderIsUnique(pgCnt, order, OrderFor(pgCnt));
  }

  lemma ShatterTiles(s: set<Block>, b: Block, lo: nat, hi: nat)
    requires Tiles(s + {b}, lo, hi) && b !in s
    ensures Tiles(s + Singles(b.head, b.End()), lo, hi)
    ensures Singles(b.head, b.End()) !! s
  {
    var t := Singles(b.head, b.End());
    assert Pow2(0) == 1;
    forall x | x in t
      ensures x.order == 0 && x.Aligned() && b.Has(x.head) && x !in s && (forall p: nat :: x.Has(p) <==> p == x.head)
    {
      HasHead(x);
      assert b in s + {b};
      if x in s {
        assert x in s + {b};
      }
    }
    forall x, y, p: nat | x in s + t && y in s + t && x.Has(p) && y.Has(p)
      ensures x == y
    {
      assert x in t ==> b.Has(p);
      assert y in t ==> b.Has(p);
      assert x in s ==> x in s + {b};
      assert y in s ==> y in s + {b};
      assert b in s + {b};
    }
    assert b in s + {b};
    forall p: nat | lo <= p < hi
      ensures Covers(s + t, p)
    {
      assert Covers(s + {b}, p);
      var e :| e in s + {b} && e.Has(p);
      if e == b {
        assert Block(p, 0) in t && Block(p, 0).Has(p);
        assert Block(p, 0) in s + t;
      } else {
        assert e in s + t;
      }
    }
  }

  lemma HeadsAvoid(s: set<Block>, b: Block, p: nat)
    requires Disjoint(s + {b}) && b !in s && b.Has(p)
    ensures forall x :: x in s ==> x.head != p
  {
    forall x | x in s
      ensures x.head != p
    {
      HasHead(x);
      assert x in s + {b} && b in s + {b};
    }
  }

  lemma TailHeld(live: set<Block>, live1: set<Block>, first: nat, keep: nat, n: nat)
    requires keep <= n && live1 == live + Singles(first, first + n)
    ensures Singles(first + keep, first + n) <= live1
  {
  }

  lemma KeepFirst(live: set<Block>, live1: set<Block>, live2: set<Block>, first: nat, keep: nat, n: nat)
    requires keep <= n && Singles(first, first + n) !! live
    requires live1 == live + Singles(first, first + n) && live2 == live1 - Singles(first + keep, first + n)
    ensures Singles(first, first + keep) !! live && live2 == live + Singles(first, first + keep)
  {
    assert Singles(first, first + n) == Singles(first, first + keep) + Singles(first + keep, first + n);
    assert Singles(first + keep, first + n) !! Singles(first, first + keep);
  }

  lemma BrokenUp(live: set<Block>, live1: set<Block>, live2: set<Block>, b: Block, parts: set<Block>)
    requires b !in live && live1 == live + {b} && live2 == live1 - {b} + parts && parts !! live1 - {b}
    ensures live2 == live + parts && parts !! live
  {
    assert live1 - {b} == live;
  }

  /** Some aligned run of `2^order` pages is free throughout. */
  ghost predicate HasRun(free: set<Block>, order: nat) {
    exists h: nat :: Block(h, order).Aligned() && AllCovered(free, Block(h, order))
  }

  /** The pages covered by `s` are those of `s0` without the range, or with it. */
  ghost predicate LessPages(s0: set<Block>, s: set<Block>, from: nat, to: nat) {
    forall p: nat :: Covers(s, p) <==> Covers(s0, p) && !(from <= p < to)
  }

  ghost predicate MorePages(s0: set<Block>, s: set<Block>, from: nat, to: nat) {
    forall p: nat :: Covers(s, p) <==> Covers(s0, p) || from <= p < to
  }

  ghost predicate RangeCovered(s: set<Block>, from: nat, to: nat) {
    forall p: nat :: from <= p < to ==> Covers(s, p)
  }

  /** Exactly the pages of the range, free before and live singly now, were handed out. */
  ghost predicate Gained(live: set<Block>, live': set<Block>, free: set<Block>, free': set<Block>, from: nat, to: nat) {
    && Singles(from, to) !! live && live' == live + Singles(from, to)
    && RangeCovered(free, from, to) && LessPages(free, free', from, to)
  }

  lemma KeepPages(s0: set<Block>, s1: set<Block>, s2: set<Block>, first: nat, keep: nat, n: nat)
    requires keep <= n && RangeCovered(s0, first, first + n)
    requires LessPages(s0, s1, first, first + n) && MorePages(s1, s2, first + keep, first + n)
    ensures LessPages(s0, s2, first, first + keep) && RangeCovered(s0, first, first + keep)
  {
  }

  lemma BlockPages(s0: set<Block>, s: set<Block>, b: Block)
    requires AllCovered(s0, b) && forall p: nat :: Covers(s, p) <==> Covers(s0, p) && !b.Has(p)
    ensures LessPages(s0, s, b.head, b.head + Pow2(b.order)) && RangeCovered(s0, b.head, b.head + Pow2(b.order))
  {
    assert forall p: nat :: b.Has(p) <==> b.head <= p < b.head + Pow2(b.order);
  }

  ghost function PageBlocks(ps: seq<nat>): set<Block> {
    set p | p in ps :: Block(p, 0)
  }

  ghost predicate MorePagesOf(s0: set<Block>, s: set<Block>, ps: seq<nat>) {
    forall p: nat :: Covers(s, p) <==> Covers(s0, p) || p in ps
  }

  lemma OnePageMore(live0: set<Block>, live: set<Block>, s0: set<Block>, s1: set<Block>, s2: set<Block>, ps: seq<nat>,
                    i: nat)
    requires i < |ps| && NoDup(ps)
    requires live == live0 - PageBlocks(ps[..i]) && MorePagesOf(s0, s1, ps[..i])
    requires forall p: nat :: Covers(s2, p) <==> Covers(s1, p) || Block(ps[i], 0).Has(p)
    ensures live - {Block(ps[i], 0)} == live0 - PageBlocks(ps[..i + 1]) && MorePagesOf(s0, s2, ps[..i + 1])
  {
    assert ps[..i + 1] == ps[..i] + [ps[i]];
    assert PageBlocks(ps[..i + 1]) == PageBlocks(ps[..i]) + {Block(ps[i], 0)};
    assert forall p: nat :: Block(ps[i], 0).Has(p) <==> p == ps[i] by { assert Pow2(0) == 1; }
  }

  /** Order `k` suits address `curr`: aligned there, and the block ends by `end`. */
  predicate Fits(curr: nat, end: nat, k: nat) {
    curr % Pow2(k) == 0 && curr + Pow2(k) <= end
  }

  /** Blocks that tile `[lo, curr)`, each the largest that fits at its head. */
  ghost predicate GreedyCut(s: set<Block>, lo: nat, curr: nat, end: nat) {
    && Tiles(s, lo, curr)
    && (forall b: Block, k: nat :: b in s && b.order < k < MAX_ORDER ==> !Fits(b.head, end, k))
  }

  lemma GreedyExtend(s: set<Block>, lo: nat, curr: nat, end: nat, order: nat)
    requires GreedyCut(s, lo, curr, end) && lo <= curr && order < MAX_ORDER && Fits(curr, end, order)
    requires forall k: nat :: order < k < MAX_ORDER ==> !Fits(curr, end, k)
    ensures Block(curr, order) !in s
    ensures forall b :: b in s ==> b.head < curr
    ensures GreedyCut(s + {Block(curr, order)}, lo, curr + Pow2(order), end)
  {
    var n := Block(curr, order);
    forall b | b in s
      ensures b.head < curr
    {
      HasHead(b);
    }
    var t := s + {n};
    assert Disjoint(t);
    forall p: nat | lo <= p < curr + Pow2(order)
      ensures Covers(t, p)
    {
      if p < curr {
        assert Covers(s, p);
        var b :| b in s && b.Has(p);
        assert b in t;
      } else {
        assert n in t && n.Has(p);
      }
    }
  }

  /** Had two buddies been cut side by side, the lower one would have been cut twice as large. */
  lemma GreedyIsCoalesced(s: set<Block>, lo: nat, end: nat)
    requires GreedyCut(s, lo, end, end)
    ensures Coalesced(s)
  {
    forall b | b in s && b.order < MAX_ORDER - 1
      ensures b.Buddy() !in s
    {
      ParentIsBlockAndBuddy(b);
      var low := if b.head < b.Buddy().head then b else b.Buddy();
      var high := if b.head < b.Buddy().head then b.Buddy() else b;
      ParentIsBlockAndBuddy(low);
      assert Pow2(b.order + 1) == 2 * Pow2(b.order);
      if b.Buddy() in s {
        assert low in s && high in s;
        assert Fits(low.head, end, low.order + 1);
        assert false;
      }
    }
  }

  /** The inner loop of `buddy_init`: the highest order that is aligned at `curr` and fits before `end`. */
  method LargestFit(curr: nat, end: nat) returns (order: nat)
    requires curr < end
    ensures order < MAX_ORDER && Fits(curr, end, order)
    ensures forall k: nat :: order < k < MAX_ORDER ==> !Fits(curr, end, k)
  {
    order := MAX_ORDER - 1;
    while order > 0
      invariant order < MAX_ORDER
      invariant forall k: nat :: order < k < MAX_ORDER ==> !Fits(curr, end, k)
    {
      if curr % Pow2(order) == 0 && curr + Pow2(order) <= end {
        break;
      }
      order := order - 1;
    }
    assert Pow2(0) == 1 && curr % 1 == 0;
  }

  datatype Call = Take(order: nat) | Give(i: nat)

  /** An aligned block of the pool that shares no page with the blocks held. */
  ghost predicate Unheld(lo: nat, hi: nat, held: seq<Block>, b: Block) {
    && b.Aligned() && lo <= b.head && b.End() <= hi
    && forall p: nat, c :: c in held && c.Has(p) ==> !b.Has(p)
  }

  /**
   What a call may do to the blocks held: an allocation adds a block of the order that meets none of them, and fails
   only when every aligned block of that order in the pool meets one; a free takes one away.
   */
  ghost predicate Answered(lo: nat, hi: nat, held: seq<Block>, call: Call, held': seq<Block>) {
    match call
    case Take(order) =>
      || (order >= MAX_ORDER && held' == held)
      || (order < MAX_ORDER && exists b: Block :: b.order == order && Unheld(lo, hi, held, b) && held' == held + [b])
      || (order < MAX_ORDER && held' == held && !exists h: nat :: Unheld(lo, hi, held, Block(h, order)))
    case Give(i) => held' == if i < |held| then held[..i] + held[i + 1..] else held
  }

  lemma TakenUnheld(free: set<Block>, live: set<Block>, held: seq<Block>, lo: nat, hi: nat, b: Block)
    requires Tiles(free + live, lo, hi) && b in live && b !in held && forall c :: c in held ==> c in live
    ensures Unheld(lo, hi, held, b)
  {
    forall p: nat, c | c in held && c.Has(p)
      ensures !b.Has(p)
    {
      assert c in free + live && b in free + live;
    }
  }

  /** The allocator's test for a free run, in terms of the blocks held. */
  lemma RunIffUnheld(free: set<Block>, live: set<Block>, held: seq<Block>, lo: nat, hi: nat, order: nat)
    requires Tiles(free + live, lo, hi) && free !! live && forall b :: b in held <==> b in live
    ensures HasRun(free, order) <==> exists h: nat :: Unheld(lo, hi, held, Block(h, order))
  {
    forall h: nat | Block(h, order).Aligned()
      ensures AllCovered(free, Block(h, order)) <==> Unheld(lo, hi, held, Block(h, order))
    {
      FreeIffUnheld(free, live, held, lo, hi, Block(h, order));
    }
  }

  lemma FreeIffUnheld(free: set<Block>, live: set<Block>, held: seq<Block>, lo: nat, hi: nat, b: Block)
    requires Tiles(free + live, lo, hi) && free !! live && (forall c :: c in held <==> c in live) && b.Aligned()
    ensures AllCovered(free, b) <==> Unheld(lo, hi, held, b)
  {
    forall p: nat
      ensures Covers(free, p) <==> lo <= p < hi && !Covers(live, p)
    {
      FreePages(free, live, lo, hi, p);
    }
    HasHead(b);
    if AllCovered(free, b) {
      assert b.Has(b.head) && b.Has(b.End() - 1);
      forall p: nat, c | c in held && c.Has(p)
        ensures !b.Has(p)
      {
        assert Covers(live, p);
      }
    }
    if Unheld(lo, hi, held, b) {
      forall p: nat | b.Has(p)
        ensures !Covers(live, p)
      {
        assert forall c :: c in live ==> c in held;
      }
    }
  }

  lemma DropHeld(held: seq<Block>, i: nat)
    requires NoDup(held) && i < |held|
    ensures var rest := held[..i] + held[i + 1..];
            NoDup(rest) && forall b :: b in rest <==> b in held && b != held[i]
  {
    var rest := held[..i] + held[i + 1..];
    assert forall j :: 0 <= j < |rest| ==> rest[j] == held[if j < i then j else j + 1];
    forall b | b in held && b != held[i]
      ensures b in rest
    {
      var j :| 0 <= j < |held| && held[j] == b;
      assert rest[if j < i then j else j - 1] == b;
    }
  }

  lemma Shuffled(pg: nat, pgCnt: nat, order: seq<nat>, ps: seq<nat>)
    requires NoDup(order) && forall i: nat :: i in order <==> i < pgCnt
    requires |ps| == |order| && forall i :: 0 <= i < |ps| ==> ps[i] == pg + order[i]
    ensures NoDup(ps) && PageBlocks(ps) == Singles(pg, pg + pgCnt)
  {
    forall i | 0 <= i < |ps|
      ensures pg <= ps[i] < pg + pgCnt
    {
      assert order[i] in order;
    }
    forall p: nat | pg <= p < pg + pgCnt
      ensures p in ps
    {
      assert p - pg in order;
      var i :| 0 <= i < |order| && order[i] == p - pg;
      assert ps[i] == p;
    }
  }

  /** The pool is shared out: the blocks held are aligned, in it and without common pages; the rest is free. */
  ghost predicate Shares(free: set<Block>, held: seq<Block>, lo: nat, hi: nat) {
    && (forall i :: 0 <= i < |held| ==> held[i].Aligned() && lo <= held[i].head && held[i].End() <= hi)
    && (forall i, j, p: nat :: 0 <= i < j < |held| && held[i].Has(p) ==> !held[j].Has(p))
    && (forall p: nat :: Covers(free, p) <==> lo <= p < hi && forall b :: b in held ==> !b.Has(p))
  }

  /** The blocks held after each of the first `n` calls, from none at the start. */
  ghost predicate Answers(lo: nat, hi: nat, trace: seq<seq<Block>>, calls: seq<Call>, n: nat) {
    && n <= |calls| && |trace| == n + 1 && trace[0] == []
    && forall m :: 0 <= m < n ==> Answered(lo, hi, trace[m], calls[m], trace[m + 1])
  }

  lemma AnswersNext(lo: nat, hi: nat, trace: seq<seq<Block>>, calls: seq<Call>, n: nat, held: seq<Block>)
    requires Answers(lo, hi, trace, calls, n) && n < |calls| && Answered(lo, hi, trace[n], calls[n], held)
    ensures Answers(lo, hi, trace + [held], calls, n + 1)
  {
  }

  lemma AllBack(free: set<Block>, live: set<Block>, free0: set<Block>, lo: nat, hi: nat)
    requires Tiles(free + live, lo, hi) && free !! live && Coalesced(free) && live == {}
    requires Tiles(free0 + {}, lo, hi) && Coalesced(free0)
    ensures free == free0
  {
    HistoryIndependent(free, live, free0, {}, lo, hi);
  }

  lemma HeldApart(free: set<Block>, live: set<Block>, held: seq<Block>, lo: nat, hi: nat)
    requires Tiles(free + live, lo, hi) && free !! live && NoDup(held) && forall b :: b in held <==> b in live
    ensures live == set b | b in held
    ensures Shares(free, held, lo, hi)
  {
    forall i | 0 <= i < |held|
      ensures held[i] in live && held[i] in free + live
    {
      assert held[i] in held;
    }
    forall i, j, p: nat | 0 <= i < j < |held| && held[i].Has(p)
      ensures !held[j].Has(p)
    {
      LiveApart(free, live, lo, hi, held[i], held[j], p);
    }
    forall p: nat
      ensures Covers(free, p) <==> lo <= p < hi && forall b :: b in held ==> !b.Has(p)
    {
      FreePages(free, live, lo, hi, p);
    }
  }

  class BuddyPool {
    var areas: seq<seq<nat>>
    var nrFree: seq<nat>
    const phyAddrStart: nat
    const poolSize: nat
    const pageBase: array<Page>

    /** The blocks on the free lists, and the blocks handed out and not yet returned. */
    ghost var free: set<Block>
    ghost var live: set<Block>

    function Lo(): nat {
      phyAddrStart / PG_SIZE
    }

    function Hi(): nat {
      (phyAddrStart + poolSize) / PG_SIZE
    }

    ghost predicate Layout() {
      && phyAddrStart % PG_SIZE == 0 && poolSize % PG_SIZE == 0
      && Hi() <= pageBase.Length
    }

    ghost predicate Valid()
      reads this, pageBase
    {
      && Layout()
      && ListsAgree(areas, nrFree, free)
      && free !! live
      && Tiles(free + live, Lo(), Hi())
      && Coalesced(free)
      && HeadsAgree(pageBase[..], free, live)
    }

    /** Valid, except that the head page of block `b` need not be marked. */
    ghost predicate ValidUpToMark(b: Block)
      reads this, pageBase
    {
      && Layout()
      && ListsAgree(areas, nrFree, free)
      && free !! live
      && Tiles(free + live, Lo(), Hi())
      && Coalesced(free)
      && HeadsAgree(pageBase[..], free, live - {b})
    }

    /** The state inside an operation: block `c` is held by the caller, in no list and not yet handed out. */
    ghost predicate Carrying(c: Block)
      reads this, pageBase
    {
      && Layout()
      && ListsAgree(areas, nrFree, free)
      && free !! live
      && c !in free + live
      && Tiles(free + live + {c}, Lo(), Hi())
      && Coalesced(free)
      && HeadsAgree(pageBase[..], free, live)
    }

    /** Pages that belong to the other pool of the same page array are left alone. */
    twostate predicate OnlyOwnPages()
      reads this, pageBase
    {
      forall p :: 0 <= p < pageBase.Length && !(Lo() <= p < Hi()) ==> pageBase[p] == old(pageBase[p])
    }

    /** Cut the page range into the largest aligned blocks that fit, from its start upwards. */
    constructor (startAddr: nat, size: nat, pages: array<Page>)
      requires startAddr % PG_SIZE == 0 && size % PG_SIZE == 0
      requires (startAddr + size) / PG_SIZE <= pages.Length
      modifies pages
      ensures phyAddrStart == startAddr && poolSize == size && pageBase == pages
      ensures Valid() && live == {}
      ensures forall p :: 0 <= p < pages.Length && !(Lo() <= p < Hi()) ==> pages[p] == old(pages[p])
    {
      phyAddrStart, poolSize, pageBase := startAddr, size, pages;
      areas := seq(MAX_ORDER, _ => []);
      nrFree := seq(MAX_ORDER, _ => 0);
      free, live := {}, {};
      new;
      var curr := startAddr / PG_SIZE;
      var end := (startAddr + size) / PG_SIZE;
      while curr < end
        invariant Lo() <= curr <= end && Layout()
        invariant ListsAgree(areas, nrFree, free) && live == {}
        invariant GreedyCut(free, Lo(), curr, end)
        invariant HeadsAgree(pages[..], free, {})
        invariant forall p :: 0 <= p < pages.Length && !(Lo() <= p < Hi()) ==> pages[p] == old(pages[p])
      {
        curr := CutOff(curr, end);
      }
      GreedyIsCoalesced(free, Lo(), end);
      assert free + live == free;
    }

    /** Put the largest block that is aligned at `curr` and fits at the end of its list. */
    method CutOff(curr: nat, end: nat) returns (next: nat)
      requires Lo() <= curr < end == Hi() && Layout() && ListsAgree(areas, nrFree, free) && live == {}
      requires GreedyCut(free, Lo(), curr, end) && HeadsAgree(pageBase[..], free, {})
      modifies this, pageBase
      ensures Lo() <= next <= end && ListsAgree(areas, nrFree, free) && live == {}
      ensures GreedyCut(free, Lo(), next, end) && HeadsAgree(pageBase[..], free, {}) && OnlyOwnPages() && next > curr
    {
      var order := LargestFit(curr, end);
      ghost var b := Block(curr, order);
      GreedyExtend(free, Lo(), curr, end, order);
      PushAgrees(areas, nrFree, free, curr, order, areas[order] + [curr]);
      pageBase[curr] := Page(false, order);
      areas := areas[order := areas[order] + [curr]];
      nrFree := nrFree[order := nrFree[order] + 1];
      free := free + {b};
      next := curr + Pow2(order);
    }

    /** Fetch the first list at or above `order` that is not empty. */
    method FindArea(order: nat) returns (k: nat)
      requires |areas| == MAX_ORDER && order < MAX_ORDER
      ensures order <= k <= MAX_ORDER
      ensures forall j :: order <= j < k ==> areas[j] == []
      ensures k < MAX_ORDER ==> areas[k] != []
    {
      k := order;
      while k < MAX_ORDER && areas[k] == []
        invariant order <= k <= MAX_ORDER
        invariant forall j :: order <= j < k ==> areas[j] == []
      {
        k := k + 1;
      }
    }

    /** Take the first block off list `k`. */
    method PopFront(k: nat) returns (head: nat)
      requires Valid() && k < MAX_ORDER && areas[k] != []
      modifies this
      ensures Block(head, k) in old(free) && free == old(free) - {Block(head, k)} && live == old(live)
      ensures Carrying(Block(head, k))
    {
      head := areas[k][0];
      ghost var c := Block(head, k);
      assert c.head in areas[c.order];
      RemoveAgrees(areas, nrFree, free, head, k, areas[k][1..]);
      CanonicalWithout(free, c);
      areas := areas[k := areas[k][1..]];
      nrFree := nrFree[k := nrFree[k] - 1];
      free := free - {c};
      assert free + live + {c} == old(free) + live;
    }

    /** Halve the block in hand: its upper half goes to the tail of the next lower list. */
    method SplitOnce(head: nat, k: nat)
      requires k > 0 && Carrying(Block(head, k))
      modifies this, pageBase
      ensures Carrying(Block(head, k - 1)) && live == old(live) && OnlyOwnPages()
      ensures SamePages(old(free) + {Block(head, k)}, free + {Block(head, k - 1)})
    {
      ghost var c, pages := Block(head, k), pageBase[..];
      SplitCarry(pages, free, live, c, Lo(), Hi());
      var buddy := head + Pow2(k - 1);
      ghost var a, b := c.Half(false), c.Half(true);
      if buddy * PG_SIZE < phyAddrStart + poolSize {
        PushAgrees(areas, nrFree, free, buddy, k - 1, areas[k - 1] + [buddy]);
        pageBase[buddy] := Page(false, k - 1);
        areas := areas[k - 1 := areas[k - 1] + [buddy]];
        nrFree := nrFree[k - 1 := nrFree[k - 1] + 1];
        free := free + {b};
        assert pageBase[..] == pages[b.head := Page(false, b.order)];
      }
      SamePagesSplit(old(free), c);
    }

    /** Halve the block in hand until it has the wanted order. */
    method SplitDown(head: nat, top: nat, order: nat)
      requires order <= top < MAX_ORDER && Carrying(Block(head, top))
      modifies this, pageBase
      ensures Carrying(Block(head, order)) && live == old(live) && OnlyOwnPages()
      ensures SamePages(old(free) + {Block(head, top)}, free + {Block(head, order)})
    {
      var k := top;
      while k > order
        invariant order <= k < MAX_ORDER
        invariant Carrying(Block(head, k)) && live == old(live) && OnlyOwnPages()
        invariant SamePages(old(free) + {Block(head, top)}, free + {Block(head, k)})
      {
        ghost var s := free + {Block(head, k)};
        SplitOnce(head, k);
        SamePagesTrans(old(free) + {Block(head, top)}, s, free + {Block(head, k - 1)});
        k := k - 1;
      }
    }

    /** Mark the block in hand as allocated. */
    method HandOut(head: nat, order: nat)
      requires Carrying(Block(head, order))
      modifies this`live, pageBase
      ensures Valid() && OnlyOwnPages()
      ensures live == old(live) + {Block(head, order)}
    {
      ghost var c := Block(head, order);
      HeadsApart(free + live, c, Lo(), Hi());
      pageBase[head] := Page(true, order);
      live := live + {c};
      assert free + live == free + old(live) + {c};
    }

    method PallocPages(order: nat) returns (pg: Option<nat>)
      requires Valid() && order < MAX_ORDER
      modifies this, pageBase
      ensures Valid() && OnlyOwnPages()
      ensures pg.None? <==> !HasRun(old(free), order)
      ensures pg.None? ==> free == old(free) && live == old(live)
      ensures pg.Some? ==>
                var b := Block(pg.value, order);
                && b.Aligned() && Lo() <= b.head && b.End() <= Hi()
                && AllCovered(old(free), b)
                && b !in old(live) && live == old(live) + {b}
                && (forall p: nat :: Covers(free, p) <==> Covers(old(free), p) && !b.Has(p))
    {
      var k := FindArea(order);
      BigBlockIffFreeRun(free, order);
      if k == MAX_ORDER {
        assert !exists b :: b in free && b.order >= order;
        return None;
      }
      var head := TakeFrom(k, order);
      pg := Some(head);
    }

    /** The first block of list `k`, halved down to the wanted order, is handed out. */
    method TakeFrom(k: nat, order: nat) returns (head: nat)
      requires Valid() && order <= k < MAX_ORDER && areas[k] != []
      modifies this, pageBase
      ensures Valid() && OnlyOwnPages()
      ensures var b := Block(head, order);
              && b.Aligned() && Lo() <= b.head && b.End() <= Hi() && AllCovered(old(free), b)
              && b !in old(live) && live == old(live) + {b}
              && (forall p: nat :: Covers(free, p) <==> Covers(old(free), p) && !b.Has(p))
    {
      head := PopFront(k);
      assert free + {Block(head, k)} == old(free);
      SplitDown(head, k, order);
      TakenPages(old(free), free, Block(head, order));
      HandOut(head, order);
    }

    /** Take a block out of the middle of its list. */
    method Unlink(h: nat, k: nat)
      requires ListsAgree(areas, nrFree, free) && k < MAX_ORDER && Block(h, k) in free
      modifies `areas, `nrFree, `free
      ensures ListsAgree(areas, nrFree, free) && free == old(free) - {Block(h, k)}
    {
      WithoutRemovesOne<nat>(areas[k], h);
      RemoveAgrees(areas, nrFree, free, h, k, Without<nat>(areas[k], h));
      areas := areas[k := Without<nat>(areas[k], h)];
      nrFree := nrFree[k := nrFree[k] - 1];
      free := free - {Block(h, k)};
    }

    /** Join the block in hand with its free buddy. */
    method MergeOnce(curr: nat, k: nat) returns (merged: nat)
      requires k < MAX_ORDER - 1 && Carrying(Block(curr, k)) && Block(curr, k).Buddy() in free
      modifies this, pageBase
      ensures Carrying(Block(merged, k + 1)) && live == old(live) && OnlyOwnPages()
      ensures SamePages(old(free) + {Block(curr, k)}, free + {Block(merged, k + 1)})
    {
      ghost var c := Block(curr, k);
      var buddy := BuddyIndex(curr, k);
      ghost var d := Block(buddy, k);
      assert d == c.Buddy();
      MergeCarry(pageBase[..], free, live, c, Lo(), Hi());
      Unlink(buddy, k);
      merged := if curr > buddy then buddy else curr;
      assert Block(merged, k + 1) == c.Parent();
      HeadsApart(free + live, c.Parent(), Lo(), Hi());
      pageBase[merged] := pageBase[merged].(order := k + 1);
      SamePagesMerge(old(free), c);
    }

    /** The tests at the top of the merge loop: buddy inside the pool, not allocated, of the same order. */
    method BuddyIsFree(curr: nat, k: nat) returns (yes: bool)
      requires Carrying(Block(curr, k)) && k < MAX_ORDER - 1
      ensures yes <==> Block(curr, k).Buddy() in free
    {
      var buddy := BuddyIndex(curr, k);
      if buddy * PG_SIZE < phyAddrStart || buddy * PG_SIZE >= phyAddrStart + poolSize {
        HasHead(Block(curr, k).Buddy());
        return false;
      }
      FlagTestFindsFreeBuddy(pageBase[..], free, live, Block(curr, k), Lo(), Hi());
      return !pageBase[buddy].taken && pageBase[buddy].order == k;
    }

    /** Merge the block in hand upwards as far as its buddies are free. */
    method MergeUp(pg: nat, order: nat) returns (curr: nat, k: nat)
      requires order < MAX_ORDER && Carrying(Block(pg, order))
      modifies this, pageBase
      ensures Carrying(Block(curr, k)) && live == old(live) && OnlyOwnPages()
      ensures k < MAX_ORDER - 1 ==> Block(curr, k).Buddy() !in free
      ensures SamePages(old(free) + {Block(pg, order)}, free + {Block(curr, k)})
    {
      k, curr := order, pg;
      while k < MAX_ORDER - 1
        invariant k < MAX_ORDER && Carrying(Block(curr, k))
        invariant live == old(live) && OnlyOwnPages()
        invariant SamePages(old(free) + {Block(pg, order)}, free + {Block(curr, k)})
      {
        var yes := BuddyIsFree(curr, k);
        if !yes {
          break;
        }
        ghost var s := free + {Block(curr, k)};
        curr := MergeOnce(curr, k);
        k := k + 1;
        SamePagesTrans(old(free) + {Block(pg, order)}, s, free + {Block(curr, k)});
      }
    }

    /** Return a block. The mark on the block's own head page may be gone already: nothing reads it. */
    method PfreePages(pg: nat, order: nat)
      requires Block(pg, order) in live && ValidUpToMark(Block(pg, order))
      modifies this, pageBase
      ensures Valid() && OnlyOwnPages()
      ensures live == old(live) - {Block(pg, order)}
      ensures forall p: nat :: Covers(free, p) <==> Covers(old(free), p) || Block(pg, order).Has(p)
    {
      ghost var b := Block(pg, order);
      live := live - {b};
      assert free + live + {b} == old(free + live);
      var curr, k := MergeUp(pg, order);
      PutBack(curr, k);
      AddedPages(old(free), free, b);
    }

    /** Clear the allocated mark of the block in hand and put it at the front of its list. */
    method PutBack(curr: nat, k: nat)
      requires Carrying(Block(curr, k))
      requires k < MAX_ORDER - 1 ==> Block(curr, k).Buddy() !in free
      modifies this, pageBase
      ensures Valid() && OnlyOwnPages()
      ensures live == old(live) && free == old(free) + {Block(curr, k)}
    {
      ghost var c := Block(curr, k);
      HeadsApart(free + live, c, Lo(), Hi());
      CanonicalWith(free, c);
      PushAgrees(areas, nrFree, free, curr, k, [curr] + areas[k]);
      pageBase[curr] := Page(false, k);
      areas := areas[k := [curr] + areas[k]];
      nrFree := nrFree[k := nrFree[k] + 1];
      free := free + {c};
      assert free + live == old(free) + live + {c};
    }

    /** Set the allocated mark on every page of a live block. */
    method MarkPages(first: nat, order: nat)
      requires Valid() && Block(first, order) in live
      modifies pageBase
      ensures Valid() && OnlyOwnPages()
      ensures forall p :: first <= p < first + Pow2(order) ==> pageBase[p].taken
    {
      ghost var b := Block(first, order);
      for i := 0 to Pow2(order)
        invariant HeadsAgree(pageBase[..], free, live) && OnlyOwnPages()
        invariant forall p :: first <= p < first + i ==> pageBase[p].taken
      {
        HeadsAvoid(free + live - {b}, b, first + i);
        pageBase[first + i] := pageBase[first + i].(taken := true);
      }
    }

    /** Regard a live block, all of whose pages are marked, as `2^order` live pages. */
    ghost method Shatter(first: nat, order: nat)
      requires Valid() && Block(first, order) in live
      requires forall p :: first <= p < first + Pow2(order) ==> pageBase[p].taken
      modifies this`live
      ensures Valid()
      ensures live == old(live) - {Block(first, order)} + Singles(first, first + Pow2(order))
      ensures Singles(first, first + Pow2(order)) !! old(live) - {Block(first, order)}
    {
      var b := Block(first, order);
      var rest, t := live - {b}, Singles(first, first + Pow2(order));
      assert free + rest + {b} == free + live;
      ShatterTiles(free + rest, b, Lo(), Hi());
      live := rest + t;
      assert free + live == free + rest + t;
    }

    /** Unmark one page of a shattered block and free it. */
    method ReturnPage(target: nat)
      requires Valid() && Block(target, 0) in live
      modifies this, pageBase
      ensures Valid() && OnlyOwnPages()
      ensures live == old(live) - {Block(target, 0)}
      ensures forall p: nat :: Covers(free, p) <==> Covers(old(free), p) || p == target
    {
      ghost var t := Block(target, 0);
      assert free + live - {t} + {t} == free + live;
      HeadsApart(free + live - {t}, t, Lo(), Hi());
      assert forall x :: x in free ==> x in free + live - {t};
      pageBase[target] := Page(false, 0);
      PfreePages(target, 0);
      assert forall p: nat :: t.Has(p) <==> p == target by { assert Pow2(0) == 1; }
    }

    /** A live block becomes single live pages, all of them marked. */
    method BreakUp(first: nat, order: nat)
      requires Valid() && Block(first, order) in live
      modifies this`live, pageBase
      ensures Valid() && OnlyOwnPages()
      ensures live == old(live) - {Block(first, order)} + Singles(first, first + Pow2(order))
      ensures Singles(first, first + Pow2(order)) !! old(live) - {Block(first, order)}
    {
      MarkPages(first, order);
      Shatter(first, order);
    }

    /** Allocate a block and mark all its pages, each of which can be returned alone from then on. */
    method PallocSingles(order: nat) returns (pg: Option<nat>)
      requires Valid() && order < MAX_ORDER
      modifies this, pageBase
      ensures Valid() && OnlyOwnPages()
      ensures pg.None? ==> free == old(free) && live == old(live)
      ensures pg.None? <==> !HasRun(old(free), order)
      ensures pg.Some? ==>
                var end := pg.value + Pow2(order);
                && Singles(pg.value, end) !! old(live)
                && live == old(live) + Singles(pg.value, end)
                && RangeCovered(old(free), pg.value, end) && LessPages(old(free), free, pg.value, end)
    {
      pg := PallocPages(order);
      if pg.Some? {
        BlockPages(old(free), free, Block(pg.value, order));
        ghost var live1 := live;
        BreakUp(pg.value, order);
        BrokenUp(old(live), live1, live, Block(pg.value, order), Singles(pg.value, pg.value + Pow2(order)));
      }
    }

    method ReturnTail(from: nat, to: nat)
      requires Valid() && from <= to && Singles(from, to) <= live
      modifies this, pageBase
      ensures Valid() && OnlyOwnPages()
      ensures live == old(live) - Singles(from, to) && MorePages(old(free), free, from, to)
    {
      for i := from to to
        invariant Valid() && OnlyOwnPages()
        invariant live == old(live) - Singles(from, i) && MorePages(old(free), free, from, i)
      {
        assert Block(i, 0) in Singles(from, to) && Block(i, 0) !in Singles(from, i);
        ReturnPage(i);
        assert Singles(from, i + 1) == Singles(from, i) + {Block(i, 0)};
      }
    }

    /** Allocate a block, keep its first pages and return the others one by one. */
    method PallocFirst(order: nat, keep: nat) returns (pg: Option<nat>)
      requires Valid() && order < MAX_ORDER && keep <= Pow2(order)
      modifies this, pageBase
      ensures Valid() && OnlyOwnPages()
      ensures pg.None? ==> free == old(free) && live == old(live)
      ensures pg.None? <==> !HasRun(old(free), order)
      ensures pg.Some? ==> Gained(old(live), live, old(free), free, pg.value, pg.value + keep)
    {
      pg := PallocSingles(order);
      if pg.Some? {
        ghost var free1, live1, first, n := free, live, pg.value, Pow2(order);
        TailHeld(old(live), live, first, keep, n);
        ReturnTail(pg.value + keep, pg.value + Pow2(order));
        KeepFirst(old(live), live1, live, first, keep, n);
        KeepPages(old(free), free1, free, first, keep, n);
      }
    }

    method PallocPagesExact(pgCnt: nat) returns (pg: Option<nat>)
      requires Valid() && pgCnt <= Pow2(MAX_ORDER - 1)
      modifies this, pageBase
      ensures Valid() && OnlyOwnPages()
      ensures pg.None? ==> free == old(free) && live == old(live)
      ensures pg.None? <==> !HasRun(old(free), OrderFor(pgCnt))
      ensures pg.Some? ==> Gained(old(live), live, old(free), free, pg.value, pg.value + pgCnt)
    {
      var order := PgCntToOrder(pgCnt);
      pg := PallocFirst(order, pgCnt);
    }

    /** Return single pages one by one, in the order given. */
    method PfreeEach(ps: seq<nat>)
      requires Valid() && NoDup(ps) && forall p :: p in ps ==> Block(p, 0) in live
      modifies this, pageBase
      ensures Valid() && OnlyOwnPages()
      ensures live == old(live) - PageBlocks(ps) && MorePagesOf(old(free), free, ps)
    {
      for i := 0 to |ps|
        invariant Valid() && OnlyOwnPages()
        invariant live == old(live) - PageBlocks(ps[..i]) && MorePagesOf(old(free), free, ps[..i])
      {
        assert ps[i] !in ps[..i] && ps[i] in ps;
        ghost var live1, free1 := live, free;
        PfreePages(ps[i], 0);
        OnePageMore(old(live), live1, old(free), free1, free, ps, i);
      }
      assert ps[..|ps|] == ps;
    }

    /** An exact allocation returned page by page, in any order, restores the very same free blocks. */
    method ExactRoundTrip(pgCnt: nat, order: seq<nat>)
      requires Valid() && pgCnt <= Pow2(MAX_ORDER - 1)
      requires NoDup(order) && forall i: nat :: i in order <==> i < pgCnt
      modifies this, pageBase
      ensures Valid() && free == old(free) && live == old(live)
    {
      var pg := PallocPagesExact(pgCnt);
      if pg.Some? {
        var ps := seq(|order|, i requires 0 <= i < |order| => pg.value + order[i]);
        Shuffled(pg.value, pgCnt, order, ps);
        PfreeEach(ps);
        CanonicalFormIsUnique(free, old(free));
      }
    }

    /**
     Any sequence of allocations and frees on a pool with nothing handed out. The blocks held are inside the pool and
     share no page, the free pages are the others, and when everything is back the free blocks are those of the start.
     */
    method Serve(calls: seq<Call>) returns (held: seq<Block>, ghost trace: seq<seq<Block>>)
      requires Valid() && live == {}
      modifies this, pageBase
      ensures Valid() && OnlyOwnPages() && live == (set b | b in held) && Shares(free, held, Lo(), Hi())
      ensures held == [] ==> free == old(free)
      ensures Answers(Lo(), Hi(), trace, calls, |calls|) && trace[|calls|] == held
    {
      held, trace := ServeAll(calls);
      HeldApart(free, live, held, Lo(), Hi());
      if held == [] {
        AllBack(free, live, old(free), Lo(), Hi());
      }
    }

    method ServeAll(calls: seq<Call>) returns (held: seq<Block>, ghost trace: seq<seq<Block>>)
      requires Valid() && live == {}
      modifies this, pageBase
      ensures Valid() && OnlyOwnPages() && Holding(held)
      ensures Answers(Lo(), Hi(), trace, calls, |calls|) && trace[|calls|] == held
    {
      held, trace := [], [[]];
      for n := 0 to |calls|
        invariant Valid() && OnlyOwnPages() && Holding(held)
        invariant Answers(Lo(), Hi(), trace, calls, n) && trace[n] == held
      {
        var more := ServeOne(held, calls[n]);
        AnswersNext(Lo(), Hi(), trace, calls, n, more);
        held, trace := more, trace + [more];
      }
    }

    ghost predicate Holding(held: seq<Block>)
      reads this
    {
      NoDup(held) && forall b :: b in held <==> b in live
    }

    method ServeOne(held: seq<Block>, call: Call) returns (held': seq<Block>)
      requires Valid() && Holding(held)
      modifies this, pageBase
      ensures Valid() && OnlyOwnPages() && Holding(held') && Answered(Lo(), Hi(), held, call, held')
    {
      held' := held;
      match call {
        case Take(order) =>
          if order < MAX_ORDER {
            RunIffUnheld(free, live, held, Lo(), Hi(), order);
            var pg := PallocPages(order);
            if pg.Some? {
              var b := Block(pg.value, order);
              TakenUnheld(free, live, held, Lo(), Hi(), b);
              held' := held + [b];
            }
          }
        case Give(i) =>
          if i < |held| {
            assert held[i] in held;
            PfreePages(held[i].head, held[i].order);
            DropHeld(held, i);
            held' := held[..i] + held[i + 1..];
          }
      }
    }
  }
}
