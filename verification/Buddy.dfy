/**
 Geometry of buddy blocks: a block of order `k` is the run of `2^k` page frames that starts at a
 multiple of `2^k`. Nothing here mentions the allocator's lists; the facts are about sets of blocks.
 */
module BuddyBlocks {
  import opened Arith

  const MAX_ORDER := 11

  datatype Block = Block(head: nat, order: nat) {
    function End(): nat {
      head + Pow2(order)
    }

    predicate Has(p: nat) {
      head <= p < End()
    }

    predicate Aligned() {
      head % Pow2(order) == 0
    }

    /** The index that differs from `head` in bit `order` only. */
    function Buddy(): Block {
      Block(BuddyIndex(head, order), order)
    }

    function Parent(): Block {
      RoundDownMod(head, Pow2(order + 1));
      Block(head - head % Pow2(order + 1), order + 1)
    }

    function Half(upper: bool): Block
      requires order > 0
    {
      Block(if upper then head + Pow2(order - 1) else head, order - 1)
    }
  }

  /** `i ^ (1 << k)`: a page whose bit `k` is clear pairs with the one above it, else with the one below. */
  function BuddyIndex(i: nat, k: nat): (r: nat)
  {
    if (i / Pow2(k)) % 2 == 0 then i + Pow2(k)
    else
      assert i >= Pow2(k) by { BitSetBounds(i, Pow2(k)); }
      i - Pow2(k)
  }

  lemma BitSetBounds(i: nat, n: nat)
    requires n > 0 && (i / n) % 2 == 1
    ensures i >= n
  {
    if i < n { DivModUnique(i, n, 0, i); }
  }

  function Bit(i: nat, j: nat): nat {
    (i / Pow2(j)) % 2
  }

  /** An aligned block is the only aligned block of its order around each of its pages. */
  lemma HeadFromPage(b: Block, p: nat)
    requires b.Aligned() && b.Has(p)
    ensures b.head == p - p % Pow2(b.order)
  {
    var n := Pow2(b.order);
    assert p == (b.head / n) * n + (p - b.head);
    DivModUnique(p, n, b.head / n, p - b.head);
  }

  /** Rounding down gives an aligned block that holds the page. */
  lemma RoundDown(p: nat, k: nat)
    ensures 0 <= p - p % Pow2(k)
    ensures Block(p - p % Pow2(k), k).Aligned() && Block(p - p % Pow2(k), k).Has(p)
  {
    RoundDownMod(p, Pow2(k));
  }

  /** A block lies inside its parent, whose two halves are the block and its buddy. */
  lemma ParentIsBlockAndBuddy(b: Block)
    requires b.Aligned()
    ensures b.Parent().Aligned() && b.Buddy().Aligned()
    ensures b.Parent().head == if b.head < b.Buddy().head then b.head else b.Buddy().head
    ensures b.Buddy().Buddy() == b && b.Buddy() != b
    ensures forall p: nat {:trigger b.Parent().Has(p)} :: b.Parent().Has(p) <==> b.Has(p) || b.Buddy().Has(p)
    ensures forall p: nat {:trigger b.Has(p), b.Buddy().Has(p)} :: !(b.Has(p) && b.Buddy().Has(p))
  {
    var n := Pow2(b.order);
    assert Pow2(b.order + 1) == 2 * n;
    RoundDown(b.head, b.order + 1);
    PairMod(b.head, n);
  }

  /** The halves of an aligned block are aligned, are each other's buddies, and cover it. */
  lemma HalvesAreBuddies(b: Block)
    requires b.Aligned() && b.order > 0
    ensures b.Half(false).Aligned() && b.Half(true).Aligned()
    ensures b.Half(false).Buddy() == b.Half(true) && b.Half(true).Buddy() == b.Half(false)
    ensures b.Half(false).Parent() == b && b.Half(true).Parent() == b
  {
    var n := Pow2(b.order - 1);
    assert Pow2(b.order) == 2 * n;
    HalvesMod(b.head, n);
  }

  /** Two aligned blocks that share a page are nested, the one of lower order inside. */
  lemma {:induction false} Nested(a: Block, b: Block, p: nat)
    requires a.Aligned() && b.Aligned() && a.order <= b.order
    requires a.Has(p) && b.Has(p)
    ensures b.head <= a.head && a.End() <= b.End()
    ensures a.order == b.order ==> a == b
    decreases b.order - a.order
  {
    HeadFromPage(a, p);
    HeadFromPage(b, p);
    if a.order < b.order {
      ParentIsBlockAndBuddy(a);
      assert a.Parent().Has(p);
      Nested(a.Parent(), b, p);
    }
  }

  /** The buddy index flips bit `k` and keeps every other bit: it is the exclusive-or of the source. */
  lemma BuddyIndexFlipsOneBit(i: nat, k: nat, j: nat)
    ensures Bit(BuddyIndex(i, k), j) == if j == k then 1 - Bit(i, k) else Bit(i, j)
  {
    var n := Pow2(k);
    var r := i % n;
    var q := i / n;
    assert i == q * n + r;
    if q % 2 == 0 {
      DivModUnique(i + n, n, q + 1, r);
    } else {
      BitSetBounds(i, n);
      DivModUnique(i - n, n, q - 1, r);
    }
    var i' := BuddyIndex(i, k);
    var q' := i' / n;
    assert i' % n == r && q' / 2 == q / 2;
    if j < k {
      LowBits(i, i', k, j);
    } else if j > k {
      HighBits(i, k, j);
      HighBits(i', k, j);
    }
  }

  /** Bits below `k` depend on the remainder by `2^k` only. */
  lemma {:induction false} LowBits(i: nat, i': nat, k: nat, j: nat)
    requires j < k && i % Pow2(k) == i' % Pow2(k)
    ensures Bit(i, j) == Bit(i', j)
  {
    TopLowBit(i, k);
    TopLowBit(i', k);
    if j < k - 1 {
      LowBits(i, i', k - 1, j);
    }
  }

  lemma TopLowBit(i: nat, k: nat)
    requires k > 0
    ensures (i % Pow2(k)) % Pow2(k - 1) == i % Pow2(k - 1)
    ensures Bit(i % Pow2(k), k - 1) == Bit(i, k - 1)
  {
    ModThenMod(i, Pow2(k - 1), Pow2(k));
  }

  /** Bits above `k` depend on the quotient by `2^(k+1)` only. */
  lemma {:induction false} HighBits(i: nat, k: nat, j: nat)
    requires j > k
    ensures Bit(i, j) == Bit((i / Pow2(k)) / 2, j - k - 1)
  {
    HalvePower(i, k + 1);
    ShiftRight(i, k + 1, j - k - 1);
  }

  // ---- Sets of blocks ----

  ghost predicate Covers(s: set<Block>, p: nat) {
    exists b :: b in s && b.Has(p)
  }

  /** Every block is aligned and of a managed order, and no two share a page. */
  ghost predicate Disjoint(s: set<Block>) {
    && (forall b :: b in s ==> b.Aligned() && b.order < MAX_ORDER)
    && (forall a, b, p: nat :: a in s && b in s && a.Has(p) && b.Has(p) ==> a == b)
  }

  /** Fully merged: below the top order no block sits beside its buddy. */
  ghost predicate Coalesced(s: set<Block>) {
    forall b :: b in s && b.order < MAX_ORDER - 1 ==> b.Buddy() !in s
  }

  ghost predicate Canonical(s: set<Block>) {
    Disjoint(s) && Coalesced(s)
  }

  ghost predicate AllCovered(s: set<Block>, c: Block) {
    forall p: nat :: c.Has(p) ==> Covers(s, p)
  }

  ghost predicate SamePages(s: set<Block>, t: set<Block>) {
    forall p: nat :: Covers(s, p) <==> Covers(t, p)
  }

  /** In a canonical set, an aligned run that is entirely free lies inside one single free block. */
  lemma {:induction false} FullRunIsInOneBlock(s: set<Block>, c: Block) returns (d: Block)
    requires Canonical(s)
    requires c.Aligned() && c.order < MAX_ORDER && AllCovered(s, c)
    ensures d in s && d.order >= c.order && d.head <= c.head && c.End() <= d.End()
    decreases c.order
  {
    assert c.Has(c.head) by { assert Pow2(c.order) > 0; }
    if c.order == 0 {
      d :| d in s && d.Has(c.head);
      Nested(c, d, c.head);
    } else {
      var lo, hi := c.Half(false), c.Half(true);
      HalvesAreBuddies(c);
      ParentIsBlockAndBuddy(lo);
      assert forall p: nat :: lo.Has(p) ==> c.Has(p);
      assert forall p: nat :: hi.Has(p) ==> c.Has(p);
      var d1 := FullRunIsInOneBlock(s, lo);
      var d2 := FullRunIsInOneBlock(s, hi);
      assert lo.Has(lo.head) && hi.Has(hi.head);
      if d1.order >= c.order {
        d := d1;
        Nested(c, d, lo.head);
      } else if d2.order >= c.order {
        d := d2;
        Nested(c, d, hi.head);
      } else {
        Nested(lo, d1, lo.head);
        Nested(hi, d2, hi.head);
        assert false;
      }
    }
  }

  /** The free-block set is a function of the free-page set: two canonical sets over the same pages are equal. */
  lemma CanonicalFormIsUnique(s: set<Block>, t: set<Block>)
    requires Canonical(s) && Canonical(t) && SamePages(s, t)
    ensures s == t
  {
    CanonicalSubset(s, t);
    CanonicalSubset(t, s);
  }

  lemma CanonicalSubset(s: set<Block>, t: set<Block>)
    requires Canonical(s) && Canonical(t) && SamePages(s, t)
    ensures s <= t
  {
    forall b | b in s
      ensures b in t
    {
      assert AllCovered(s, b);
      var d := FullRunIsInOneBlock(t, b);
      assert AllCovered(t, d);
      var e := FullRunIsInOneBlock(s, d);
      assert b.Has(b.head) && e.Has(b.head) by { assert Pow2(b.order) > 0; }
      assert e == b;
      Nested(b, d, b.head);
      assert d.order <= e.order;
    }
  }

  /** A free block of order at least `k` exists exactly when some aligned run of `2^k` pages is entirely free. */
  lemma BigBlockIffFreeRun(s: set<Block>, k: nat)
    requires Canonical(s) && k < MAX_ORDER
    ensures (exists b :: b in s && b.order >= k)
       <==> (exists h: nat :: Block(h, k).Aligned() && AllCovered(s, Block(h, k)))
  {
    if b :| b in s && b.order >= k {
      RoundDown(b.head, k);
      var c := Block(b.head - b.head % Pow2(k), k);
      assert b.Has(b.head) by { assert Pow2(b.order) > 0; }
      Nested(c, b, b.head);
      assert AllCovered(s, Block(c.head, k));
    }
    if h: nat :| Block(h, k).Aligned() && AllCovered(s, Block(h, k)) {
      var d := FullRunIsInOneBlock(s, Block(h, k));
    }
  }
}
