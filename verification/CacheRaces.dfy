/**
 Runs of the sector cache, from an empty one with room for one block, that end in front of a step it is wrong to take.
 */
module CacheRaces {
  import opened Folding
  import opened Words
  import opened BufferCache

  const NO_TRAFFIC := Traffic([], [], [], [], {})

  /** One block in the cache, on the first list of its device or on none. */
  function Alone(k: Key, d: Sector, b: Buf, q: seq<Key>, idx: nat, r: Traffic, u: multiset<Key>, t: set<Key>,
                 x: Transit): State
  {
    State(map[k := d], map[k := b], [k], 1, QueueOf(k, q), seq(k.dev + 1, i => if i == k.dev then idx else 0), r, u, t,
          x)
  }

  function QueueOf(k: Key, q: seq<Key>): (r: seq<seq<Key>>)
    ensures |r| == 2 * k.dev + 2
  {
    seq(2 * k.dev + 2, i => if i == 2 * k.dev then q else [])
  }

  lemma QueueAlone(k: Key, q: seq<Key>, q': seq<Key>)
    ensures QueueOf(k, q)[2 * k.dev := q'] == QueueOf(k, q')
  {
  }

  /** The step can be taken, is right, and leads to this state only. */
  ghost predicate Leads(s: State, e: Event, s': State) {
    !e.Reclaim? && CanTake(0, s, e) && Right(s, e) && forall t :: Took(s, e, t) ==> t == s'
  }

  lemma PinAlone(k: Key, d: Sector, b: Buf, q: seq<Key>, idx: nat, r: Traffic, u: multiset<Key>, t: set<Key>,
                 x: Transit)
    ensures Leads(Alone(k, d, b, q, idx, r, u, t, x), PinCached(k),
                  Alone(k, d, b.(refCount := b.refCount + 1), q, idx, r, u + multiset{k}, t, x.(calm := x.calm - {k})))
  {
    forall s' | Took(Alone(k, d, b, q, idx, r, u, t, x), PinCached(k), s')
      ensures s' == Alone(k, d, b.(refCount := b.refCount + 1), q, idx, r, u + multiset{k}, t, x.(calm := x.calm - {k}))
    {
      assert Look(s', 0);
      assert s'.cache == map[k := b.(refCount := b.refCount + 1)] && s'.lru == [k];
    }
  }

  lemma ReleaseAlone(k: Key, d: Sector, b: Buf, q: seq<Key>, idx: nat, r: Traffic, u: multiset<Key>, t: set<Key>,
                     x: Transit)
    requires b.refCount > 0 && x.filling[k] < u[k] && k !in t
    ensures Leads(Alone(k, d, b, q, idx, r, u, t, x), Release(k),
                  Alone(k, d, b.(refCount := b.refCount - 1), q, idx, r, u - multiset{k}, t, x))
  {
    forall s' | Took(Alone(k, d, b, q, idx, r, u, t, x), Release(k), s')
      ensures s' == Alone(k, d, b.(refCount := b.refCount - 1), q, idx, r, u - multiset{k}, t, x)
    {
      assert Look(s', 0);
      assert s'.cache == map[k := b.(refCount := b.refCount - 1)];
    }
  }

  lemma ChangeAlone(k: Key, d: Sector, b: Buf, q: seq<Key>, idx: nat, r: Traffic, u: multiset<Key>, t: set<Key>,
                    x: Transit, y: Sector)
    requires k in u
    ensures Leads(Alone(k, d, b, q, idx, r, u, t, x), Change(k, y),
                  Alone(k, d, b.(data := y, valid := true), q, idx, r, u, t + {k}, Changed(x, map[k := b], k)))
  {
    forall s' | Took(Alone(k, d, b, q, idx, r, u, t, x), Change(k, y), s')
      ensures s' == Alone(k, d, b.(data := y, valid := true), q, idx, r, u, t + {k}, Changed(x, map[k := b], k))
    {
      assert Look(s', 0);
      assert s'.cache == map[k := b.(data := y, valid := true)];
    }
  }

  lemma PublishAlone(k: Key, d: Sector, b: Buf, q: seq<Key>, idx: nat, r: Traffic, u: multiset<Key>, t: set<Key>,
                     x: Transit)
    requires k in t
    ensures Leads(Alone(k, d, b, q, idx, r, u, t, x), Publish(k),
                  Alone(k, d, b, q, idx, r, u, t, x.(unset := x.unset - {k})))
  {
    forall s' | Took(Alone(k, d, b, q, idx, r, u, t, x), Publish(k), s')
      ensures s' == Alone(k, d, b, q, idx, r, u, t, x.(unset := x.unset - {k}))
    {
      assert Look(s', 0);
    }
  }

  lemma MarkAlone(k: Key, d: Sector, b: Buf, q: seq<Key>, idx: nat, r: Traffic, u: multiset<Key>, t: set<Key>,
                  x: Transit)
    requires k in u && b.valid && k !in x.unset && !b.dirty && idx == 0
    ensures Leads(Alone(k, d, b, q, idx, r, u, t, x), Mark(k),
                  Alone(k, d, b.(dirty := true), q + [k], idx, r, u, t - {k}, x.(quiet := x.quiet - {k})))
  {
    forall s' | Took(Alone(k, d, b, q, idx, r, u, t, x), Mark(k), s')
      ensures s' == Alone(k, d, b.(dirty := true), q + [k], idx, r, u, t - {k}, x.(quiet := x.quiet - {k}))
    {
      assert Look(s', 0);
      assert s'.cache == map[k := b.(dirty := true)];
      QueueAlone(k, q, q + [k]);
    }
  }

  lemma CaptureAlone(k: Key, d: Sector, b: Buf, q: seq<Key>, idx: nat, r: Traffic, u: multiset<Key>, t: set<Key>,
                     x: Transit)
    ensures Leads(Alone(k, d, b, q, idx, r, u, t, x), BulkRead(k),
                  Alone(k, d, b, q, idx, r, u, t, x.(captured := x.captured + {(k, d)})))
  {
    forall s' | Took(Alone(k, d, b, q, idx, r, u, t, x), BulkRead(k), s')
      ensures s' == Alone(k, d, b, q, idx, r, u, t, x.(captured := x.captured + {(k, d)}))
    {
      assert Look(s', 0);
    }
  }

  lemma StartAlone(k: Key, d: Sector, b: Buf, q: seq<Key>, idx: nat, r: Traffic, u: multiset<Key>, t: set<Key>,
                   x: Transit)
    requires !b.valid && x.filling[k] < u[k]
    ensures Leads(Alone(k, d, b, q, idx, r, u, t, x), FillStart(k),
                  Alone(k, d, b, q, idx, r, u, t, FillStarted(x, map[k := b], k)))
  {
    forall s' | Took(Alone(k, d, b, q, idx, r, u, t, x), FillStart(k), s')
      ensures s' == Alone(k, d, b, q, idx, r, u, t, FillStarted(x, map[k := b], k))
    {
      assert Look(s', 0);
    }
  }

  lemma StoreAlone(k: Key, d: Sector, b: Buf, q: seq<Key>, idx: nat, r: Traffic, u: multiset<Key>, t: set<Key>,
                   x: Transit, y: Sector)
    requires (k, y) in x.captured && !b.valid && x.arrived[k] + x.flagged[k] < x.filling[k]
    ensures Leads(Alone(k, d, b, q, idx, r, u, t, x), BulkStore(k, y),
                  Alone(k, d, b.(data := y), q, idx, r, u, t, Stored(x, map[k := d], k, y)))
  {
    forall s' | Took(Alone(k, d, b, q, idx, r, u, t, x), BulkStore(k, y), s')
      ensures s' == Alone(k, d, b.(data := y), q, idx, r, u, t, Stored(x, map[k := d], k, y))
    {
      assert Look(s', 0);
      assert s'.cache == map[k := b.(data := y)];
    }
  }

  lemma ArriveAlone(k: Key, d: Sector, b: Buf, q: seq<Key>, idx: nat, r: Traffic, u: multiset<Key>, t: set<Key>,
                    x: Transit)
    requires !b.valid && x.arrived[k] + x.flagged[k] < x.filling[k]
    ensures Leads(Alone(k, d, b, q, idx, r, u, t, x), FillArrive(k),
                  Alone(k, d, b.(data := d), q, idx, r, u, t, Stored(x, map[k := d], k, d)))
  {
    forall s' | Took(Alone(k, d, b, q, idx, r, u, t, x), FillArrive(k), s')
      ensures s' == Alone(k, d, b.(data := d), q, idx, r, u, t, Stored(x, map[k := d], k, d))
    {
      assert Look(s', 0);
      assert s'.cache == map[k := b.(data := d)];
    }
  }

  lemma FlagAlone(k: Key, d: Sector, b: Buf, q: seq<Key>, idx: nat, r: Traffic, u: multiset<Key>, t: set<Key>,
                  x: Transit)
    requires k in x.arrived && b.data == d
    ensures Leads(Alone(k, d, b, q, idx, r, u, t, x), FillFlag(k),
                  Alone(k, d, b.(valid := true), q, idx, r, u, t, Flagged(x, k)))
  {
    forall s' | Took(Alone(k, d, b, q, idx, r, u, t, x), FillFlag(k), s')
      ensures s' == Alone(k, d, b.(valid := true), q, idx, r, u, t, Flagged(x, k))
    {
      assert Look(s', 0);
      assert s'.cache == map[k := b.(valid := true)];
    }
  }

  lemma FlipAlone(k: Key, d: Sector, b: Buf, q: seq<Key>, idx: nat, r: Traffic, u: multiset<Key>, t: set<Key>,
                  x: Transit)
    requires idx < 2
    ensures Leads(Alone(k, d, b, q, idx, r, u, t, x), FlipList(k.dev), Alone(k, d, b, q, 1 - idx, r, u, t, x))
  {
    forall s' | Took(Alone(k, d, b, q, idx, r, u, t, x), FlipList(k.dev), s')
      ensures s' == Alone(k, d, b, q, 1 - idx, r, u, t, x)
    {
      assert Look(s', 0);
      assert s'.active == seq(k.dev + 1, i => if i == k.dev then 1 - idx else 0);
    }
  }

  lemma CollectAlone(k: Key, d: Sector, b: Buf, q: seq<Key>, idx: nat, r: Traffic, u: multiset<Key>, t: set<Key>,
                     x: Transit)
    requires q == [k] && r == NO_TRAFFIC
    ensures Leads(Alone(k, d, b, q, idx, r, u, t, x), CollectNext(k.dev, 0),
                  Alone(k, d, b.(refCount := b.refCount + 1), [], idx, r.(sorted := [k]), u, t, x))
  {
    forall s' | Took(Alone(k, d, b, q, idx, r, u, t, x), CollectNext(k.dev, 0), s')
      ensures s' == Alone(k, d, b.(refCount := b.refCount + 1), [], idx, r.(sorted := [k]), u, t, x)
    {
      assert Look(s', 0);
      assert s'.cache == map[k := b.(refCount := b.refCount + 1)];
      QueueAlone(k, q, []);
    }
  }

  lemma TakeAlone(k: Key, d: Sector, b: Buf, q: seq<Key>, idx: nat, r: Traffic, u: multiset<Key>, t: set<Key>,
                  x: Transit)
    requires r == NO_TRAFFIC.(sorted := [k])
    ensures Leads(Alone(k, d, b, q, idx, r, u, t, x), Take,
                  Alone(k, d, b.(dirty := false), q, idx, NO_TRAFFIC.(batch := [k]), u, t, x))
  {
    forall s' | Took(Alone(k, d, b, q, idx, r, u, t, x), Take, s')
      ensures s' == Alone(k, d, b.(dirty := false), q, idx, NO_TRAFFIC.(batch := [k]), u, t, x)
    {
      assert Look(s', 0);
      assert |s'.traffic.batch| == 1 && |s'.traffic.sorted| == 0;
      assert s'.traffic.batch[0] == (s'.traffic.batch + s'.traffic.sorted)[0];
      assert s'.traffic.batch == [k] && s'.traffic.sorted == [];
      assert s'.cache == map[k := b.(dirty := false)];
    }
  }

  lemma CopyAlone(k: Key, d: Sector, b: Buf, q: seq<Key>, idx: nat, r: Traffic, u: multiset<Key>, t: set<Key>,
                  x: Transit)
    requires r == NO_TRAFFIC.(batch := [k])
    ensures Leads(Alone(k, d, b, q, idx, r, u, t, x), CopyNext, Alone(k, d, b, q, idx, r.(io := [b.data]), u, t, x))
  {
    forall s' | Took(Alone(k, d, b, q, idx, r, u, t, x), CopyNext, s')
      ensures s' == Alone(k, d, b, q, idx, r.(io := [b.data]), u, t, x)
    {
      assert Look(s', 0);
    }
  }

  lemma FlushAlone(k: Key, d: Sector, b: Buf, q: seq<Key>, idx: nat, r: Traffic, u: multiset<Key>, t: set<Key>,
                   x: Transit, y: Sector)
    requires r == NO_TRAFFIC.(batch := [k], io := [y])
    ensures Leads(Alone(k, d, b, q, idx, r, u, t, x), Flush,
                  Alone(k, y, b, q, idx, NO_TRAFFIC.(flushed := [k]), u, t, x))
  {
    forall s' | Took(Alone(k, d, b, q, idx, r, u, t, x), Flush, s')
      ensures s' == Alone(k, y, b, q, idx, NO_TRAFFIC.(flushed := [k]), u, t, x)
    {
      assert Look(s', 0);
      assert s'.disk == map[k := y];
    }
  }

  lemma DropAlone(k: Key, d: Sector, b: Buf, q: seq<Key>, idx: nat, r: Traffic, u: multiset<Key>, t: set<Key>,
                  x: Transit)
    requires b.refCount > 0 && r == NO_TRAFFIC.(flushed := [k])
    ensures Leads(Alone(k, d, b, q, idx, r, u, t, x), Drop,
                  Alone(k, d, b.(refCount := b.refCount - 1), q, idx, NO_TRAFFIC, u, t, x))
  {
    forall s' | Took(Alone(k, d, b, q, idx, r, u, t, x), Drop, s')
      ensures s' == Alone(k, d, b.(refCount := b.refCount - 1), q, idx, NO_TRAFFIC, u, t, x)
    {
      assert Look(s', 0);
      assert s'.cache == map[k := b.(refCount := b.refCount - 1)];
    }
  }

  lemma WriteAlone(k: Key, d: Sector, b: Buf, q: seq<Key>, idx: nat, r: Traffic, u: multiset<Key>, t: set<Key>,
                   x: Transit)
    requires k in r.leaving
    ensures Leads(Alone(k, d, b, q, idx, r, u, t, x), EvictWrite(k),
                  Alone(k, b.data, b, q, idx, r, u, t, x.(written := x.written + {k})))
  {
    forall s' | Took(Alone(k, d, b, q, idx, r, u, t, x), EvictWrite(k), s')
      ensures s' == Alone(k, b.data, b, q, idx, r, u, t, x.(written := x.written + {k}))
    {
      assert Look(s', 0);
      assert s'.disk == map[k := b.data];
    }
  }

  method Go(c: Cache, e: Event, ghost s': State)
    requires c.Valid() && Leads(c.Now(), e, s')
    modifies c
    ensures c.Valid() && c.Now() == s'
  {
    var _ := c.DueStep(e);
  }

  /** A caller of `getblk` has brought the block in. */
  method BringIn(k: Key, x: Sector, junk: Sector) returns (c: Cache)
    ensures fresh(c) && c.Valid() && c.Limit() == 1
    ensures c.Now() == Alone(k, x, Buf(junk, false, false, 1), [], 0, NO_TRAFFIC, multiset{k}, {}, AtRest({}))
  {
    c := new Cache(map[k := x], 2, k.dev + 1);
    var _ := c.DueStep(PinNew(k, junk));
    assert Look(c.Now(), 0);
    assert c.lists == QueueOf(k, []);
  }

  /** A caller of `bwrite_multi` that has the block overwrites it. */
  method Overwrite(c: Cache, k: Key, x: Sector, b: Buf, y: Sector, ghost captured: set<(Key, Sector)>)
    requires c.Valid() && b.refCount == 1 && !b.dirty
    requires c.Now() == Alone(k, x, b, [], 0, NO_TRAFFIC, multiset{k}, {}, AtRest(captured))
    modifies c
    ensures c.Valid()
    ensures c.Now() == Alone(k, x, Buf(y, false, true, 1), [], 0, NO_TRAFFIC, multiset{k}, {k}, AtRest(captured))
  {
    ghost var one, x0 := multiset{k}, AtRest(captured);
    ghost var x1 := Changed(x0, map[k := b], k);
    ChangeAlone(k, x, b, [], 0, NO_TRAFFIC, one, {}, x0, y);
    Go(c, Change(k, y), Alone(k, x, Buf(y, false, true, 1), [], 0, NO_TRAFFIC, one, {} + {k}, x1));
    assert {} + {k} == {k} && x1.(unset := x1.unset - {k}) == x0;
    PublishAlone(k, x, Buf(y, false, true, 1), [], 0, NO_TRAFFIC, one, {k}, x1);
    Go(c, Publish(k), Alone(k, x, Buf(y, false, true, 1), [], 0, NO_TRAFFIC, one, {k}, x0));
  }

  /** It marks the block and lets go. */
  method MarkAndRelease(c: Cache, k: Key, x: Sector, y: Sector, ghost captured: set<(Key, Sector)>)
    requires c.Valid()
    requires c.Now() == Alone(k, x, Buf(y, false, true, 1), [], 0, NO_TRAFFIC, multiset{k}, {k}, AtRest(captured))
    modifies c
    ensures c.Valid()
    ensures c.Now() == Alone(k, x, Buf(y, true, true, 0), [k], 0, NO_TRAFFIC, multiset{}, {}, AtRest(captured))
  {
    ghost var one, x0 := multiset{k}, AtRest(captured);
    MarkAlone(k, x, Buf(y, false, true, 1), [], 0, NO_TRAFFIC, one, {k}, x0);
    assert x0.(quiet := x0.quiet - {k}) == x0 && {k} - {k} == {} && [] + [k] == [k];
    Go(c, Mark(k), Alone(k, x, Buf(y, true, true, 1), [k], 0, NO_TRAFFIC, one, {}, x0));
    ReleaseAlone(k, x, Buf(y, true, true, 1), [k], 0, NO_TRAFFIC, one, {}, x0);
    assert one - multiset{k} == multiset{};
    Go(c, Release(k), Alone(k, x, Buf(y, true, true, 0), [k], 0, NO_TRAFFIC, multiset{}, {}, x0));
  }

  /** The write-back thread writes it. */
  method WriteBack(c: Cache, k: Key, x: Sector, y: Sector, ghost x0: Transit)
    requires c.Valid() && c.Now() == Alone(k, x, Buf(y, true, true, 0), [k], 0, NO_TRAFFIC, multiset{}, {}, x0)
    modifies c
    ensures c.Valid() && c.Now() == Alone(k, y, Buf(y, false, true, 0), [], 1, NO_TRAFFIC, multiset{}, {}, x0)
  {
    ghost var b := Buf(y, true, true, 0);
    FlipAlone(k, x, b, [k], 0, NO_TRAFFIC, multiset{}, {}, x0);
    Go(c, FlipList(k.dev), Alone(k, x, b, [k], 1, NO_TRAFFIC, multiset{}, {}, x0));
    CollectAlone(k, x, b, [k], 1, NO_TRAFFIC, multiset{}, {}, x0);
    ghost var r := NO_TRAFFIC.(sorted := [k]);
    Go(c, CollectNext(k.dev, 0), Alone(k, x, Buf(y, true, true, 1), [], 1, r, multiset{}, {}, x0));
    TakeAlone(k, x, Buf(y, true, true, 1), [], 1, r, multiset{}, {}, x0);
    Go(c, Take, Alone(k, x, Buf(y, false, true, 1), [], 1, NO_TRAFFIC.(batch := [k]), multiset{}, {}, x0));
    FlushOne(c, k, x, y, x0);
  }

  method FlushOne(c: Cache, k: Key, x: Sector, y: Sector, ghost x0: Transit)
    requires c.Valid()
    requires c.Now() == Alone(k, x, Buf(y, false, true, 1), [], 1, NO_TRAFFIC.(batch := [k]), multiset{}, {}, x0)
    modifies c
    ensures c.Valid() && c.Now() == Alone(k, y, Buf(y, false, true, 0), [], 1, NO_TRAFFIC, multiset{}, {}, x0)
  {
    ghost var b, r := Buf(y, false, true, 1), NO_TRAFFIC.(batch := [k]);
    CopyAlone(k, x, b, [], 1, r, multiset{}, {}, x0);
    Go(c, CopyNext, Alone(k, x, b, [], 1, r.(io := [y]), multiset{}, {}, x0));
    FlushAlone(k, x, b, [], 1, r.(io := [y]), multiset{}, {}, x0, y);
    Go(c, Flush, Alone(k, y, b, [], 1, NO_TRAFFIC.(flushed := [k]), multiset{}, {}, x0));
    DropAlone(k, y, b, [], 1, NO_TRAFFIC.(flushed := [k]), multiset{}, {}, x0);
    Go(c, Drop, Alone(k, y, Buf(y, false, true, 0), [], 1, NO_TRAFFIC, multiset{}, {}, x0));
  }

  // ---- bread_multi ----

  /** The clean block is evicted, and the next caller brings it in again. */
  method EvictAndBringIn(c: Cache, k: Key, y: Sector, junk: Sector, ghost x0: Transit)
    requires c.Valid() && c.Limit() <= 1 && k !in x0.calm && k !in x0.written
    requires c.Now() == Alone(k, y, Buf(y, false, true, 0), [], 1, NO_TRAFFIC, multiset{}, {}, x0)
    modifies c
    ensures c.Valid()
    ensures c.Now() == Alone(k, y, Buf(junk, false, false, 1), [], 1, NO_TRAFFIC, multiset{k}, {}, x0)
  {
    assert k in c.cache && c.cache[k].refCount == 0 && forall v :: v in c.cache ==> v == k;
    var done := c.ReclaimStep();
    assert done && Look(c.Now(), 0);
    assert Dropped(old(c.Now()), k, c.Now());
    assert c.cache == map[] && c.lru == [] && c.transit == x0 && c.traffic == NO_TRAFFIC;
    var _ := c.DueStep(PinNew(k, junk));
    assert Look(c.Now(), 0);
    assert c.transit == x0;
  }

  /**
   A caller of `bread_multi` reads the sector, another one overwrites the block, the bytes reach the disk and the block
   is evicted. Then the first one brings the block in again, puts in what it read, and is about to set the flag: the
   last write would be hidden.
   */
  method StaleBulkRead(k: Key, x: Sector, y: Sector, junk: Sector) returns (c: Cache)
    requires x != y
    ensures c.Valid() && c.Memory() == map[k := y]
    ensures CanTake(c.Limit(), c.Now(), BulkFlag(k)) && !Survives(c.Now(), BulkFlag(k))
    ensures k in c.cache && Contents(c.disk, c.cache[k := c.cache[k].(valid := true)]) == map[k := x]
  {
    ghost var captured := {(k, x)};
    c := BringIn(k, x, junk);
    BulkReadAndPin(c, k, x, junk);
    Overwrite(c, k, x, Buf(junk, false, false, 1), y, captured);
    MarkAndRelease(c, k, x, y, captured);
    WriteBack(c, k, x, y, AtRest(captured));
    EvictAndBringIn(c, k, y, junk, AtRest(captured));
    PutIn(c, k, x, y, junk);
    FlagHides(c.Limit(), c.Now(), k, x, y);
  }

  lemma FlagHides(limit: nat, s: State, k: Key, x: Sector, y: Sector)
    requires Sound(s) && s.disk == map[k := y] && s.cache == map[k := Buf(x, false, false, 1)] && x != y
    requires k in s.transit.arrived
    ensures CanTake(limit, s, BulkFlag(k)) && !Survives(s, BulkFlag(k)) && ViewOf(s) == map[k := y]
    ensures Contents(s.disk, s.cache[k := s.cache[k].(valid := true)]) == map[k := x]
  {
    RightIffSurvives(limit, s, BulkFlag(k));
  }

  method BulkReadAndPin(c: Cache, k: Key, x: Sector, junk: Sector)
    requires c.Valid()
    requires c.Now() == Alone(k, x, Buf(junk, false, false, 1), [], 0, NO_TRAFFIC, multiset{k}, {}, AtRest({}))
    modifies c
    ensures c.Valid()
    ensures c.Now() == Alone(k, x, Buf(junk, false, false, 1), [], 0, NO_TRAFFIC, multiset{k}, {}, AtRest({(k, x)}))
  {
    ghost var b, none := Buf(junk, false, false, 0), multiset{k} - multiset{k};
    ReleaseAlone(k, x, Buf(junk, false, false, 1), [], 0, NO_TRAFFIC, multiset{k}, {}, AtRest({}));
    Go(c, Release(k), Alone(k, x, b, [], 0, NO_TRAFFIC, none, {}, AtRest({})));
    CaptureAlone(k, x, b, [], 0, NO_TRAFFIC, none, {}, AtRest({}));
    assert {} + {(k, x)} == {(k, x)};
    Go(c, BulkRead(k), Alone(k, x, b, [], 0, NO_TRAFFIC, none, {}, AtRest({(k, x)})));
    PinAlone(k, x, b, [], 0, NO_TRAFFIC, none, {}, AtRest({(k, x)}));
    assert none + multiset{k} == multiset{k} && AtRest({(k, x)}).calm - {k} == {};
    Go(c, PinCached(k), Alone(k, x, Buf(junk, false, false, 1), [], 0, NO_TRAFFIC, multiset{k}, {}, AtRest({(k, x)})));
  }

  method PutIn(c: Cache, k: Key, x: Sector, y: Sector, junk: Sector)
    requires c.Valid()
    requires c.Now() == Alone(k, y, Buf(junk, false, false, 1), [], 1, NO_TRAFFIC, multiset{k}, {}, AtRest({(k, x)}))
    modifies c
    ensures c.Valid() && c.disk == map[k := y] && c.cache == map[k := Buf(x, false, false, 1)]
    ensures k in c.transit.arrived
  {
    ghost var b, x0 := Buf(junk, false, false, 1), AtRest({(k, x)});
    ghost var x1 := FillStarted(x0, map[k := b], k);
    StartAlone(k, y, b, [], 1, NO_TRAFFIC, multiset{k}, {}, x0);
    Go(c, FillStart(k), Alone(k, y, b, [], 1, NO_TRAFFIC, multiset{k}, {}, x1));
    StoreAlone(k, y, b, [], 1, NO_TRAFFIC, multiset{k}, {}, x1, x);
    Go(c, BulkStore(k, x), Alone(k, y, Buf(x, false, false, 1), [], 1, NO_TRAFFIC, multiset{k}, {},
                                 Stored(x1, map[k := y], k, x)));
  }

  // ---- _bread ----

  /** A caller of `_bread` finds the flag clear, and another one changes the block before the sector arrives. */
  method LateArrival(k: Key, x: Sector, y: Sector, junk: Sector) returns (c: Cache)
    requires x != y
    ensures c.Valid() && c.Memory() == map[k := y]
    ensures CanTake(c.Limit(), c.Now(), FillArrive(k)) && !Survives(c.Now(), FillArrive(k))
    ensures k in c.cache && Contents(c.disk, c.cache[k := c.cache[k].(data := x)]) == map[k := x]
  {
    c := BringIn(k, x, junk);
    ghost var b, x0 := Buf(junk, false, false, 1), AtRest({});
    ghost var x1 := FillStarted(x0, map[k := b], k);
    StartAlone(k, x, b, [], 0, NO_TRAFFIC, multiset{k}, {}, x0);
    Go(c, FillStart(k), Alone(k, x, b, [], 0, NO_TRAFFIC, multiset{k}, {}, x1));
    ghost var x2 := PinAndChange(c, k, x, b, y, x1);
    ArrivalOverwrites(c.Limit(), c.Now(), k, x, y);
  }

  /** Another caller pins the block and changes it. */
  method PinAndChange(c: Cache, k: Key, x: Sector, ghost b: Buf, y: Sector, ghost x1: Transit)
    returns (ghost x2: Transit)
    requires c.Valid() && c.Now() == Alone(k, x, b, [], 0, NO_TRAFFIC, multiset{k}, {}, x1) && b.refCount == 1
    modifies c
    ensures c.Valid() && x2 == Changed(x1.(calm := x1.calm - {k}), map[k := b.(refCount := 2)], k)
    ensures c.Now() == Alone(k, x, b.(data := y, valid := true, refCount := 2), [], 0, NO_TRAFFIC,
                             multiset{k} + multiset{k}, {k}, x2)
  {
    ghost var two, calm := multiset{k} + multiset{k}, x1.(calm := x1.calm - {k});
    PinAlone(k, x, b, [], 0, NO_TRAFFIC, multiset{k}, {}, x1);
    Go(c, PinCached(k), Alone(k, x, b.(refCount := 2), [], 0, NO_TRAFFIC, two, {}, calm));
    ChangeAlone(k, x, b.(refCount := 2), [], 0, NO_TRAFFIC, two, {}, calm, y);
    x2 := Changed(calm, map[k := b.(refCount := 2)], k);
    assert {} + {k} == {k};
    Go(c, Change(k, y), Alone(k, x, b.(data := y, valid := true, refCount := 2), [], 0, NO_TRAFFIC, two, {k}, x2));
  }

  lemma ArrivalOverwrites(limit: nat, s: State, k: Key, x: Sector, y: Sector)
    requires Sound(s) && s.disk == map[k := x] && s.cache == map[k := Buf(y, false, true, 2)] && x != y
    requires s.transit.arrived[k] + s.transit.flagged[k] < s.transit.filling[k]
    ensures CanTake(limit, s, FillArrive(k)) && !Survives(s, FillArrive(k)) && ViewOf(s) == map[k := y]
    ensures Contents(s.disk, s.cache[k := s.cache[k].(data := x)]) == map[k := x]
  {
    RightIffSurvives(limit, s, FillArrive(k));
  }

  /** The sector has arrived and the flag is set; another caller changes and marks the block before it is made clean. */
  method LateMark(k: Key, x: Sector, y: Sector, junk: Sector) returns (c: Cache)
    ensures c.Valid() && c.Memory() == map[k := y]
    ensures CanTake(c.Limit(), c.Now(), FillClean(k)) && !Survives(c.Now(), FillClean(k))
    ensures k in c.cache && c.cache[k].dirty && InLists(c.lists, k)
  {
    c := BringIn(k, x, junk);
    ghost var x3 := FillUpToFlag(c, k, x, junk);
    ghost var b, two := Buf(y, false, true, 2), multiset{k} + multiset{k};
    ghost var x4 := PinAndChange(c, k, x, Buf(x, false, true, 1), y, x3);
    MarkAlone(k, x, b, [], 0, NO_TRAFFIC, two, {k}, x4);
    Go(c, Mark(k), Alone(k, x, Buf(y, true, true, 2), [] + [k], 0, NO_TRAFFIC, two, {k} - {k},
                         x4.(quiet := x4.quiet - {k})));
    assert k in c.lists[2 * k.dev];
    CleaningForgets(c.Limit(), c.Now(), k, x, y);
  }

  lemma CleaningForgets(limit: nat, s: State, k: Key, x: Sector, y: Sector)
    requires Sound(s) && s.disk == map[k := x] && s.cache == map[k := Buf(y, true, true, 2)] && k in s.transit.flagged
    ensures CanTake(limit, s, FillClean(k)) && !Survives(s, FillClean(k)) && ViewOf(s) == map[k := y]
  {
    RightIffSurvives(limit, s, FillClean(k));
  }

  method FillUpToFlag(c: Cache, k: Key, x: Sector, junk: Sector) returns (ghost x3: Transit)
    requires c.Valid()
    requires c.Now() == Alone(k, x, Buf(junk, false, false, 1), [], 0, NO_TRAFFIC, multiset{k}, {}, AtRest({}))
    modifies c
    ensures c.Valid() && c.Now() == Alone(k, x, Buf(x, false, true, 1), [], 0, NO_TRAFFIC, multiset{k}, {}, x3)
    ensures k in x3.flagged && k !in x3.unset
  {
    ghost var b, x0 := Buf(junk, false, false, 1), AtRest({});
    ghost var x1 := FillStarted(x0, map[k := b], k);
    ghost var x2 := Stored(x1, map[k := x], k, x);
    StartAlone(k, x, b, [], 0, NO_TRAFFIC, multiset{k}, {}, x0);
    Go(c, FillStart(k), Alone(k, x, b, [], 0, NO_TRAFFIC, multiset{k}, {}, x1));
    ArriveAlone(k, x, b, [], 0, NO_TRAFFIC, multiset{k}, {}, x1);
    Go(c, FillArrive(k), Alone(k, x, Buf(x, false, false, 1), [], 0, NO_TRAFFIC, multiset{k}, {}, x2));
    FlagAlone(k, x, Buf(x, false, false, 1), [], 0, NO_TRAFFIC, multiset{k}, {}, x2);
    x3 := Flagged(x2, k);
    Go(c, FillFlag(k), Alone(k, x, Buf(x, false, true, 1), [], 0, NO_TRAFFIC, multiset{k}, {}, x3));
  }

  // ---- getblk ----

  ghost function Leaving(k: Key): Traffic {
    NO_TRAFFIC.(leaving := {k})
  }

  ghost function Written(k: Key, calm: set<Key>): Transit {
    AtRest({}).(written := {k}, calm := calm)
  }

  /** A dirty block is taken off its list to be evicted; the next caller in need of room would take it once more. */
  method VictimTwice(k: Key, x: Sector, y: Sector, junk: Sector) returns (c: Cache)
    ensures fresh(c) && c.Valid()
    ensures c.Now() == Alone(k, x, Buf(y, true, true, 0), [], 0, Leaving(k), multiset{}, {}, AtRest({}).(calm := {k}))
    ensures CanTake(c.Limit(), c.Now(), Reclaim) && !Survives(c.Now(), Reclaim)
  {
    c := BringIn(k, x, junk);
    Overwrite(c, k, x, Buf(junk, false, false, 1), y, {});
    MarkAndRelease(c, k, x, y, {});
    LeaveList(c, k, x, y);
    assert c.lru[0] == k;
    assert LeastRecent(c.cache, c.lru, k);
    RightIffSurvives(c.Limit(), c.Now(), Reclaim);
  }

  method LeaveList(c: Cache, k: Key, x: Sector, y: Sector)
    requires c.Valid()
    requires c.Now() == Alone(k, x, Buf(y, true, true, 0), [k], 0, NO_TRAFFIC, multiset{}, {}, AtRest({}))
    modifies c
    ensures c.Valid()
    ensures c.Now() == Alone(k, x, Buf(y, true, true, 0), [], 0, Leaving(k), multiset{}, {}, AtRest({}).(calm := {k}))
  {
    ghost var s := c.Now();
    assert k in c.cache && c.cache[k].refCount == 0 && forall v :: v in c.cache ==> v == k;
    var done := c.ReclaimStep();
    assert done && Look(c.Now(), 0);
    assert LeftList(s, k, c.Now());
    assert c.lists == QueueOf(k, []) && c.traffic == Leaving(k);
    assert {} + {k} == {k};
  }

  /** It is written. */
  method VictimWritten(k: Key, x: Sector, y: Sector, junk: Sector) returns (c: Cache)
    ensures fresh(c) && c.Valid()
    ensures c.Now() == Alone(k, y, Buf(y, true, true, 0), [], 0, Leaving(k), multiset{}, {}, Written(k, {k}))
  {
    c := VictimTwice(k, x, y, junk);
    WriteAlone(k, x, Buf(y, true, true, 0), [], 0, Leaving(k), multiset{}, {}, AtRest({}).(calm := {k}));
    assert {} + {k} == {k};
    Go(c, EvictWrite(k), Alone(k, y, Buf(y, true, true, 0), [], 0, Leaving(k), multiset{}, {}, Written(k, {k})));
  }

  /** Another caller pins it meanwhile: it would be dropped under that pin, although its bytes are on the disk. */
  method VictimPinned(k: Key, x: Sector, y: Sector, junk: Sector) returns (c: Cache)
    ensures fresh(c) && c.Valid()
    ensures c.Now() == Alone(k, y, Buf(y, true, true, 1), [], 0, Leaving(k), multiset{k}, {}, Written(k, {}))
    ensures CanTake(c.Limit(), c.Now(), EvictFinish(k)) && !Survives(c.Now(), EvictFinish(k))
  {
    c := VictimWritten(k, x, y, junk);
    PinAlone(k, y, Buf(y, true, true, 0), [], 0, Leaving(k), multiset{}, {}, Written(k, {k}));
    assert {k} - {k} == {} && multiset{} + multiset{k} == multiset{k};
    Go(c, PinCached(k), Alone(k, y, Buf(y, true, true, 1), [], 0, Leaving(k), multiset{k}, {}, Written(k, {})));
    RightIffSurvives(c.Limit(), c.Now(), EvictFinish(k));
  }

  /** It overwrites the block as well: that would be lost. */
  method VictimOverwritten(k: Key, x: Sector, y: Sector, z: Sector, junk: Sector) returns (c: Cache)
    requires z != y
    ensures c.Valid() && c.Memory() == map[k := z]
    ensures CanTake(c.Limit(), c.Now(), EvictFinish(k)) && !Survives(c.Now(), EvictFinish(k))
    ensures Contents(c.disk, c.cache - {k}) == map[k := y]
  {
    c := VictimPinned(k, x, y, junk);
    ghost var b, x0 := Buf(y, true, true, 1), Written(k, {});
    ChangeAlone(k, y, b, [], 0, Leaving(k), multiset{k}, {}, x0, z);
    Go(c, Change(k, z), Alone(k, y, Buf(z, true, true, 1), [], 0, Leaving(k), multiset{k}, {} + {k},
                              Changed(x0, map[k := b], k)));
    RightIffSurvives(c.Limit(), c.Now(), EvictFinish(k));
  }

  /** A pin taken and given back meanwhile does no harm: that nobody pins the victim is not needed. */
  method PassingPin(k: Key, x: Sector, y: Sector, junk: Sector) returns (c: Cache)
    ensures c.Valid() && c.Memory() == map[k := y] && k !in c.transit.calm
    ensures CanTake(c.Limit(), c.Now(), EvictFinish(k)) && Survives(c.Now(), EvictFinish(k))
  {
    c := VictimPinned(k, x, y, junk);
    ReleaseAlone(k, y, Buf(y, true, true, 1), [], 0, Leaving(k), multiset{k}, {}, Written(k, {}));
    Go(c, Release(k), Alone(k, y, Buf(y, true, true, 0), [], 0, Leaving(k), multiset{k} - multiset{k}, {},
                            Written(k, {})));
    RightIffSurvives(c.Limit(), c.Now(), EvictFinish(k));
  }
}
