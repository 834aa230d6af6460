/**
 device/block/ide_buffer.c: the sector cache with its hash table, LRU list, pin counts and dirty lists, and the
 write-back thread. Each method of the class is one step under the global lock; steps of any number of callers and of
 the write-back thread may follow each other in any order.
 */
module BufferCache {
  import opened Folding
  import opened Lists
  import opened Options
  import opened Words

  type Sector = seq<byte>

  datatype Key = Key(dev: nat, lba: nat)

  /** A buffer. Its bytes count when `valid` holds; that the flag itself may be stored later, `Transit.unset` says. */
  datatype Buf = Buf(data: Sector, dirty: bool, valid: bool, refCount: nat)

  /** `MAX_SYNC_COUNT` */
  const MAX_BATCH := 16

  /**
   Blocks on their way to the disk. The write-back thread holds the pinned blocks still to be written, in order; the
   batch being written, with the copies made of its first blocks; and the written blocks whose pin is still to be
   dropped. Callers that make room have taken the dirty blocks in `leaving` off their lists, to write and then drop
   them.
   */
  datatype Traffic = Traffic(sorted: seq<Key>, batch: seq<Key>, io: seq<Sector>, flushed: seq<Key>, leaving: set<Key>)
  {
    ghost predicate Holds(k: Key) {
      k in sorted || k in batch || k in flushed
    }
  }

  // ---- Invariants ----

  /** The dirty blocks that some list should hold. */
  ghost function Queued(cache: map<Key, Buf>, leaving: set<Key>): set<Key> {
    DirtyKeys(cache) - leaving
  }

  ghost function DirtyKeys(cache: map<Key, Buf>): set<Key> {
    set k | k in cache && cache[k].dirty
  }

  ghost function ValidKeys(cache: map<Key, Buf>): set<Key> {
    set k | k in cache && cache[k].valid
  }

  /** The LRU list holds exactly the cached blocks, each once. */
  ghost predicate LruOk(cached: set<Key>, lru: seq<Key>) {
    NoDup(lru) && forall k :: k in lru <==> k in cached
  }

  /** The list a block may be queued in: two for each device. */
  ghost predicate InLists(lists: seq<seq<Key>>, k: Key) {
    exists i :: 0 <= i < |lists| && k in lists[i]
  }

  ghost predicate ListsOk(lists: seq<seq<Key>>) {
    && (forall i :: 0 <= i < |lists| ==> NoDup(lists[i]))
    && (forall i, k :: 0 <= i < |lists| && k in lists[i] ==> k.dev == i / 2)
    && (forall i, j, k :: 0 <= i < j < |lists| && k in lists[i] ==> k !in lists[j])
  }

  /** A block is dirty exactly when it is queued: in one of its device's lists or with the write-back thread. */
  ghost predicate QueuesOk(dirty: set<Key>, lists: seq<seq<Key>>, sorted: seq<Key>) {
    && ListsOk(lists)
    && (forall k :: k in sorted ==> !InLists(lists, k))
    && (forall k :: k in dirty <==> InLists(lists, k) || k in sorted)
  }

  ghost predicate Ascending(s: seq<Key>) {
    forall i, j :: 0 <= i < j < |s| ==> s[i].dev == s[j].dev && s[i].lba < s[j].lba
  }

  /** Consecutive sectors of one device. */
  ghost predicate Run(s: seq<Key>) {
    forall i :: 0 <= i < |s| ==> s[i] == Key(s[0].dev, s[0].lba + i)
  }

  /** The first `c` blocks are the longest such run, up to a batch. */
  ghost predicate FirstRun(s: seq<Key>, c: nat) {
    && 0 < c <= |s| && c <= MAX_BATCH && Run(s[..c])
    && (c == MAX_BATCH || c == |s| || s[c].lba != s[c - 1].lba + 1)
  }

  ghost predicate TrafficOk(cached: set<Key>, valid: set<Key>, r: Traffic) {
    && Ascending(r.sorted) && Run(r.batch) && NoDup(r.flushed)
    && (forall k :: k in r.sorted ==> k !in r.batch && k !in r.flushed)
    && (forall k :: k in r.batch ==> k !in r.flushed && k in valid)
    && (forall k :: r.Holds(k) ==> k in cached)
    && |r.io| <= |r.batch| <= MAX_BATCH
  }

  /** The pin count of a block: one for each caller that has it, one for the write-back thread. */
  ghost predicate PinsOk(cache: map<Key, Buf>, r: Traffic, users: multiset<Key>) {
    && (forall k :: k in users ==> k in cache)
    && (forall k :: k in cache ==> cache[k].refCount == users[k] + if r.Holds(k) then 1 else 0)
  }

  /** `copy` is what the buffer holds, unless the buffer is queued or being changed. */
  ghost predicate Settled(copy: Sector, b: Buf, touched: bool) {
    b.data == copy || b.dirty || touched
  }

  /** The cached bytes are on the disk, or on their way there, or a caller that has the block is still changing it. */
  ghost predicate DataOk(disk: map<Key, Sector>, cache: map<Key, Buf>, batch: seq<Key>, io: seq<Sector>,
                         touched: set<Key>) {
    && (forall k :: k in cache ==> k in disk && (cache[k].dirty ==> cache[k].valid))
    && (forall k :: k in touched ==> k in cache && cache[k].valid)
    && (forall k :: k in cache && cache[k].valid && k !in batch ==> Settled(disk[k], cache[k], k in touched))
    && |io| <= |batch|
    && (forall i :: 0 <= i < |io| ==> batch[i] in cache && Settled(io[i], cache[batch[i]], batch[i] in touched))
  }

  // The parts, kept folded: each is opened only in the lemmas about it.

  ghost predicate Lru(cached: set<Key>, lru: seq<Key>) {
    forall u :: Look(lru, u) ==> LruOk(cached, lru)
  }

  ghost predicate Queues(dirty: set<Key>, lists: seq<seq<Key>>, sorted: seq<Key>) {
    forall u :: Look(lists, u) ==> QueuesOk(dirty, lists, sorted)
  }

  ghost predicate Held(cached: set<Key>, valid: set<Key>, r: Traffic) {
    forall u :: Look(r, u) ==> TrafficOk(cached, valid, r)
  }

  ghost predicate Pins(cache: map<Key, Buf>, r: Traffic, users: multiset<Key>) {
    forall u :: Look(users, u) ==> PinsOk(cache, r, users)
  }

  ghost predicate Data(disk: map<Key, Sector>, cache: map<Key, Buf>, batch: seq<Key>, io: seq<Sector>,
                       users: multiset<Key>, touched: set<Key>)
  {
    forall u :: Look(touched, u) ==> DataOk(disk, cache, batch, io, touched) && forall k :: k in touched ==> k in users
  }

  ghost predicate Parts(disk: map<Key, Sector>, cache: map<Key, Buf>, lru: seq<Key>, lists: seq<seq<Key>>, r: Traffic,
                      users: multiset<Key>, touched: set<Key>)
  {
    && Lru(cache.Keys, lru) && Queues(Queued(cache, r.leaving), lists, r.sorted)
    && Held(cache.Keys, ValidKeys(cache), r)
    && Pins(cache, r, users) && Data(disk, cache, r.batch, r.io, users, touched) && r.leaving <= DirtyKeys(cache)
  }

  ghost predicate Inv(disk: map<Key, Sector>, cache: map<Key, Buf>, lru: seq<Key>, lists: seq<seq<Key>>, r: Traffic,
                      users: multiset<Key>, touched: set<Key>)
  {
    forall u :: Look(cache, u) ==> Parts(disk, cache, lru, lists, r, users, touched)
  }

  lemma CachedOnDisk(disk: map<Key, Sector>, cache: map<Key, Buf>, lru: seq<Key>, lists: seq<seq<Key>>, r: Traffic,
                     users: multiset<Key>, touched: set<Key>, k: Key)
    requires Inv(disk, cache, lru, lists, r, users, touched)
    ensures k in cache ==> k in disk
    ensures k in lru <==> k in cache
    ensures k in users ==> k in cache && cache[k].refCount > 0
    ensures k in touched ==> k in users
  {
    assert Look(cache, 0) && Look(touched, 0) && Look(lru, 0) && Look(users, 0);
  }

  /** What a reader of the disk should see. */
  ghost function Contents(disk: map<Key, Sector>, cache: map<Key, Buf>): map<Key, Sector> {
    map k | k in disk :: if k in cache && cache[k].valid then cache[k].data else disk[k]
  }

  lemma SetBuf(cache: map<Key, Buf>, k: Key, b: Buf)
    ensures cache[k := b].Keys == cache.Keys + {k}
    ensures DirtyKeys(cache[k := b]) == DirtyKeys(cache) - {k} + if b.dirty then {k} else {}
    ensures ValidKeys(cache[k := b]) == ValidKeys(cache) - {k} + if b.valid then {k} else {}
  {
  }

  lemma SameBits(cache: map<Key, Buf>, k: Key, b: Buf)
    requires k in cache && b.dirty == cache[k].dirty && b.valid == cache[k].valid
    ensures cache[k := b].Keys == cache.Keys
    ensures DirtyKeys(cache[k := b]) == DirtyKeys(cache) && ValidKeys(cache[k := b]) == ValidKeys(cache)
  {
    SetBuf(cache, k, b);
  }

  // ---- Eviction ----

  /** `dlist_remove` on the block's `dirty_tag`, whichever list it is in. */
  function Unlink(lists: seq<seq<Key>>, k: Key): (r: seq<seq<Key>>)
    ensures |r| == |lists|
  {
    seq(|lists|, i requires 0 <= i < |lists| => Without(lists[i], k))
  }

  lemma UnlinkOk(lists: seq<seq<Key>>, k: Key)
    requires ListsOk(lists)
    ensures ListsOk(Unlink(lists, k))
    ensures forall k' :: InLists(Unlink(lists, k), k') <==> InLists(lists, k') && k' != k
  {
    forall i | 0 <= i < |lists|
      ensures NoDup(Unlink(lists, k)[i])
      ensures forall k' :: k' in Unlink(lists, k)[i] <==> k' in lists[i] && k' != k
    {
      if k in lists[i] {
        WithoutRemovesOne(lists[i], k);
      } else {
        WithoutAbsent(lists[i], k);
      }
    }
  }

  lemma DropBuf(cache: map<Key, Buf>, k: Key)
    ensures (cache - {k}).Keys == cache.Keys - {k}
    ensures DirtyKeys(cache - {k}) == DirtyKeys(cache) - {k} && ValidKeys(cache - {k}) == ValidKeys(cache) - {k}
  {
  }

  lemma LruEvict(cached: set<Key>, lru: seq<Key>, k: Key)
    requires Lru(cached, lru) && k in cached
    ensures Lru(cached - {k}, Without(lru, k)) && |Without(lru, k)| == |lru| - 1
  {
    assert Look(lru, 0);
    WithoutRemovesOne(lru, k);
  }

  lemma QueuesEvict(dirty: set<Key>, lists: seq<seq<Key>>, sorted: seq<Key>, k: Key)
    requires Queues(dirty, lists, sorted) && k !in sorted
    ensures Queues(dirty - {k}, Unlink(lists, k), sorted)
  {
    assert Look(lists, 0);
    UnlinkOk(lists, k);
  }

  /** A block nobody has pinned is with no caller, not with the write-back thread, and not being changed. */
  lemma UnpinnedIsIdle(disk: map<Key, Sector>, cache: map<Key, Buf>, r: Traffic, users: multiset<Key>,
                       touched: set<Key>, k: Key)
    requires Pins(cache, r, users) && Data(disk, cache, r.batch, r.io, users, touched)
    requires k in cache && cache[k].refCount == 0
    ensures !r.Holds(k) && k !in users && k !in touched
  {
    assert Look(users, 0) && Look(touched, 0);
  }

  lemma HeldEvict(cached: set<Key>, valid: set<Key>, r: Traffic, k: Key)
    requires Held(cached, valid, r) && !r.Holds(k)
    ensures Held(cached - {k}, valid - {k}, r)
  {
    assert Look(r, 0);
  }

  lemma PinsEvict(cache: map<Key, Buf>, r: Traffic, users: multiset<Key>, k: Key)
    requires Pins(cache, r, users) && k !in users
    ensures Pins(cache - {k}, r, users)
  {
    assert Look(users, 0);
  }

  /** A buffer whose bytes are on the disk can be dropped. */
  lemma DataDrop(disk: map<Key, Sector>, cache: map<Key, Buf>, batch: seq<Key>, io: seq<Sector>,
                 users: multiset<Key>, touched: set<Key>, k: Key)
    requires Data(disk, cache, batch, io, users, touched) && k in cache && k !in touched && k !in batch
    requires cache[k].dirty ==> k in disk && cache[k].data == disk[k]
    ensures Data(disk, cache - {k}, batch, io, users, touched)
    ensures Contents(disk, cache - {k}) == Contents(disk, cache)
  {
    assert Look(touched, 0);
  }

  /** Which blocks are leaving concerns neither what the write-back thread holds nor the pins. */
  lemma LeavingSet(cache: map<Key, Buf>, r: Traffic, users: multiset<Key>, leaving: set<Key>)
    requires Held(cache.Keys, ValidKeys(cache), r) && Pins(cache, r, users)
    ensures Held(cache.Keys, ValidKeys(cache), r.(leaving := leaving)) && Pins(cache, r.(leaving := leaving), users)
  {
    assert Look(r, 0) && Look(users, 0);
  }

  /** Dropping an unpinned block that is clean, or that was taken off its list and has the bytes written since. */
  lemma DropKeeps(disk: map<Key, Sector>, cache: map<Key, Buf>, lru: seq<Key>, lists: seq<seq<Key>>, r: Traffic,
                  users: multiset<Key>, touched: set<Key>, k: Key)
    requires Inv(disk, cache, lru, lists, r, users, touched) && k in cache && cache[k].refCount == 0
    requires cache[k].dirty ==> k in r.leaving && k in disk && cache[k].data == disk[k]
    ensures Inv(disk, cache - {k}, Without(lru, k), lists, r.(leaving := r.leaving - {k}), users, touched)
    ensures Contents(disk, cache - {k}) == Contents(disk, cache) && |Without(lru, k)| == |lru| - 1
  {
    assert Look(cache, 0);
    UnpinnedIsIdle(disk, cache, r, users, touched, k);
    DropBuf(cache, k);
    LruEvict(cache.Keys, lru, k);
    HeldEvict(cache.Keys, ValidKeys(cache), r, k);
    PinsEvict(cache, r, users, k);
    LeavingSet(cache - {k}, r, users, r.leaving - {k});
    DataDrop(disk, cache, r.batch, r.io, users, touched, k);
    assert Queued(cache - {k}, r.leaving - {k}) == Queued(cache, r.leaving);
  }

  /** An unpinned dirty block is taken off its list. */
  lemma LeaveKeeps(disk: map<Key, Sector>, cache: map<Key, Buf>, lru: seq<Key>, lists: seq<seq<Key>>, r: Traffic,
                   users: multiset<Key>, touched: set<Key>, k: Key)
    requires Inv(disk, cache, lru, lists, r, users, touched)
    requires k in cache && cache[k].refCount == 0 && cache[k].dirty && k !in r.leaving
    ensures Inv(disk, cache, lru, Unlink(lists, k), r.(leaving := r.leaving + {k}), users, touched)
  {
    assert Look(cache, 0);
    UnpinnedIsIdle(disk, cache, r, users, touched, k);
    QueuesEvict(Queued(cache, r.leaving), lists, r.sorted, k);
    LeavingSet(cache, r, users, r.leaving + {k});
    assert Queued(cache, r.leaving + {k}) == Queued(cache, r.leaving) - {k};
  }

  lemma DataWriteOut(disk: map<Key, Sector>, cache: map<Key, Buf>, batch: seq<Key>, io: seq<Sector>,
                     users: multiset<Key>, touched: set<Key>, k: Key)
    requires Data(disk, cache, batch, io, users, touched) && k in cache && cache[k].dirty
    ensures k in disk && Data(disk[k := cache[k].data], cache, batch, io, users, touched)
    ensures Contents(disk[k := cache[k].data], cache) == Contents(disk, cache)
  {
    assert Look(touched, 0);
  }

  /** A block that is leaving is written, whatever has happened to it since it was taken off its list. */
  lemma WriteOutKeeps(disk: map<Key, Sector>, cache: map<Key, Buf>, lru: seq<Key>, lists: seq<seq<Key>>, r: Traffic,
                      users: multiset<Key>, touched: set<Key>, k: Key)
    requires Inv(disk, cache, lru, lists, r, users, touched) && k in r.leaving
    ensures k in cache && cache[k].dirty && k in disk
    ensures Inv(disk[k := cache[k].data], cache, lru, lists, r, users, touched)
    ensures Contents(disk[k := cache[k].data], cache) == Contents(disk, cache)
  {
    assert Look(cache, 0);
    assert k in DirtyKeys(cache);
    DataWriteOut(disk, cache, r.batch, r.io, users, touched, k);
  }

  /**
   `getblk` gives up the lock while it writes a dirty victim, and drops it when the lock is back. Every invariant and
   what is read survive exactly when by then nobody has the block pinned and its bytes are the ones on the disk.
   */
  lemma DropSurvivesIff(disk: map<Key, Sector>, cache: map<Key, Buf>, lru: seq<Key>, lists: seq<seq<Key>>, r: Traffic,
                        users: multiset<Key>, touched: set<Key>, k: Key)
    requires Inv(disk, cache, lru, lists, r, users, touched) && k in r.leaving
    ensures k in cache && k in disk
    ensures Inv(disk, cache - {k}, Without(lru, k), lists, r.(leaving := r.leaving - {k}), users, touched)
            && Contents(disk, cache - {k}) == Contents(disk, cache)
       <==> cache[k].refCount == 0 && cache[k].data == disk[k]
  {
    WriteOutKeeps(disk, cache, lru, lists, r, users, touched, k);
    if cache[k].refCount == 0 && cache[k].data == disk[k] {
      DropKeeps(disk, cache, lru, lists, r, users, touched, k);
    } else if cache[k].refCount == 0 {
      DirtyIsValid(disk, cache, lru, lists, r, users, touched, k);
      assert Contents(disk, cache)[k] != Contents(disk, cache - {k})[k];
    } else if Inv(disk, cache - {k}, Without(lru, k), lists, r.(leaving := r.leaving - {k}), users, touched) {
      PinnedIsCached(disk, cache - {k}, Without(lru, k), lists, r.(leaving := r.leaving - {k}), users, touched, k);
      PinnedIsCached(disk, cache, lru, lists, r, users, touched, k);
    }
  }

  lemma DirtyIsValid(disk: map<Key, Sector>, cache: map<Key, Buf>, lru: seq<Key>, lists: seq<seq<Key>>, r: Traffic,
                     users: multiset<Key>, touched: set<Key>, k: Key)
    requires Inv(disk, cache, lru, lists, r, users, touched) && k in cache && cache[k].dirty
    ensures cache[k].valid
  {
    assert Look(cache, 0) && Look(touched, 0);
  }

  lemma PinnedIsCached(disk: map<Key, Sector>, cache: map<Key, Buf>, lru: seq<Key>, lists: seq<seq<Key>>, r: Traffic,
                       users: multiset<Key>, touched: set<Key>, k: Key)
    requires Inv(disk, cache, lru, lists, r, users, touched)
    ensures k in users || r.Holds(k) ==> k in cache
    ensures k in cache && cache[k].refCount > 0 ==> k in users || r.Holds(k)
  {
    assert Look(cache, 0) && Look(users, 0) && Look(r, 0);
  }

  // ---- Pinning ----

  /** Changing one buffer and the number of callers that have it. */
  lemma PinsSet(cache: map<Key, Buf>, r: Traffic, users: multiset<Key>, users': multiset<Key>, k: Key, b: Buf)
    requires Pins(cache, r, users)
    requires b.refCount == users'[k] + if r.Holds(k) then 1 else 0
    requires forall k' :: k' != k ==> users'[k'] == users[k']
    ensures Pins(cache[k := b], r, users')
  {
    assert Look(users, 0);
  }

  lemma PinsAt(cache: map<Key, Buf>, r: Traffic, users: multiset<Key>, k: Key)
    requires Pins(cache, r, users)
    ensures k in users ==> k in cache
    ensures k in cache ==> cache[k].refCount == users[k] + if r.Holds(k) then 1 else 0
  {
    assert Look(users, 0);
  }

  /** Nothing about the bytes changes. */
  lemma DataSame(disk: map<Key, Sector>, cache: map<Key, Buf>, batch: seq<Key>, io: seq<Sector>,
                 users: multiset<Key>, users': multiset<Key>, touched: set<Key>, k: Key, b: Buf)
    requires Data(disk, cache, batch, io, users, touched) && k in cache
    requires b.data == cache[k].data && b.dirty == cache[k].dirty && b.valid == cache[k].valid
    requires forall k' :: k' in users && k' in touched ==> k' in users'
    ensures Data(disk, cache[k := b], batch, io, users', touched)
    ensures Contents(disk, cache[k := b]) == Contents(disk, cache)
  {
    assert Look(touched, 0);
    ContentsSame(disk, cache, k, b);
  }

  lemma ContentsSame(disk: map<Key, Sector>, cache: map<Key, Buf>, k: Key, b: Buf)
    requires k in cache && b.data == cache[k].data && b.valid == cache[k].valid
    ensures Contents(disk, cache[k := b]) == Contents(disk, cache)
  {
  }

  lemma LruHit(cached: set<Key>, lru: seq<Key>, k: Key)
    requires Lru(cached, lru) && k in cached
    ensures Lru(cached, Without(lru, k) + [k])
  {
    assert Look(lru, 0);
    WithoutRemovesOne(lru, k);
  }

  lemma HitKeeps(disk: map<Key, Sector>, cache: map<Key, Buf>, lru: seq<Key>, lists: seq<seq<Key>>, r: Traffic,
                 users: multiset<Key>, touched: set<Key>, k: Key)
    requires Inv(disk, cache, lru, lists, r, users, touched) && k in cache
    ensures var cache' := cache[k := cache[k].(refCount := cache[k].refCount + 1)];
            && Inv(disk, cache', Without(lru, k) + [k], lists, r, users + multiset{k}, touched)
            && Contents(disk, cache') == Contents(disk, cache)
            && |Without(lru, k)| == |lru| - 1
  {
    assert Look(cache, 0);
    var b := cache[k].(refCount := cache[k].refCount + 1);
    LruHit(cache.Keys, lru, k);
    LruEvict(cache.Keys, lru, k);
    SameBits(cache, k, b);
    PinsAt(cache, r, users, k);
    PinsSet(cache, r, users, users + multiset{k}, k, b);
    DataSame(disk, cache, r.batch, r.io, users, users + multiset{k}, touched, k, b);
  }

  /** One more pin, as after the second lookup, which leaves the block where it is in the list. */
  lemma AgainKeeps(disk: map<Key, Sector>, cache: map<Key, Buf>, lru: seq<Key>, lists: seq<seq<Key>>, r: Traffic,
                   users: multiset<Key>, touched: set<Key>, k: Key)
    requires Inv(disk, cache, lru, lists, r, users, touched) && k in cache
    ensures var cache' := cache[k := cache[k].(refCount := cache[k].refCount + 1)];
            && Inv(disk, cache', lru, lists, r, users + multiset{k}, touched)
            && Contents(disk, cache') == Contents(disk, cache)
  {
    assert Look(cache, 0);
    var b := cache[k].(refCount := cache[k].refCount + 1);
    SameBits(cache, k, b);
    PinsAt(cache, r, users, k);
    PinsSet(cache, r, users, users + multiset{k}, k, b);
    DataSame(disk, cache, r.batch, r.io, users, users + multiset{k}, touched, k, b);
  }

  lemma LruInsert(cached: set<Key>, lru: seq<Key>, k: Key)
    requires Lru(cached, lru) && k !in cached
    ensures Lru(cached + {k}, lru + [k])
  {
    assert Look(lru, 0);
  }

  lemma DataInsert(disk: map<Key, Sector>, cache: map<Key, Buf>, batch: seq<Key>, io: seq<Sector>,
                   users: multiset<Key>, users': multiset<Key>, touched: set<Key>, k: Key, b: Buf)
    requires Data(disk, cache, batch, io, users, touched) && k !in cache && k in disk && !b.dirty && !b.valid
             && users <= users'
    ensures Data(disk, cache[k := b], batch, io, users', touched)
    ensures Contents(disk, cache[k := b]) == Contents(disk, cache)
  {
    assert Look(touched, 0);
  }

  lemma HeldGrow(cached: set<Key>, valid: set<Key>, cached': set<Key>, valid': set<Key>, r: Traffic)
    requires Held(cached, valid, r) && cached <= cached' && valid <= valid'
    ensures Held(cached', valid', r)
  {
    assert Look(r, 0);
  }

  lemma UncachedIsIdle(cache: map<Key, Buf>, valid: set<Key>, r: Traffic, users: multiset<Key>, k: Key)
    requires Held(cache.Keys, valid, r) && Pins(cache, r, users) && k !in cache
    ensures !r.Holds(k) && users[k] == 0
  {
    assert Look(r, 0) && Look(users, 0);
  }

  lemma InsertKeeps(disk: map<Key, Sector>, cache: map<Key, Buf>, lru: seq<Key>, lists: seq<seq<Key>>, r: Traffic,
                    users: multiset<Key>, touched: set<Key>, k: Key, data: Sector)
    requires Inv(disk, cache, lru, lists, r, users, touched) && k !in cache && k in disk
    ensures var cache' := cache[k := Buf(data, false, false, 1)];
            && Inv(disk, cache', lru + [k], lists, r, users + multiset{k}, touched)
            && Contents(disk, cache') == Contents(disk, cache)
  {
    assert Look(cache, 0);
    var b := Buf(data, false, false, 1);
    LruInsert(cache.Keys, lru, k);
    SetBuf(cache, k, b);
    assert k !in DirtyKeys(cache) && k !in ValidKeys(cache);
    assert DirtyKeys(cache[k := b]) == DirtyKeys(cache) && ValidKeys(cache[k := b]) == ValidKeys(cache);
    UncachedIsIdle(cache, ValidKeys(cache), r, users, k);
    HeldGrow(cache.Keys, ValidKeys(cache), cache.Keys + {k}, ValidKeys(cache), r);
    PinsSet(cache, r, users, users + multiset{k}, k, b);
    DataInsert(disk, cache, r.batch, r.io, users, users + multiset{k}, touched, k, b);
  }

  lemma ReleaseKeeps(disk: map<Key, Sector>, cache: map<Key, Buf>, lru: seq<Key>, lists: seq<seq<Key>>, r: Traffic,
                     users: multiset<Key>, touched: set<Key>, k: Key)
    requires Inv(disk, cache, lru, lists, r, users, touched) && k in users && (k in touched ==> users[k] > 1)
    ensures k in cache && cache[k].refCount > 0
    ensures var cache' := cache[k := cache[k].(refCount := cache[k].refCount - 1)];
            && Inv(disk, cache', lru, lists, r, users - multiset{k}, touched)
            && Contents(disk, cache') == Contents(disk, cache)
  {
    assert Look(cache, 0);
    PinsAt(cache, r, users, k);
    var b := cache[k].(refCount := cache[k].refCount - 1);
    SameBits(cache, k, b);
    PinsSet(cache, r, users, users - multiset{k}, k, b);
    DataSame(disk, cache, r.batch, r.io, users, users - multiset{k}, touched, k, b);
  }

  // ---- Reading and writing a pinned block ----

  lemma DataFill(disk: map<Key, Sector>, cache: map<Key, Buf>, batch: seq<Key>, io: seq<Sector>,
                 users: multiset<Key>, touched: set<Key>, k: Key)
    requires Data(disk, cache, batch, io, users, touched) && k in cache && !cache[k].valid && k !in batch
    ensures k in disk && !cache[k].dirty
    ensures var cache' := cache[k := Buf(disk[k], false, true, cache[k].refCount)];
            Data(disk, cache', batch, io, users, touched) && Contents(disk, cache') == Contents(disk, cache)
  {
    assert Look(touched, 0);
  }

  lemma BatchIsValid(cached: set<Key>, valid: set<Key>, r: Traffic, k: Key)
    requires Held(cached, valid, r) && k in r.batch
    ensures k in valid
  {
    assert Look(r, 0);
  }

  lemma FillKeeps(disk: map<Key, Sector>, cache: map<Key, Buf>, lru: seq<Key>, lists: seq<seq<Key>>, r: Traffic,
                  users: multiset<Key>, touched: set<Key>, k: Key)
    requires Inv(disk, cache, lru, lists, r, users, touched) && k in cache && !cache[k].valid
    ensures k in disk
    ensures var cache' := cache[k := Buf(disk[k], false, true, cache[k].refCount)];
            && Inv(disk, cache', lru, lists, r, users, touched)
            && Contents(disk, cache') == Contents(disk, cache)
  {
    assert Look(cache, 0);
    if k in r.batch {
      BatchIsValid(cache.Keys, ValidKeys(cache), r, k);
    }
    DataFill(disk, cache, r.batch, r.io, users, touched, k);
    var b := Buf(disk[k], false, true, cache[k].refCount);
    SetBuf(cache, k, b);
    assert DirtyKeys(cache[k := b]) == DirtyKeys(cache);
    assert cache[k := b].Keys == cache.Keys;
    HeldGrow(cache.Keys, ValidKeys(cache), cache.Keys, ValidKeys(cache) + {k}, r);
    assert ValidKeys(cache[k := b]) == ValidKeys(cache) + {k};
    PinsAt(cache, r, users, k);
    PinsSet(cache, r, users, users, k, b);
  }

  /** Bytes put into a buffer whose bytes do not count. */
  lemma StoreKeeps(disk: map<Key, Sector>, cache: map<Key, Buf>, lru: seq<Key>, lists: seq<seq<Key>>, r: Traffic,
                   users: multiset<Key>, touched: set<Key>, k: Key, data: Sector)
    requires Inv(disk, cache, lru, lists, r, users, touched) && k in cache && !cache[k].valid
    ensures var cache' := cache[k := cache[k].(data := data)];
            && Inv(disk, cache', lru, lists, r, users, touched)
            && Contents(disk, cache') == Contents(disk, cache)
  {
    assert Look(cache, 0);
    if k in r.batch {
      BatchIsValid(cache.Keys, ValidKeys(cache), r, k);
    }
    var b := cache[k].(data := data);
    SameBits(cache, k, b);
    PinsAt(cache, r, users, k);
    PinsSet(cache, r, users, users, k, b);
    DataStore(disk, cache, r.batch, r.io, users, touched, k, data);
  }

  lemma DataStore(disk: map<Key, Sector>, cache: map<Key, Buf>, batch: seq<Key>, io: seq<Sector>,
                  users: multiset<Key>, touched: set<Key>, k: Key, data: Sector)
    requires Data(disk, cache, batch, io, users, touched) && k in cache && !cache[k].valid && k !in batch
    ensures var cache' := cache[k := cache[k].(data := data)];
            Data(disk, cache', batch, io, users, touched) && Contents(disk, cache') == Contents(disk, cache)
  {
    assert Look(touched, 0);
  }

  /**
   `_bread` and `bread_multi` test the valid flag, put in bytes they read from the disk and set the flag, all without
   the lock. When the bytes go in, every invariant and what is read survive exactly when the bytes in the buffer do not
   count, or are those very bytes.
   */
  lemma StoreSurvivesIff(disk: map<Key, Sector>, cache: map<Key, Buf>, lru: seq<Key>, lists: seq<seq<Key>>, r: Traffic,
                         users: multiset<Key>, touched: set<Key>, k: Key, data: Sector)
    requires Inv(disk, cache, lru, lists, r, users, touched) && k in cache
    ensures (var cache' := cache[k := cache[k].(data := data)];
             Inv(disk, cache', lru, lists, r, users, touched) && Contents(disk, cache') == Contents(disk, cache))
       <==> (cache[k].valid ==> cache[k].data == data)
  {
    CachedOnDisk(disk, cache, lru, lists, r, users, touched, k);
    var cache' := cache[k := cache[k].(data := data)];
    if !cache[k].valid {
      StoreKeeps(disk, cache, lru, lists, r, users, touched, k, data);
    } else if cache[k].data != data {
      assert Contents(disk, cache')[k] != Contents(disk, cache)[k];
    } else {
      assert cache' == cache;
    }
  }

  /** When the flag is set, they survive exactly when the bytes counted before, or are the ones on the disk. */
  lemma FlagSurvivesIff(disk: map<Key, Sector>, cache: map<Key, Buf>, lru: seq<Key>, lists: seq<seq<Key>>, r: Traffic,
                        users: multiset<Key>, touched: set<Key>, k: Key)
    requires Inv(disk, cache, lru, lists, r, users, touched) && k in cache
    ensures k in disk
    ensures (var cache' := cache[k := cache[k].(valid := true)];
             Inv(disk, cache', lru, lists, r, users, touched) && Contents(disk, cache') == Contents(disk, cache))
       <==> cache[k].valid || cache[k].data == disk[k]
  {
    CachedOnDisk(disk, cache, lru, lists, r, users, touched, k);
    var cache' := cache[k := cache[k].(valid := true)];
    if cache[k].valid {
      assert cache' == cache;
    } else if cache[k].data != disk[k] {
      assert Contents(disk, cache')[k] != Contents(disk, cache)[k];
    } else {
      EmptyIsClean(disk, cache, lru, lists, r, users, touched, k);
      FillKeeps(disk, cache, lru, lists, r, users, touched, k);
      assert cache' == cache[k := Buf(disk[k], false, true, cache[k].refCount)];
    }
  }

  /** When `_bread` clears the dirty flag at last, they survive exactly when it is clear already. */
  lemma CleanSurvivesIff(disk: map<Key, Sector>, cache: map<Key, Buf>, lru: seq<Key>, lists: seq<seq<Key>>, r: Traffic,
                         users: multiset<Key>, touched: set<Key>, k: Key)
    requires Inv(disk, cache, lru, lists, r, users, touched) && k in cache
    ensures (var cache' := cache[k := cache[k].(dirty := false)];
             Inv(disk, cache', lru, lists, r, users, touched) && Contents(disk, cache') == Contents(disk, cache))
       <==> !cache[k].dirty
  {
    var cache' := cache[k := cache[k].(dirty := false)];
    if !cache[k].dirty {
      assert cache' == cache;
    } else if Inv(disk, cache', lru, lists, r, users, touched) {
      DirtyIsQueued(disk, cache, lru, lists, r, users, touched, k);
      DirtyIsQueued(disk, cache', lru, lists, r, users, touched, k);
    }
  }

  lemma DirtyIsQueued(disk: map<Key, Sector>, cache: map<Key, Buf>, lru: seq<Key>, lists: seq<seq<Key>>, r: Traffic,
                      users: multiset<Key>, touched: set<Key>, k: Key)
    requires Inv(disk, cache, lru, lists, r, users, touched) && k in cache
    ensures cache[k].dirty <==> k in r.leaving || InLists(lists, k) || k in r.sorted
  {
    assert Look(cache, 0) && Look(lists, 0);
    assert k in r.leaving ==> k in DirtyKeys(cache);
  }

  lemma DataCopyIn(disk: map<Key, Sector>, cache: map<Key, Buf>, batch: seq<Key>, io: seq<Sector>,
                   users: multiset<Key>, touched: set<Key>, k: Key, data: Sector)
    requires Data(disk, cache, batch, io, users, touched) && k in cache && k in users
    ensures var cache' := cache[k := cache[k].(data := data, valid := true)];
            && Data(disk, cache', batch, io, users, touched + {k})
            && Contents(disk, cache') == Contents(disk, cache)[k := data]
  {
    assert Look(touched, 0);
  }

  lemma CopyInKeeps(disk: map<Key, Sector>, cache: map<Key, Buf>, lru: seq<Key>, lists: seq<seq<Key>>, r: Traffic,
                    users: multiset<Key>, touched: set<Key>, k: Key, data: Sector)
    requires Inv(disk, cache, lru, lists, r, users, touched) && k in users
    ensures k in cache
    ensures var cache' := cache[k := cache[k].(data := data, valid := true)];
            && Inv(disk, cache', lru, lists, r, users, touched + {k})
            && Contents(disk, cache') == Contents(disk, cache)[k := data]
  {
    assert Look(cache, 0);
    PinsAt(cache, r, users, k);
    var b := cache[k].(data := data, valid := true);
    DataCopyIn(disk, cache, r.batch, r.io, users, touched, k, data);
    SetBuf(cache, k, b);
    assert DirtyKeys(cache[k := b]) == DirtyKeys(cache);
    assert cache[k := b].Keys == cache.Keys;
    HeldGrow(cache.Keys, ValidKeys(cache), cache.Keys, ValidKeys(cache) + {k}, r);
    assert ValidKeys(cache[k := b]) == ValidKeys(cache) + {k};
    PinsSet(cache, r, users, users, k, b);
  }

  lemma PushOk(lists: seq<seq<Key>>, i: nat, k: Key)
    requires ListsOk(lists) && i < |lists| && i / 2 == k.dev && !InLists(lists, k)
    ensures ListsOk(lists[i := lists[i] + [k]])
    ensures forall k' :: InLists(lists[i := lists[i] + [k]], k') <==> InLists(lists, k') || k' == k
  {
    var lists' := lists[i := lists[i] + [k]];
    assert forall j :: 0 <= j < |lists| ==> k !in lists[j];
    forall k'
      ensures InLists(lists', k') <==> InLists(lists, k') || k' == k
    {
      if InLists(lists, k') {
        var j :| 0 <= j < |lists| && k' in lists[j];
        assert k' in lists'[j];
      }
      assert k in lists'[i];
    }
  }

  lemma QueuesPush(dirty: set<Key>, lists: seq<seq<Key>>, sorted: seq<Key>, k: Key, i: nat)
    requires Queues(dirty, lists, sorted) && k !in dirty && i < |lists| && i / 2 == k.dev
    ensures Queues(dirty + {k}, lists[i := lists[i] + [k]], sorted)
  {
    assert Look(lists, 0);
    PushOk(lists, i, k);
  }

  lemma DataMark(disk: map<Key, Sector>, cache: map<Key, Buf>, batch: seq<Key>, io: seq<Sector>,
                 users: multiset<Key>, touched: set<Key>, k: Key)
    requires Data(disk, cache, batch, io, users, touched) && k in cache && cache[k].valid
    ensures var cache' := cache[k := cache[k].(dirty := true)];
            Data(disk, cache', batch, io, users, touched - {k}) && Contents(disk, cache') == Contents(disk, cache)
  {
    assert Look(touched, 0);
  }

  /** Marking a block dirty queues it, unless it is queued already. */
  lemma MarkKeeps(disk: map<Key, Sector>, cache: map<Key, Buf>, lru: seq<Key>, lists: seq<seq<Key>>, r: Traffic,
                  users: multiset<Key>, touched: set<Key>, k: Key, i: nat)
    requires Inv(disk, cache, lru, lists, r, users, touched) && k in cache && cache[k].valid
    requires i < |lists| && i / 2 == k.dev
    ensures var cache' := cache[k := cache[k].(dirty := true)];
            && Inv(disk, cache', lru, if cache[k].dirty then lists else lists[i := lists[i] + [k]], r, users,
                   touched - {k})
            && Contents(disk, cache') == Contents(disk, cache)
  {
    assert Look(cache, 0);
    var b := cache[k].(dirty := true);
    DataMark(disk, cache, r.batch, r.io, users, touched, k);
    SetBuf(cache, k, b);
    assert DirtyKeys(cache[k := b]) == DirtyKeys(cache) + {k} && ValidKeys(cache[k := b]) == ValidKeys(cache);
    assert cache[k := b].Keys == cache.Keys;
    if !cache[k].dirty {
      QueuesPush(Queued(cache, r.leaving), lists, r.sorted, k, i);
      assert Queued(cache[k := b], r.leaving) == Queued(cache, r.leaving) + {k};
    } else {
      assert DirtyKeys(cache[k := b]) == DirtyKeys(cache);
    }
    PinsAt(cache, r, users, k);
    PinsSet(cache, r, users, users, k, b);
  }

  // ---- The write-back thread ----

  /** `dlist_insert_order`: in front of the first block with a larger sector number. */
  function InsertOrder(s: seq<Key>, k: Key): seq<Key> {
    if s == [] || s[0].lba > k.lba then [k] + s else [s[0]] + InsertOrder(s[1..], k)
  }

  lemma AscendingCons(x: Key, s: seq<Key>)
    requires Ascending(s) && forall y :: y in s ==> x.dev == y.dev && x.lba < y.lba
    ensures Ascending([x] + s)
  {
    assert forall j :: 0 <= j < |s| ==> s[j] in s;
  }

  lemma {:induction false} InsertOrderSorts(s: seq<Key>, k: Key)
    requires Ascending(s) && k !in s && forall x :: x in s ==> x.dev == k.dev
    ensures Ascending(InsertOrder(s, k)) && forall x :: x in InsertOrder(s, k) <==> x in s || x == k
  {
    if s == [] {
    } else {
      assert s == [s[0]] + s[1..];
      assert s[0] in s && forall x :: x in s[1..] ==> s[0].lba < x.lba;
      if s[0].lba > k.lba {
        AscendingCons(k, s);
      } else {
        InsertOrderSorts(s[1..], k);
        AscendingCons(s[0], InsertOrder(s[1..], k));
      }
    }
  }

  lemma TailOf(s: seq<Key>)
    requires NoDup(s) && s != []
    ensures NoDup(s[1..]) && forall x :: x in s[1..] <==> x in s && x != s[0]
  {
    assert s == [s[0]] + s[1..];
  }

  lemma PopOk(lists: seq<seq<Key>>, i: nat)
    requires ListsOk(lists) && i < |lists| && lists[i] != []
    ensures ListsOk(lists[i := lists[i][1..]])
    ensures lists[i][0].dev == i / 2
    ensures forall k' :: InLists(lists[i := lists[i][1..]], k') <==> InLists(lists, k') && k' != lists[i][0]
  {
    var lists' := lists[i := lists[i][1..]];
    var k := lists[i][0];
    assert k in lists[i];
    TailOf(lists[i]);
    forall j | 0 <= j < |lists|
      ensures NoDup(lists'[j]) && forall k' :: k' in lists'[j] <==> k' in lists[j] && k' != k
    {
      assert j != i ==> k !in lists[j];
    }
  }

  /** `s'` is `s` with `k` put in its place. */
  ghost predicate Inserted(s: seq<Key>, s': seq<Key>, k: Key) {
    forall u :: Look(s', u) ==> Ascending(s') && forall x :: x in s' <==> x in s || x == k
  }

  ghost predicate OnDevice(s: seq<Key>, dev: nat) {
    forall u :: Look(s, u) ==> forall x :: x in s ==> x.dev == dev
  }

  lemma InsertedOnDevice(s: seq<Key>, s': seq<Key>, k: Key, dev: nat)
    requires Inserted(s, s', k) && OnDevice(s, dev) && k.dev == dev
    ensures OnDevice(s', dev)
  {
    assert Look(s, 0) && Look(s', 0);
  }

  lemma QueuesCollect(dirty: set<Key>, cached: set<Key>, valid: set<Key>, lists: seq<seq<Key>>, r: Traffic, i: nat)
    requires Queues(dirty, lists, r.sorted) && i < |lists| && lists[i] != [] && Held(cached, valid, r)
             && OnDevice(r.sorted, i / 2)
    ensures var k := lists[i][0];
            && k !in r.sorted && k in dirty && k.dev == i / 2
            && Inserted(r.sorted, InsertOrder(r.sorted, k), k)
            && Queues(dirty, lists[i := lists[i][1..]], InsertOrder(r.sorted, k))
  {
    assert Look(lists, 0) && Look(r.sorted, 0) && Look(r, 0);
    var k := lists[i][0];
    assert k in lists[i];
    PopOk(lists, i);
    InsertOrderSorts(r.sorted, k);
  }

  lemma HeldCollect(cached: set<Key>, valid: set<Key>, r: Traffic, sorted': seq<Key>, k: Key)
    requires Held(cached, valid, r) && r.batch == [] && r.flushed == [] && k in cached && Inserted(r.sorted, sorted', k)
    ensures Held(cached, valid, r.(sorted := sorted'))
  {
    assert Look(r, 0) && Look(sorted', 0);
  }

  lemma HeldIsAscending(cached: set<Key>, valid: set<Key>, r: Traffic)
    requires Held(cached, valid, r)
    ensures Ascending(r.sorted) && Run(r.batch) && NoDup(r.flushed) && |r.io| <= |r.batch| <= MAX_BATCH
    ensures forall k :: r.Holds(k) ==> k in cached
    ensures forall k :: k in r.batch ==> k in valid
  {
    assert Look(r, 0);
  }

  lemma PinsCollect(cache: map<Key, Buf>, r: Traffic, sorted': seq<Key>, users: multiset<Key>, k: Key)
    requires Pins(cache, r, users) && k in cache && !r.Holds(k) && Inserted(r.sorted, sorted', k)
    ensures Pins(cache[k := cache[k].(refCount := cache[k].refCount + 1)], r.(sorted := sorted'), users)
  {
    assert Look(users, 0) && Look(sorted', 0);
  }

  lemma CollectParts(disk: map<Key, Sector>, cache: map<Key, Buf>, lru: seq<Key>, lists: seq<seq<Key>>, r: Traffic,
                     users: multiset<Key>, touched: set<Key>, k: Key, sorted': seq<Key>)
    requires Lru(cache.Keys, lru) && Held(cache.Keys, ValidKeys(cache), r) && Pins(cache, r, users)
    requires Data(disk, cache, r.batch, r.io, users, touched) && r.batch == [] && r.flushed == []
    requires Queues(Queued(cache, r.leaving), lists, sorted') && r.leaving <= DirtyKeys(cache) && k in cache
             && k !in r.sorted && Inserted(r.sorted, sorted', k)
    ensures var cache' := cache[k := cache[k].(refCount := cache[k].refCount + 1)];
            && Inv(disk, cache', lru, lists, r.(sorted := sorted'), users, touched)
            && Contents(disk, cache') == Contents(disk, cache)
  {
    var b := cache[k].(refCount := cache[k].refCount + 1);
    SameBits(cache, k, b);
    HeldCollect(cache.Keys, ValidKeys(cache), r, sorted', k);
    PinsCollect(cache, r, sorted', users, k);
    DataSame(disk, cache, r.batch, r.io, users, users, touched, k, b);
  }

  /** The thread pins a queued block and puts it in its place. */
  lemma CollectKeeps(disk: map<Key, Sector>, cache: map<Key, Buf>, lru: seq<Key>, lists: seq<seq<Key>>, r: Traffic,
                     users: multiset<Key>, touched: set<Key>, i: nat)
    requires Inv(disk, cache, lru, lists, r, users, touched) && i < |lists| && lists[i] != []
    requires r.batch == [] && r.io == [] && r.flushed == [] && OnDevice(r.sorted, i / 2)
    ensures var k := lists[i][0];
            && k in cache
            && var cache' := cache[k := cache[k].(refCount := cache[k].refCount + 1)];
            var r' := r.(sorted := InsertOrder(r.sorted, k));
            && Inv(disk, cache', lru, lists[i := lists[i][1..]], r', users, touched)
            && Contents(disk, cache') == Contents(disk, cache)
            && OnDevice(r'.sorted, i / 2)
  {
    assert Look(cache, 0);
    var k := lists[i][0];
    QueuesCollect(Queued(cache, r.leaving), cache.Keys, ValidKeys(cache), lists, r, i);
    InsertedOnDevice(r.sorted, InsertOrder(r.sorted, k), k, i / 2);
    CollectParts(disk, cache, lru, lists[i := lists[i][1..]], r, users, touched, k, InsertOrder(r.sorted, k));
  }

  function ClearDirty(cache: map<Key, Buf>, ks: seq<Key>): map<Key, Buf> {
    map k | k in cache :: if k in ks then cache[k].(dirty := false) else cache[k]
  }

  lemma AscendingIsDistinct(s: seq<Key>, c: nat, k: Key)
    requires Ascending(s) && c <= |s|
    ensures k in s <==> k in s[..c] || k in s[c..]
    ensures k in s[..c] ==> k !in s[c..]
    ensures Ascending(s[c..])
  {
    assert s == s[..c] + s[c..];
  }

  lemma QueuesTake(dirty: set<Key>, dirty': set<Key>, lists: seq<seq<Key>>, sorted: seq<Key>, c: nat)
    requires Queues(dirty, lists, sorted) && Ascending(sorted) && c <= |sorted|
    requires forall k :: k in dirty' <==> k in dirty && k !in sorted[..c]
    ensures Queues(dirty', lists, sorted[c..])
    ensures forall k :: k in sorted ==> k in dirty
  {
    assert Look(lists, 0);
    forall k
      ensures k in sorted <==> k in sorted[..c] || k in sorted[c..]
      ensures k in sorted[..c] ==> k !in sorted[c..]
    {
      AscendingIsDistinct(sorted, c, k);
    }
  }

  lemma HeldTake(cached: set<Key>, valid: set<Key>, r: Traffic, c: nat)
    requires Held(cached, valid, r) && r.batch == [] && r.io == [] && r.flushed == []
    requires c <= |r.sorted| && c <= MAX_BATCH && Run(r.sorted[..c]) && forall k :: k in r.sorted ==> k in valid
    ensures var r' := r.(sorted := r.sorted[c..], batch := r.sorted[..c], io := [], flushed := []);
            Held(cached, valid, r') && forall k :: r'.Holds(k) <==> r.Holds(k)
  {
    assert Look(r, 0);
    forall k
      ensures k in r.sorted <==> k in r.sorted[..c] || k in r.sorted[c..]
      ensures k in r.sorted[..c] ==> k !in r.sorted[c..]
      ensures Ascending(r.sorted[c..])
    {
      AscendingIsDistinct(r.sorted, c, k);
    }
  }

  lemma PinsTake(cache: map<Key, Buf>, r: Traffic, r': Traffic, users: multiset<Key>, ks: seq<Key>)
    requires Pins(cache, r, users) && forall k :: r'.Holds(k) <==> r.Holds(k)
    ensures Pins(ClearDirty(cache, ks), r', users)
  {
    assert Look(users, 0);
  }

  lemma DataTake(disk: map<Key, Sector>, cache: map<Key, Buf>, batch: seq<Key>, users: multiset<Key>, touched: set<Key>)
    requires Data(disk, cache, [], [], users, touched)
    ensures Data(disk, ClearDirty(cache, batch), batch, [], users, touched)
    ensures Contents(disk, ClearDirty(cache, batch)) == Contents(disk, cache)
    ensures DirtyKeys(cache) <= ValidKeys(cache)
  {
    assert Look(touched, 0);
  }

  lemma ClearBits(cache: map<Key, Buf>, ks: seq<Key>)
    ensures ClearDirty(cache, ks).Keys == cache.Keys && ValidKeys(ClearDirty(cache, ks)) == ValidKeys(cache)
    ensures forall k :: k in DirtyKeys(ClearDirty(cache, ks)) <==> k in DirtyKeys(cache) && k !in ks
  {
  }

  /** A run of consecutive blocks is taken and marked clean before it is copied. */
  lemma TakeKeeps(disk: map<Key, Sector>, cache: map<Key, Buf>, lru: seq<Key>, lists: seq<seq<Key>>, r: Traffic,
                  users: multiset<Key>, touched: set<Key>, c: nat)
    requires Inv(disk, cache, lru, lists, r, users, touched) && r.batch == [] && r.io == [] && r.flushed == []
    requires c <= |r.sorted| && c <= MAX_BATCH && Run(r.sorted[..c])
    ensures var cache', r' := ClearDirty(cache, r.sorted[..c]), r.(sorted := r.sorted[c..], batch := r.sorted[..c],
                                                                   io := [], flushed := []);
            && Inv(disk, cache', lru, lists, r', users, touched)
            && Contents(disk, cache') == Contents(disk, cache)
  {
    assert Look(cache, 0);
    var ks := r.sorted[..c];
    HeldIsAscending(cache.Keys, ValidKeys(cache), r);
    ClearBits(cache, ks);
    QueuesTake(Queued(cache, r.leaving), Queued(ClearDirty(cache, ks), r.leaving), lists, r.sorted, c);
    DataTake(disk, cache, ks, users, touched);
    HeldTake(cache.Keys, ValidKeys(cache), r, c);
    PinsTake(cache, r, r.(sorted := r.sorted[c..], batch := ks, io := [], flushed := []), users, ks);
  }

  lemma DataCopyOut(disk: map<Key, Sector>, cache: map<Key, Buf>, batch: seq<Key>, io: seq<Sector>,
                    users: multiset<Key>, touched: set<Key>)
    requires Data(disk, cache, batch, io, users, touched) && |io| < |batch| && batch[|io|] in cache
    ensures Data(disk, cache, batch, io + [cache[batch[|io|]].data], users, touched)
  {
    assert Look(touched, 0);
  }

  lemma CopyOutKeeps(disk: map<Key, Sector>, cache: map<Key, Buf>, lru: seq<Key>, lists: seq<seq<Key>>, r: Traffic,
                     users: multiset<Key>, touched: set<Key>)
    requires Inv(disk, cache, lru, lists, r, users, touched) && |r.io| < |r.batch|
    ensures r.batch[|r.io|] in cache
    ensures Inv(disk, cache, lru, lists, r.(io := r.io + [cache[r.batch[|r.io|]].data]), users, touched)
  {
    assert Look(cache, 0);
    HeldIsAscending(cache.Keys, ValidKeys(cache), r);
    assert r.batch[|r.io|] in r.batch && r.Holds(r.batch[|r.io|]);
    var r' := r.(io := r.io + [cache[r.batch[|r.io|]].data]);
    DataCopyOut(disk, cache, r.batch, r.io, users, touched);
    assert Held(cache.Keys, ValidKeys(cache), r') by {
      assert Look(r, 0);
    }
    assert Pins(cache, r', users) by {
      assert Look(users, 0);
    }
  }

  /** Sector `i` of a range. */
  function Nth(dev: nat, start: nat, i: nat): Key {
    Key(dev, start + i)
  }

  /** Nothing left the cache, and valid buffers are valid still. */
  ghost predicate Keeps(cache: map<Key, Buf>, cache': map<Key, Buf>) {
    forall k :: k in cache ==> k in cache' && (cache[k].valid ==> cache'[k].valid)
  }

  /** Nothing left the cache, and sectors `lo` to `hi` of a range have valid buffers (kept folded). */
  ghost predicate ReadIn(cache: map<Key, Buf>, cache': map<Key, Buf>, dev: nat, start: nat, lo: nat, hi: nat) {
    forall u :: Look(cache', u) ==>
      && Keeps(cache, cache')
      && forall j: nat :: lo <= j < hi ==> Nth(dev, start, j) in cache' && cache'[Nth(dev, start, j)].valid
  }

  lemma ReadInNext(cache0: map<Key, Buf>, cache: map<Key, Buf>, cache': map<Key, Buf>, dev: nat, start: nat, lo: nat,
                   hi: nat)
    requires ReadIn(cache0, cache, dev, start, lo, hi) && Keeps(cache, cache')
    requires Nth(dev, start, hi) in cache' && cache'[Nth(dev, start, hi)].valid
    ensures ReadIn(cache0, cache', dev, start, lo, hi + 1)
  {
    assert Look(cache, 0);
  }

  lemma ReadInOne(cache: map<Key, Buf>, cache': map<Key, Buf>, dev: nat, start: nat, i: nat)
    ensures Keeps(cache, cache') && Nth(dev, start, i) in cache' && cache'[Nth(dev, start, i)].valid ==>
              ReadIn(cache, cache', dev, start, i, i + 1)
  {
  }

  lemma ReadInLater(cache0: map<Key, Buf>, cache: map<Key, Buf>, cache': map<Key, Buf>, dev: nat, start: nat, lo: nat,
                    hi: nat)
    ensures Keeps(cache0, cache) && ReadIn(cache, cache', dev, start, lo, hi) ==>
              ReadIn(cache0, cache', dev, start, lo, hi)
  {
    assert Look(cache', 0);
  }

  lemma ReadInJoin(cache0: map<Key, Buf>, cache: map<Key, Buf>, cache': map<Key, Buf>, dev: nat, start: nat, mid: nat,
                   hi: nat)
    ensures ReadIn(cache0, cache, dev, start, 0, mid) && ReadIn(cache, cache', dev, start, mid, hi) ==>
              ReadIn(cache0, cache', dev, start, 0, hi)
  {
    assert Look(cache, 0) && Look(cache', 0);
  }

  /** `ide_write` of consecutive sectors from one buffer. */
  function WriteRun(disk: map<Key, Sector>, dev: nat, start: nat, io: seq<Sector>): map<Key, Sector> {
    map k | k in disk :: if k.dev == dev && start <= k.lba < start + |io| then io[k.lba - start] else disk[k]
  }

  lemma RunRange(batch: seq<Key>, k: Key)
    requires Run(batch) && batch != []
    ensures k in batch <==> k.dev == batch[0].dev && batch[0].lba <= k.lba < batch[0].lba + |batch|
    ensures k in batch ==> batch[k.lba - batch[0].lba] == k
  {
    if k in batch {
      var i :| 0 <= i < |batch| && batch[i] == k;
    }
    if k.dev == batch[0].dev && batch[0].lba <= k.lba < batch[0].lba + |batch| {
      assert batch[k.lba - batch[0].lba] == k;
    }
  }

  /** One write of a run is the same as single writes of its sectors. */
  lemma WriteRunAt(disk: map<Key, Sector>, batch: seq<Key>, io: seq<Sector>, k: Key)
    requires Run(batch) && batch != [] && |io| == |batch| && k in disk
    ensures k !in batch ==> WriteRun(disk, batch[0].dev, batch[0].lba, io)[k] == disk[k]
    ensures forall i :: 0 <= i < |batch| && batch[i] == k ==> WriteRun(disk, batch[0].dev, batch[0].lba, io)[k] == io[i]
  {
    RunRange(batch, k);
  }

  lemma DataWrite(disk: map<Key, Sector>, cache: map<Key, Buf>, batch: seq<Key>, io: seq<Sector>,
                  users: multiset<Key>, touched: set<Key>)
    requires Data(disk, cache, batch, io, users, touched) && |io| == |batch| > 0 && Run(batch)
    requires forall k :: k in batch ==> k in cache && cache[k].valid
    ensures var disk' := WriteRun(disk, batch[0].dev, batch[0].lba, io);
            && Data(disk', cache, [], [], users, touched)
            && Contents(disk', cache) == Contents(disk, cache)
  {
    assert Look(touched, 0);
    var disk' := WriteRun(disk, batch[0].dev, batch[0].lba, io);
    forall k | k in cache && cache[k].valid
      ensures Settled(disk'[k], cache[k], k in touched)
    {
      WriteRunAt(disk, batch, io, k);
      if k in batch {
        var i :| 0 <= i < |batch| && batch[i] == k;
        assert Settled(io[i], cache[batch[i]], batch[i] in touched);
      }
    }
    forall k | k in disk && !(k in cache && cache[k].valid)
      ensures disk'[k] == disk[k]
    {
      WriteRunAt(disk, batch, io, k);
    }
  }

  lemma HeldWrite(cached: set<Key>, valid: set<Key>, r: Traffic)
    requires Held(cached, valid, r) && r.flushed == []
    ensures var r' := r.(batch := [], io := [], flushed := r.batch);
            Held(cached, valid, r') && forall k :: r'.Holds(k) <==> r.Holds(k)
  {
    assert Look(r, 0);
  }

  lemma PinsSameHolds(cache: map<Key, Buf>, r: Traffic, r': Traffic, users: multiset<Key>)
    requires Pins(cache, r, users) && forall k :: r'.Holds(k) <==> r.Holds(k)
    ensures Pins(cache, r', users)
  {
    assert Look(users, 0);
  }

  /** The batch goes to the disk in one write. */
  lemma WriteKeeps(disk: map<Key, Sector>, cache: map<Key, Buf>, lru: seq<Key>, lists: seq<seq<Key>>, r: Traffic,
                   users: multiset<Key>, touched: set<Key>)
    requires Inv(disk, cache, lru, lists, r, users, touched) && |r.io| == |r.batch| > 0 && r.flushed == []
    ensures var disk' := WriteRun(disk, r.batch[0].dev, r.batch[0].lba, r.io);
            && Inv(disk', cache, lru, lists, r.(batch := [], io := [], flushed := r.batch), users, touched)
            && Contents(disk', cache) == Contents(disk, cache)
  {
    assert Look(cache, 0);
    HeldIsAscending(cache.Keys, ValidKeys(cache), r);
    DataWrite(disk, cache, r.batch, r.io, users, touched);
    HeldWrite(cache.Keys, ValidKeys(cache), r);
    PinsSameHolds(cache, r, r.(batch := [], io := [], flushed := r.batch), users);
  }

  function Unpinned(cache: map<Key, Buf>, ks: seq<Key>): map<Key, Buf> {
    map k | k in cache ::
      if k in ks && cache[k].refCount > 0 then cache[k].(refCount := cache[k].refCount - 1) else cache[k]
  }

  lemma UnpinKeeps(disk: map<Key, Sector>, cache: map<Key, Buf>, lru: seq<Key>, lists: seq<seq<Key>>, r: Traffic,
                   users: multiset<Key>, touched: set<Key>)
    requires Inv(disk, cache, lru, lists, r, users, touched)
    ensures forall k :: k in r.flushed ==> k in cache && cache[k].refCount > 0
    ensures Inv(disk, Unpinned(cache, r.flushed), lru, lists, r.(flushed := []), users, touched)
    ensures Contents(disk, Unpinned(cache, r.flushed)) == Contents(disk, cache)
  {
    assert Look(cache, 0);
    var cache' := Unpinned(cache, r.flushed);
    HeldIsAscending(cache.Keys, ValidKeys(cache), r);
    forall k | k in r.flushed
      ensures k in cache && cache[k].refCount > 0
    {
      PinsAt(cache, r, users, k);
    }
    assert cache'.Keys == cache.Keys && DirtyKeys(cache') == DirtyKeys(cache) && ValidKeys(cache') == ValidKeys(cache);
    UnpinParts(disk, cache, r, users, touched);
  }

  lemma UnpinParts(disk: map<Key, Sector>, cache: map<Key, Buf>, r: Traffic, users: multiset<Key>, touched: set<Key>)
    requires Held(cache.Keys, ValidKeys(cache), r) && Pins(cache, r, users)
             && Data(disk, cache, r.batch, r.io, users, touched)
    ensures Held(cache.Keys, ValidKeys(cache), r.(flushed := []))
    ensures Pins(Unpinned(cache, r.flushed), r.(flushed := []), users)
    ensures Data(disk, Unpinned(cache, r.flushed), r.batch, r.io, users, touched)
  {
    assert Look(r, 0) && Look(users, 0) && Look(touched, 0);
  }

  lemma TakeRun(s: seq<Key>, c: nat)
    requires Ascending(s) && c < |s| && 0 < c && Run(s[..c]) && s[c].lba == s[c - 1].lba + 1
    ensures Run(s[..c + 1])
  {
    assert s[..c][c - 1] == s[c - 1];
    assert s[0].dev == s[c].dev;
    assert forall i :: 0 <= i < c ==> s[..c + 1][i] == s[..c][i];
  }

  /** With nothing queued and nothing in flight, what is not being changed is on the disk. */
  lemma QuietMeansSynced(disk: map<Key, Sector>, cache: map<Key, Buf>, lru: seq<Key>, lists: seq<seq<Key>>, r: Traffic,
                         users: multiset<Key>, touched: set<Key>, k: Key)
    requires Inv(disk, cache, lru, lists, r, users, touched) && r.sorted == [] && r.batch == []
    requires k in disk && k !in touched && k !in r.leaving && 2 * k.dev + 1 < |lists| && lists[2 * k.dev] == []
             && lists[2 * k.dev + 1] == []
    ensures Contents(disk, cache)[k] == disk[k]
  {
    assert Look(cache, 0) && Look(lists, 0) && Look(touched, 0);
    forall i | 0 <= i < |lists|
      ensures k !in lists[i]
    {
      assert i / 2 == k.dev ==> i == 2 * k.dev || i == 2 * k.dev + 1;
    }
    assert k !in DirtyKeys(cache);
  }

  lemma WriteRunNext(disk: map<Key, Sector>, dev: nat, start: nat, src: seq<Sector>, n: nat)
    requires n < |src| && Nth(dev, start, n) in disk
    ensures WriteRun(disk, dev, start, src[..n + 1])
            == WriteRun(disk, dev, start, src[..n])[Nth(dev, start, n) := src[n]]
  {
  }

  // ---- Runs ----

  /**
   The steps of callers: the first section of `getblk` when the block is there; one turn of its reclaim loop, which
   drops a clean victim or takes a dirty one off its list; the write of such a victim, and its dropping; the last
   section of `getblk`; finding the valid flag of a block clear, the arrival of its sector, setting the valid flag and
   clearing the dirty flag, as `_bread` does; reading a sector past the cache, putting its bytes into a block found
   without the flag, and setting the flag, as `bread_multi` does; looking at a block, changing its bytes, setting its
   flag after that, marking it and releasing it. The steps of the write-back thread: `FlipList` to `Drop`.
   */
  datatype Event =
    | PinCached(k: Key)
    | Reclaim
    | EvictWrite(k: Key)
    | EvictFinish(k: Key)
    | PinNew(k: Key, junk: Sector)
    | FillStart(k: Key)
    | FillArrive(k: Key)
    | FillFlag(k: Key)
    | FillClean(k: Key)
    | BulkRead(k: Key)
    | BulkStore(k: Key, data: Sector)
    | BulkFlag(k: Key)
    | LookAt(k: Key)
    | Change(k: Key, data: Sector)
    | Publish(k: Key)
    | Mark(k: Key)
    | Release(k: Key)
    | FlipList(dev: nat)
    | CollectNext(dev: nat, idx: nat)
    | Take
    | CopyNext
    | Flush
    | Drop

  predicate Finds(e: Event) {
    e.PinCached? || e.EvictWrite? || e.EvictFinish? || e.PinNew?
  }

  predicate Holds(e: Event) {
    e.LookAt? || e.Change? || e.Publish? || e.Mark? || e.Release?
  }

  /** The steps of putting in bytes that were read from the disk. */
  predicate Fills(e: Event) {
    || e.FillStart? || e.FillArrive? || e.FillFlag? || e.FillClean?
    || e.BulkRead? || e.BulkStore? || e.BulkFlag?
  }

  ghost function After(view: map<Key, Sector>, e: Event, done: bool): map<Key, Sector> {
    if done && e.Change? then view[e.k := e.data] else view
  }

  ghost function Replay(view: map<Key, Sector>, events: seq<Event>, done: seq<bool>): map<Key, Sector>
    requires |done| == |events|
  {
    if events == [] then view
    else
      var n := |events| - 1;
      After(Replay(view, events[..n], done[..n]), events[n], done[n])
  }

  /** A run leaves at each sector what the last change put there. */
  lemma {:induction false} ReplayIsLastChange(view: map<Key, Sector>, events: seq<Event>, done: seq<bool>, k: Key,
                                              i: nat)
    requires |done| == |events| && i < |events| && done[i] && events[i].Change? && events[i].k == k
    requires forall j :: i < j < |events| ==> !(done[j] && events[j].Change? && events[j].k == k)
    ensures k in Replay(view, events, done) && Replay(view, events, done)[k] == events[i].data
    decreases |events|
  {
    var n := |events| - 1;
    if i < n {
      ReplayIsLastChange(view, events[..n], done[..n], k, i);
    }
  }

  // ---- The cache ----

  ghost predicate Before(lru: seq<Key>, x: Key, y: Key) {
    exists i, j :: 0 <= i < j < |lru| && lru[i] == x && lru[j] == y
  }

  /** What was evicted was less recently used than every unpinned block that stayed. */
  ghost predicate EvictedInOrder(lru: seq<Key>, cache: map<Key, Buf>, cache': map<Key, Buf>) {
    && (forall k :: k in cache' ==> k in cache && cache'[k] == cache[k])
    && (forall k :: k in cache && k !in cache' ==> cache[k].refCount == 0)
    && (forall x, y :: x in cache && x !in cache' && y in cache' && cache'[y].refCount == 0 ==> Before(lru, x, y))
  }

  lemma WithoutKeepsOrder(s: seq<Key>, k: Key, x: Key, y: Key)
    requires Before(Without(s, k), x, y)
    ensures Before(s, x, y)
  {
    var i, j :| 0 <= i < j < |Without(s, k)| && Without(s, k)[i] == x && Without(s, k)[j] == y;
    WithoutPlaces(s, k, i, j);
  }

  /** Every two elements that are left were in the same order before. */
  lemma {:induction false} WithoutPlaces(s: seq<Key>, k: Key, i: nat, j: nat)
    requires i < j < |Without(s, k)|
    ensures Before(s, Without(s, k)[i], Without(s, k)[j])
  {
    var t := Without(s, k);
    if s[0] == k {
      assert s[i + 1] == t[i] && s[j + 1] == t[j];
    } else if i == 0 {
      var m := InWithout(s[1..], k, j - 1);
      assert s[0] == t[0] && s[m + 1] == t[j];
    } else {
      WithoutPlaces(s[1..], k, i - 1, j - 1);
      var a, b :| 0 <= a < b < |s[1..]| && s[1..][a] == t[i] && s[1..][b] == t[j];
      assert s[a + 1] == t[i] && s[b + 1] == t[j];
    }
  }

  lemma {:induction false} InWithout(s: seq<Key>, k: Key, j: nat) returns (m: nat)
    requires j < |Without(s, k)|
    ensures m < |s| && s[m] == Without(s, k)[j]
  {
    if s[0] == k {
      m := j + 1;
    } else if j == 0 {
      m := 0;
    } else {
      m := InWithout(s[1..], k, j - 1);
      m := m + 1;
    }
  }

  /** The first block of the list that nobody has pinned. */
  ghost predicate LeastRecent(cache: map<Key, Buf>, lru: seq<Key>, k: Key) {
    && k in cache && cache[k].refCount == 0
    && exists i :: 0 <= i < |lru| && lru[i] == k
         && forall j :: 0 <= j < i ==> lru[j] in cache && cache[lru[j]].refCount > 0
  }

  lemma OneLeastRecent(cache: map<Key, Buf>, lru: seq<Key>, k: Key, v: Key)
    requires LeastRecent(cache, lru, k) && LeastRecent(cache, lru, v)
    ensures k == v
  {
    var i :| 0 <= i < |lru| && lru[i] == k && forall j :: 0 <= j < i ==> lru[j] in cache && cache[lru[j]].refCount > 0;
    var j :| 0 <= j < |lru| && lru[j] == v && forall h :: 0 <= h < j ==> lru[h] in cache && cache[lru[h]].refCount > 0;
    assert i == j;
  }

  ghost predicate SameOrder(lru0: seq<Key>, lru: seq<Key>) {
    forall x, y :: Before(lru, x, y) ==> Before(lru0, x, y)
  }

  lemma LeastRecentBefore(cache: map<Key, Buf>, lru: seq<Key>, v: Key, y: Key)
    requires LeastRecent(cache, lru, v) && y in cache && y != v && cache[y].refCount == 0 && y in lru
    ensures Before(lru, v, y)
  {
    var i :| 0 <= i < |lru| && lru[i] == v && forall j :: 0 <= j < i ==> lru[j] in cache && cache[lru[j]].refCount > 0;
    var j :| 0 <= j < |lru| && lru[j] == y;
    assert i < j;
  }

  lemma EmptyIsClean(disk: map<Key, Sector>, cache: map<Key, Buf>, lru: seq<Key>, lists: seq<seq<Key>>, r: Traffic,
                     users: multiset<Key>, touched: set<Key>, k: Key)
    requires Inv(disk, cache, lru, lists, r, users, touched) && k in cache && !cache[k].valid
    ensures k in disk && !cache[k].dirty && k !in r.batch && k !in touched
  {
    assert Look(cache, 0) && Look(touched, 0) && Look(r, 0);
  }

  lemma QueuedIsDirty(disk: map<Key, Sector>, cache: map<Key, Buf>, lru: seq<Key>, lists: seq<seq<Key>>, r: Traffic,
                      users: multiset<Key>, touched: set<Key>, i: nat)
    requires Inv(disk, cache, lru, lists, r, users, touched) && i < |lists| && lists[i] != []
    ensures lists[i][0] in cache && cache[lists[i][0]].dirty && lists[i][0] !in r.leaving
  {
    assert Look(cache, 0) && Look(lists, 0);
    assert lists[i][0] in lists[i];
    assert InLists(lists, lists[i][0]);
    assert lists[i][0] in Queued(cache, r.leaving);
  }

  lemma SortedIsDirty(disk: map<Key, Sector>, cache: map<Key, Buf>, lru: seq<Key>, lists: seq<seq<Key>>, r: Traffic,
                      users: multiset<Key>, touched: set<Key>)
    requires Inv(disk, cache, lru, lists, r, users, touched)
    ensures forall k :: k in r.sorted ==> k in cache && cache[k].dirty && k !in r.leaving
  {
    assert Look(cache, 0) && Look(lists, 0);
    assert forall k :: k in r.sorted ==> k in Queued(cache, r.leaving);
  }

  lemma BatchIsPinned(disk: map<Key, Sector>, cache: map<Key, Buf>, lru: seq<Key>, lists: seq<seq<Key>>, r: Traffic,
                      users: multiset<Key>, touched: set<Key>)
    requires Inv(disk, cache, lru, lists, r, users, touched)
    ensures Run(r.batch) && forall k :: k in r.batch ==> k in cache && cache[k].refCount > 0
  {
    assert Look(cache, 0) && Look(r, 0) && Look(users, 0);
    assert forall k :: k in r.batch ==> r.Holds(k);
  }

  // ---- Transfers without the lock ----

  /**
   Where callers are in what they do without the lock. Of the blocks that are leaving: those written already, and those
   nobody has pinned since they were taken off their list. Of the blocks found without valid data: how many callers are
   putting bytes in, how many of these have done so, and how many of these have set the flag; and the blocks nobody has
   changed, marked or given other bytes than the sector since. Further the changed blocks whose valid flag is not set
   yet, and the sectors read past the cache.
   */
  datatype Transit = Transit(written: set<Key>, calm: set<Key>, filling: multiset<Key>, arrived: multiset<Key>,
                             flagged: multiset<Key>, quiet: set<Key>, unset: set<Key>, captured: set<(Key, Sector)>)

  /** Nobody is in the middle of anything, apart from sectors read. */
  function AtRest(captured: set<(Key, Sector)>): Transit {
    Transit({}, {}, multiset{}, multiset{}, multiset{}, {}, {}, captured)
  }

  ghost predicate TransitOk(disk: map<Key, Sector>, cache: map<Key, Buf>, batch: seq<Key>, users: multiset<Key>,
                            touched: set<Key>, leaving: set<Key>, x: Transit)
  {
    && x.written <= leaving && x.calm <= leaving && x.unset <= touched
    && (forall k :: k in x.calm ==>
          && k in cache && k in disk && cache[k].refCount == 0
          && (k in x.written ==> cache[k].data == disk[k]))
    && (forall k :: x.arrived[k] + x.flagged[k] <= x.filling[k] <= users[k])
    && (forall k :: k in x.quiet ==>
          && k in x.filling && k in cache && k in disk && !cache[k].dirty && k !in batch && k !in touched
          && (cache[k].valid || k in x.arrived ==> cache[k].data == disk[k]))
  }

  ghost predicate Moving(disk: map<Key, Sector>, cache: map<Key, Buf>, batch: seq<Key>, users: multiset<Key>,
                         touched: set<Key>, leaving: set<Key>, x: Transit)
  {
    forall u :: Look(x, u) ==> TransitOk(disk, cache, batch, users, touched, leaving, x)
  }

  lemma MovingPin(disk: map<Key, Sector>, cache: map<Key, Buf>, batch: seq<Key>, users: multiset<Key>,
                  touched: set<Key>, leaving: set<Key>, x: Transit, k: Key)
    requires Moving(disk, cache, batch, users, touched, leaving, x) && k in cache
    ensures Moving(disk, cache[k := cache[k].(refCount := cache[k].refCount + 1)], batch, users + multiset{k}, touched,
                   leaving,
                   x.(calm := x.calm - {k}))
  {
    assert Look(x, 0);
  }

  lemma MovingInsert(disk: map<Key, Sector>, cache: map<Key, Buf>, batch: seq<Key>, users: multiset<Key>,
                     touched: set<Key>, leaving: set<Key>, x: Transit, k: Key, b: Buf)
    requires Moving(disk, cache, batch, users, touched, leaving, x) && k !in cache
    ensures Moving(disk, cache[k := b], batch, users + multiset{k}, touched, leaving, x) && k !in x.calm
  {
    assert Look(x, 0);
  }

  lemma MovingRelease(disk: map<Key, Sector>, cache: map<Key, Buf>, batch: seq<Key>, users: multiset<Key>,
                      touched: set<Key>, leaving: set<Key>, x: Transit, k: Key)
    requires Moving(disk, cache, batch, users, touched, leaving, x) && k in cache && cache[k].refCount > 0
    requires x.filling[k] < users[k]
    ensures Moving(disk, cache[k := cache[k].(refCount := cache[k].refCount - 1)], batch, users - multiset{k}, touched,
                   leaving, x)
  {
    assert Look(x, 0);
  }

  lemma MovingDrop(disk: map<Key, Sector>, cache: map<Key, Buf>, batch: seq<Key>, users: multiset<Key>,
                   touched: set<Key>, leaving: set<Key>, x: Transit, k: Key)
    requires Moving(disk, cache, batch, users, touched, leaving, x) && k !in users
    ensures Moving(disk, cache - {k}, batch, users, touched, leaving - {k},
                   x.(written := x.written - {k}, calm := x.calm - {k}))
  {
    assert Look(x, 0);
  }

  lemma MovingLeave(disk: map<Key, Sector>, cache: map<Key, Buf>, batch: seq<Key>, users: multiset<Key>,
                    touched: set<Key>, leaving: set<Key>, x: Transit, k: Key)
    requires Moving(disk, cache, batch, users, touched, leaving, x)
    requires k in cache && k in disk && cache[k].refCount == 0 && k !in leaving
    ensures Moving(disk, cache, batch, users, touched, leaving + {k}, x.(calm := x.calm + {k}))
  {
    assert Look(x, 0);
  }

  lemma MovingWriteOut(disk: map<Key, Sector>, cache: map<Key, Buf>, batch: seq<Key>, users: multiset<Key>,
                       touched: set<Key>, leaving: set<Key>, x: Transit, k: Key)
    requires Moving(disk, cache, batch, users, touched, leaving, x) && k in leaving && k in cache && cache[k].dirty
    ensures Moving(disk[k := cache[k].data], cache, batch, users, touched, leaving, x.(written := x.written + {k}))
  {
    assert Look(x, 0);
  }

  lemma MovingFillStart(disk: map<Key, Sector>, cache: map<Key, Buf>, batch: seq<Key>, users: multiset<Key>,
                        touched: set<Key>, leaving: set<Key>, x: Transit, k: Key)
    requires Moving(disk, cache, batch, users, touched, leaving, x) && x.filling[k] < users[k]
    requires k in cache && (!cache[k].valid ==> k in disk && !cache[k].dirty && k !in batch && k !in touched)
    ensures Moving(disk, cache, batch, users, touched, leaving, FillStarted(x, cache, k))
  {
    assert Look(x, 0);
  }

  function FillStarted(x: Transit, cache: map<Key, Buf>, k: Key): Transit {
    x.(filling := x.filling + multiset{k},
       quiet := if k in cache && !cache[k].valid && k !in x.arrived then x.quiet + {k} else x.quiet)
  }

  /** Bytes go into a pinned buffer. */
  lemma MovingStore(disk: map<Key, Sector>, cache: map<Key, Buf>, batch: seq<Key>, users: multiset<Key>,
                    touched: set<Key>, leaving: set<Key>, x: Transit, k: Key, data: Sector)
    requires Moving(disk, cache, batch, users, touched, leaving, x) && k in cache && k in disk && cache[k].refCount > 0
    requires x.arrived[k] + x.flagged[k] < x.filling[k]
    ensures Moving(disk, cache[k := cache[k].(data := data)], batch, users, touched, leaving, Stored(x, disk, k, data))
  {
    assert Look(x, 0);
  }

  function Stored(x: Transit, disk: map<Key, Sector>, k: Key, data: Sector): Transit {
    x.(arrived := x.arrived + multiset{k}, quiet := if k in disk && data == disk[k] then x.quiet else x.quiet - {k})
  }

  lemma MovingFlag(disk: map<Key, Sector>, cache: map<Key, Buf>, batch: seq<Key>, users: multiset<Key>,
                   touched: set<Key>, leaving: set<Key>, x: Transit, k: Key)
    requires Moving(disk, cache, batch, users, touched, leaving, x) && k in cache && k in x.arrived
    ensures Moving(disk, cache[k := cache[k].(valid := true)], batch, users, touched, leaving, Flagged(x, k))
  {
    assert Look(x, 0);
  }

  function Flagged(x: Transit, k: Key): Transit {
    x.(arrived := x.arrived - multiset{k}, flagged := x.flagged + multiset{k}, unset := x.unset - {k})
  }

  function FillEnded(x: Transit, k: Key): Transit {
    x.(filling := x.filling - multiset{k}, flagged := x.flagged - multiset{k},
       quiet := if x.filling[k] > 1 then x.quiet else x.quiet - {k})
  }

  lemma MovingFillEnd(disk: map<Key, Sector>, cache: map<Key, Buf>, batch: seq<Key>, users: multiset<Key>,
                      touched: set<Key>, leaving: set<Key>, x: Transit, k: Key)
    requires Moving(disk, cache, batch, users, touched, leaving, x) && k in x.flagged
    ensures Moving(disk, cache, batch, users, touched, leaving, FillEnded(x, k))
  {
    assert Look(x, 0);
  }

  lemma MovingCapture(disk: map<Key, Sector>, cache: map<Key, Buf>, batch: seq<Key>, users: multiset<Key>,
                      touched: set<Key>, leaving: set<Key>, x: Transit, captured: set<(Key, Sector)>)
    requires Moving(disk, cache, batch, users, touched, leaving, x)
    ensures Moving(disk, cache, batch, users, touched, leaving, x.(captured := captured))
  {
    assert Look(x, 0);
  }

  /** The valid flag as it is stored. */
  predicate HasFlag(cache: map<Key, Buf>, x: Transit, k: Key) {
    k in cache && cache[k].valid && k !in x.unset
  }

  function Changed(x: Transit, cache: map<Key, Buf>, k: Key): (x': Transit)
    ensures k in cache ==> (HasFlag(cache[k := cache[k].(valid := true)], x', k) <==> HasFlag(cache, x, k))
  {
    x.(quiet := x.quiet - {k}, unset := if HasFlag(cache, x, k) then x.unset else x.unset + {k})
  }

  lemma MovingChange(disk: map<Key, Sector>, cache: map<Key, Buf>, batch: seq<Key>, users: multiset<Key>,
                     touched: set<Key>, leaving: set<Key>, x: Transit, k: Key, data: Sector)
    requires Moving(disk, cache, batch, users, touched, leaving, x) && k in cache && cache[k].refCount > 0
    ensures Moving(disk, cache[k := cache[k].(data := data, valid := true)], batch, users, touched + {k}, leaving,
                   Changed(x, cache, k))
  {
    assert Look(x, 0);
  }

  lemma MovingPublish(disk: map<Key, Sector>, cache: map<Key, Buf>, batch: seq<Key>, users: multiset<Key>,
                      touched: set<Key>, leaving: set<Key>, x: Transit, k: Key)
    requires Moving(disk, cache, batch, users, touched, leaving, x)
    ensures Moving(disk, cache, batch, users, touched, leaving, x.(unset := x.unset - {k}))
  {
    assert Look(x, 0);
  }

  lemma MovingMark(disk: map<Key, Sector>, cache: map<Key, Buf>, batch: seq<Key>, users: multiset<Key>,
                   touched: set<Key>, leaving: set<Key>, x: Transit, k: Key)
    requires Moving(disk, cache, batch, users, touched, leaving, x) && k in cache && k !in x.unset
    ensures Moving(disk, cache[k := cache[k].(dirty := true)], batch, users, touched - {k}, leaving,
                   x.(quiet := x.quiet - {k}))
  {
    assert Look(x, 0);
  }

  lemma MovingCollect(disk: map<Key, Sector>, cache: map<Key, Buf>, batch: seq<Key>, users: multiset<Key>,
                      touched: set<Key>, leaving: set<Key>, x: Transit, k: Key)
    requires Moving(disk, cache, batch, users, touched, leaving, x) && k in cache && k !in leaving
    ensures Moving(disk, cache[k := cache[k].(refCount := cache[k].refCount + 1)], batch, users, touched, leaving, x)
  {
    assert Look(x, 0);
  }

  lemma MovingTake(disk: map<Key, Sector>, cache: map<Key, Buf>, users: multiset<Key>, touched: set<Key>,
                   leaving: set<Key>, x: Transit, ks: seq<Key>)
    requires Moving(disk, cache, [], users, touched, leaving, x)
    requires forall k :: k in ks ==> k in cache && cache[k].dirty
    ensures Moving(disk, ClearDirty(cache, ks), ks, users, touched, leaving, x)
  {
    assert Look(x, 0);
  }

  lemma MovingWrite(disk: map<Key, Sector>, cache: map<Key, Buf>, batch: seq<Key>, io: seq<Sector>,
                    users: multiset<Key>, touched: set<Key>, leaving: set<Key>, x: Transit)
    requires Moving(disk, cache, batch, users, touched, leaving, x) && Run(batch) && batch != [] && |io| == |batch|
    requires forall k :: k in batch ==> k in cache && cache[k].refCount > 0
    ensures Moving(WriteRun(disk, batch[0].dev, batch[0].lba, io), cache, [], users, touched, leaving, x)
  {
    assert Look(x, 0);
    forall k | k in disk && k !in batch
      ensures WriteRun(disk, batch[0].dev, batch[0].lba, io)[k] == disk[k]
    {
      WriteRunAt(disk, batch, io, k);
    }
  }

  lemma MovingUnpin(disk: map<Key, Sector>, cache: map<Key, Buf>, batch: seq<Key>, users: multiset<Key>,
                    touched: set<Key>, leaving: set<Key>, x: Transit, ks: seq<Key>)
    requires Moving(disk, cache, batch, users, touched, leaving, x)
    ensures Moving(disk, Unpinned(cache, ks), batch, users, touched, leaving, x)
  {
    assert Look(x, 0);
  }

  // ---- Any interleaving ----

  datatype State = State(disk: map<Key, Sector>, cache: map<Key, Buf>, lru: seq<Key>, curBlkNum: nat,
                         lists: seq<seq<Key>>, active: seq<nat>, traffic: Traffic, users: multiset<Key>,
                         touched: set<Key>, transit: Transit)

  ghost function ViewOf(s: State): map<Key, Sector> {
    Contents(s.disk, s.cache)
  }

  ghost predicate Sound(s: State) {
    && Inv(s.disk, s.cache, s.lru, s.lists, s.traffic, s.users, s.touched)
    && Moving(s.disk, s.cache, s.traffic.batch, s.users, s.touched, s.traffic.leaving, s.transit)
  }

  /** Whether a step can be taken. Callers keep to their own pins, and mark what they changed before they let go. */
  predicate CanTake(limit: nat, s: State, e: Event) {
    match e
    case PinCached(k) => k in s.cache
    case Reclaim => s.curBlkNum >= limit
    case EvictWrite(k) => k in s.traffic.leaving
    case EvictFinish(k) => k in s.traffic.leaving && k in s.transit.written && k in s.cache && k in s.disk
    case PinNew(k, _) => k in s.disk
    case FillStart(k) => k in s.cache && !HasFlag(s.cache, s.transit, k) && s.transit.filling[k] < s.users[k]
    case FillArrive(k) => Awaits(s, k)
    case FillFlag(k) => k in s.transit.arrived && k in s.cache && k in s.disk
    case FillClean(k) => k in s.transit.flagged && k in s.cache
    case BulkRead(k) => k in s.disk
    case BulkStore(k, data) => Awaits(s, k) && (k, data) in s.transit.captured
    case BulkFlag(k) => k in s.transit.arrived && k in s.cache && k in s.disk
    case LookAt(k) => k in s.users && HasFlag(s.cache, s.transit, k)
    case Change(k, _) => k in s.users
    case Publish(k) => k in s.touched
    case Mark(k) => k in s.users && HasFlag(s.cache, s.transit, k)
    case Release(k) => s.transit.filling[k] < s.users[k] && (k in s.touched ==> s.users[k] > s.transit.filling[k] + 1)
    case FlipList(dev) => dev < |s.active|
    case CollectNext(dev, idx) =>
      && idx < 2 && 2 * dev + idx < |s.lists| && s.lists[2 * dev + idx] != [] && NothingInFlight(s.traffic)
      && (forall x :: x in s.traffic.sorted ==> x.dev == dev)
    case Take => s.traffic.sorted != [] && NothingInFlight(s.traffic)
    case CopyNext => |s.traffic.io| < |s.traffic.batch|
    case Flush => |s.traffic.io| == |s.traffic.batch| > 0 && s.traffic.flushed == []
    case Drop => true
  }

  /** Some caller found the flag clear and has not put its bytes in yet. */
  predicate Awaits(s: State, k: Key) {
    k in s.cache && k in s.disk && s.transit.arrived[k] + s.transit.flagged[k] < s.transit.filling[k]
  }

  predicate NothingInFlight(r: Traffic) {
    r.batch == [] && r.io == [] && r.flushed == []
  }

  /**
   When the code does the right thing in a step it takes without having kept the lock. A dirty victim must not be one
   that another caller is evicting. A victim that was written must be unpinned still, with the bytes that were written.
   Bytes may go into a buffer whose bytes do not count, or which holds them already; the flag may be set on bytes that
   count already or are on the disk; and the dirty flag may be cleared when it is clear.
   */
  ghost predicate Right(s: State, e: Event) {
    match e
    case Reclaim => forall k :: LeastRecent(s.cache, s.lru, k) && s.cache[k].dirty ==> k !in s.traffic.leaving
    case EvictFinish(k) => k in s.cache && k in s.disk && s.cache[k].refCount == 0 && s.cache[k].data == s.disk[k]
    case FillArrive(k) => k in s.cache && k in s.disk && (s.cache[k].valid ==> s.cache[k].data == s.disk[k])
    case BulkStore(k, data) => k in s.cache && (s.cache[k].valid ==> s.cache[k].data == data)
    case FillFlag(k) => RightToFlag(s, k)
    case BulkFlag(k) => RightToFlag(s, k)
    case FillClean(k) => k in s.cache && !s.cache[k].dirty
    case _ => true
  }

  predicate RightToFlag(s: State, k: Key) {
    k in s.cache && k in s.disk && (s.cache[k].valid || s.cache[k].data == s.disk[k])
  }

  /**
   A failing case: the victim stays where it is while it is written, so the next caller in need of room meets it again.
   */
  lemma SameVictimAgain(limit: nat, s: State, k: Key, s': State)
    requires LeastRecent(s.cache, s.lru, k) && s.cache[k].dirty && LeftList(s, k, s') && s.curBlkNum >= limit
    ensures CanTake(limit, s', Reclaim) && !Right(s', Reclaim)
  {
    assert LeastRecent(s'.cache, s'.lru, k);
  }

  /**
   What the step leaves behind keeps every invariant and what is read; and a dirty victim is in a list, so that it can
   be taken off it.
   */
  ghost predicate Survives(s: State, e: Event) {
    match e
    case Reclaim => forall k :: LeastRecent(s.cache, s.lru, k) && s.cache[k].dirty ==> InLists(s.lists, k)
    case EvictFinish(k) =>
      && Inv(s.disk, s.cache - {k}, Without(s.lru, k), s.lists, s.traffic.(leaving := s.traffic.leaving - {k}), s.users,
             s.touched)
      && Contents(s.disk, s.cache - {k}) == ViewOf(s)
    case FillArrive(k) => k in s.cache && k in s.disk && SurvivesWith(s, k, s.cache[k].(data := s.disk[k]))
    case BulkStore(k, data) => k in s.cache && SurvivesWith(s, k, s.cache[k].(data := data))
    case FillFlag(k) => k in s.cache && SurvivesWith(s, k, s.cache[k].(valid := true))
    case BulkFlag(k) => k in s.cache && SurvivesWith(s, k, s.cache[k].(valid := true))
    case FillClean(k) => k in s.cache && SurvivesWith(s, k, s.cache[k].(dirty := false))
    case _ => true
  }

  ghost predicate SurvivesWith(s: State, k: Key, b: Buf) {
    && Inv(s.disk, s.cache[k := b], s.lru, s.lists, s.traffic, s.users, s.touched)
    && Contents(s.disk, s.cache[k := b]) == ViewOf(s)
  }

  /** The condition is exact. */
  lemma RightIffSurvives(limit: nat, s: State, e: Event)
    requires Sound(s) && CanTake(limit, s, e)
    ensures Right(s, e) <==> Survives(s, e)
  {
    match e {
      case Reclaim =>
        forall k | LeastRecent(s.cache, s.lru, k) && s.cache[k].dirty
          ensures k !in s.traffic.leaving <==> InLists(s.lists, k)
        {
          VictimIsListed(s, k);
        }
      case EvictFinish(k) => DropSurvivesIff(s.disk, s.cache, s.lru, s.lists, s.traffic, s.users, s.touched, k);
      case FillArrive(k) =>
        StoreSurvivesIff(s.disk, s.cache, s.lru, s.lists, s.traffic, s.users, s.touched, k, s.disk[k]);
      case BulkStore(k, data) =>
        StoreSurvivesIff(s.disk, s.cache, s.lru, s.lists, s.traffic, s.users, s.touched, k, data);
      case FillFlag(k) => FlagSurvivesIff(s.disk, s.cache, s.lru, s.lists, s.traffic, s.users, s.touched, k);
      case BulkFlag(k) => FlagSurvivesIff(s.disk, s.cache, s.lru, s.lists, s.traffic, s.users, s.touched, k);
      case FillClean(k) => CleanSurvivesIff(s.disk, s.cache, s.lru, s.lists, s.traffic, s.users, s.touched, k);
      case _ =>
    }
  }

  /** An unpinned dirty block is in a list, unless it was taken off it to leave. */
  lemma VictimIsListed(s: State, k: Key)
    requires Sound(s) && k in s.cache && s.cache[k].refCount == 0 && s.cache[k].dirty
    ensures k !in s.traffic.leaving <==> InLists(s.lists, k)
  {
    assert Look(s.cache, 0) && Look(s.lists, 0) && Look(s.users, 0);
  }

  /** What the step did, kept folded. */
  ghost predicate Took(s: State, e: Event, s': State) {
    forall u :: Look(s', u) ==> Effect(s, e, s')
  }

  /** What a step does, in full. */
  ghost predicate Effect(s: State, e: Event, s': State) {
    match e
    case PinCached(k) =>
      k in s.cache && s' == Pinned(s, k).(lru := Without(s.lru, k) + [k])
    case Reclaim =>
      exists k :: LeastRecent(s.cache, s.lru, k) && if s.cache[k].dirty then LeftList(s, k, s') else Dropped(s, k, s')
    case EvictWrite(k) =>
      && k in s.cache
      && s' == s.(disk := s.disk[k := s.cache[k].data], transit := s.transit.(written := s.transit.written + {k}))
    case EvictFinish(k) => Dropped(s, k, s')
    case PinNew(k, junk) =>
      if k in s.cache then s' == Pinned(s, k)
      else s' == s.(cache := s.cache[k := Buf(junk, false, false, 1)], lru := s.lru + [k], curBlkNum := s.curBlkNum + 1,
                    users := s.users + multiset{k}, transit := s.transit.(calm := s.transit.calm - {k}))
    case FillStart(k) => s' == s.(transit := FillStarted(s.transit, s.cache, k))
    case FillArrive(k) => k in s.disk && k in s.cache && s' == Holding(s, k, s.disk[k])
    case FillFlag(k) =>
      && k in s.cache
      && s' == s.(cache := s.cache[k := s.cache[k].(valid := true)], transit := Flagged(s.transit, k))
    case FillClean(k) => s' == s.(transit := FillEnded(s.transit, k))
    case BulkRead(k) =>
      k in s.disk && s' == s.(transit := s.transit.(captured := s.transit.captured + {(k, s.disk[k])}))
    case BulkStore(k, data) => k in s.cache && s' == Holding(s, k, data)
    case BulkFlag(k) =>
      && k in s.cache
      && s' == s.(cache := s.cache[k := s.cache[k].(valid := true)], transit := FillEnded(Flagged(s.transit, k), k))
    case LookAt(k) => s' == s
    case Change(k, data) =>
      && k in s.cache
      && s' == s.(cache := s.cache[k := s.cache[k].(data := data, valid := true)], touched := s.touched + {k},
                  transit := Changed(s.transit, s.cache, k))
    case Publish(k) => s' == s.(transit := s.transit.(unset := s.transit.unset - {k}))
    case Mark(k) =>
      && k in s.cache
      && s' == s.(cache := s.cache[k := s.cache[k].(dirty := true)], lists := s'.lists, touched := s.touched - {k},
                  transit := s.transit.(quiet := s.transit.quiet - {k}))
      && MarkedIn(s, k, s'.lists)
    case Release(k) =>
      && k in s.cache && s.cache[k].refCount > 0
      && s' == s.(cache := s.cache[k := s.cache[k].(refCount := s.cache[k].refCount - 1)],
                  users := s.users - multiset{k})
    case FlipList(dev) => dev < |s.active| && s.active[dev] < 2
      && s' == s.(active := s.active[dev := 1 - s.active[dev]])
    case CollectNext(dev, idx) => 2 * dev + idx < |s.lists| && Collected(s, 2 * dev + idx, s')
    case Take =>
      && FirstRun(s.traffic.sorted, |s'.traffic.batch|) && s'.traffic.batch + s'.traffic.sorted == s.traffic.sorted
      && s' == s.(cache := ClearDirty(s.cache, s'.traffic.batch),
                  traffic := Traffic(s'.traffic.sorted, s'.traffic.batch, [], [], s.traffic.leaving))
    case CopyNext =>
      && |s.traffic.io| < |s.traffic.batch| && s.traffic.batch[|s.traffic.io|] in s.cache
      && s' == s.(traffic :=
                    s.traffic.(io := s.traffic.io + [s.cache[s.traffic.batch[|s.traffic.io|]].data]))
    case Flush =>
      && s.traffic.batch != []
      && s' == s.(disk := WriteRun(s.disk, s.traffic.batch[0].dev, s.traffic.batch[0].lba, s.traffic.io),
                  traffic := s.traffic.(batch := [], io := [], flushed := s.traffic.batch))
    case Drop => s' == s.(cache := Unpinned(s.cache, s.traffic.flushed), traffic := s.traffic.(flushed := []))
  }

  /** One more pin on a cached block. */
  function Pinned(s: State, k: Key): State
    requires k in s.cache
  {
    s.(cache := s.cache[k := s.cache[k].(refCount := s.cache[k].refCount + 1)], users := s.users + multiset{k},
       transit := s.transit.(calm := s.transit.calm - {k}))
  }

  /** A block found without the flag now has the bytes. */
  function Holding(s: State, k: Key, data: Sector): State
    requires k in s.cache
  {
    s.(cache := s.cache[k := s.cache[k].(data := data)], transit := Stored(s.transit, s.disk, k, data))
  }

  ghost predicate LeftList(s: State, k: Key, s': State) {
    s' == s.(lists := Unlink(s.lists, k), traffic := s.traffic.(leaving := s.traffic.leaving + {k}),
             transit := s.transit.(calm := s.transit.calm + {k}))
  }

  ghost predicate Dropped(s: State, k: Key, s': State) {
    && s.curBlkNum > 0
    && s' == s.(cache := s.cache - {k}, lru := Without(s.lru, k), curBlkNum := s.curBlkNum - 1,
                traffic := s.traffic.(leaving := s.traffic.leaving - {k}),
                transit := s.transit.(written := s.transit.written - {k}, calm := s.transit.calm - {k}))
  }

  /** A block that was clean is at the end of its device's active list. */
  ghost predicate MarkedIn(s: State, k: Key, lists: seq<seq<Key>>) {
    && k in s.cache && k.dev < |s.active| && 2 * k.dev + s.active[k.dev] < |s.lists|
    && var i := 2 * k.dev + s.active[k.dev];
       lists == if s.cache[k].dirty then s.lists else s.lists[i := s.lists[i] + [k]]
  }

  /** The first block of a list is pinned and put in order. */
  ghost predicate Collected(s: State, i: nat, s': State) {
    && i < |s.lists| && s.lists[i] != [] && s.lists[i][0] in s.cache
    && var k := s.lists[i][0];
       s' == s.(cache := s.cache[k := s.cache[k].(refCount := s.cache[k].refCount + 1)],
                lists := s.lists[i := s.lists[i][1..]],
                traffic := s.traffic.(sorted := InsertOrder(s.traffic.sorted, k)))
  }

  /** What `Sound` says of one block. */
  lemma SoundAt(s: State, k: Key)
    requires Sound(s)
    ensures s.transit.arrived[k] + s.transit.flagged[k] <= s.transit.filling[k] <= s.users[k]
    ensures k in s.users ==> k in s.cache
    ensures k in s.cache ==> k in s.disk
    ensures k in s.touched ==> k in s.users && k in s.cache && s.cache[k].valid
    ensures k in s.traffic.leaving ==> k in s.cache
  {
    assert Look(s.transit, 0) && Look(s.cache, 0) && Look(s.touched, 0);
    CachedOnDisk(s.disk, s.cache, s.lru, s.lists, s.traffic, s.users, s.touched, k);
  }

  // Nobody gets stuck between the steps of a call: after each step that was taken, the next one can be.

  lemma PinnedGoesOn(limit: nat, s: State, k: Key, junk: Sector, data: Sector, s': State)
    requires Sound(s)
    ensures CanTake(limit, s, PinCached(k)) && Took(s, PinCached(k), s')
            ==> CanTake(limit, s', if HasFlag(s'.cache, s'.transit, k) then LookAt(k) else FillStart(k))
    ensures CanTake(limit, s, PinNew(k, junk)) && Took(s, PinNew(k, junk), s')
            ==> CanTake(limit, s', if HasFlag(s'.cache, s'.transit, k) then LookAt(k) else FillStart(k))
    ensures CanTake(limit, s, LookAt(k)) && Took(s, LookAt(k), s') ==> CanTake(limit, s', Change(k, data))
  {
    SoundAt(s, k);
    assert Look(s', 0);
  }

  lemma FillGoesOn(limit: nat, s: State, k: Key, s': State)
    requires Sound(s)
    ensures CanTake(limit, s, FillStart(k)) && Took(s, FillStart(k), s') ==> CanTake(limit, s', FillArrive(k))
    ensures CanTake(limit, s, FillArrive(k)) && Took(s, FillArrive(k), s') ==> CanTake(limit, s', FillFlag(k))
    ensures CanTake(limit, s, FillFlag(k)) && Took(s, FillFlag(k), s')
            ==> CanTake(limit, s', FillClean(k)) && CanTake(limit, s', LookAt(k))
  {
    SoundAt(s, k);
    assert Look(s', 0);
  }

  lemma BulkGoesOn(limit: nat, s: State, k: Key, data: Sector, s': State)
    requires Sound(s)
    ensures CanTake(limit, s, FillStart(k)) && Took(s, FillStart(k), s')
            ==> ((k, data) in s'.transit.captured ==> CanTake(limit, s', BulkStore(k, data)))
    ensures CanTake(limit, s, BulkStore(k, data)) && Took(s, BulkStore(k, data), s') ==> CanTake(limit, s', BulkFlag(k))
    ensures CanTake(limit, s, BulkFlag(k)) && Took(s, BulkFlag(k), s') ==> CanTake(limit, s', LookAt(k))
  {
    SoundAt(s, k);
    assert Look(s', 0);
  }

  lemma ChangeGoesOn(limit: nat, s: State, k: Key, data: Sector, s': State)
    requires Sound(s)
    ensures CanTake(limit, s, Change(k, data)) && Took(s, Change(k, data), s') ==> CanTake(limit, s', Publish(k))
    ensures CanTake(limit, s, Publish(k)) && Took(s, Publish(k), s') ==> CanTake(limit, s', Mark(k))
    ensures CanTake(limit, s, Mark(k)) && Took(s, Mark(k), s')
            ==> (s'.transit.filling[k] < s'.users[k] ==> CanTake(limit, s', Release(k)))
  {
    SoundAt(s, k);
    assert Look(s', 0);
  }

  lemma EvictionGoesOn(limit: nat, s: State, k: Key, s': State)
    requires Sound(s)
    ensures CanTake(limit, s, Reclaim) && Took(s, Reclaim, s')
            ==> (k in s'.traffic.leaving ==> CanTake(limit, s', EvictWrite(k)))
    ensures CanTake(limit, s, EvictWrite(k)) && Took(s, EvictWrite(k), s') ==> CanTake(limit, s', EvictFinish(k))
  {
    SoundAt(s, k);
    assert Look(s', 0);
  }

  lemma CollectGoesOn(limit: nat, s: State, dev: nat, idx: nat, s': State)
    requires Sound(s)
    ensures CanTake(limit, s, CollectNext(dev, idx)) && Took(s, CollectNext(dev, idx), s') ==> CanTake(limit, s', Take)
    ensures CanTake(limit, s, Take) && Took(s, Take, s') ==> CanTake(limit, s', CopyNext)
  {
    assert Look(s', 0);
  }

  lemma TransferGoesOn(limit: nat, s: State, s': State)
    requires Sound(s)
    ensures CanTake(limit, s, CopyNext) && Took(s, CopyNext, s')
            ==> (s'.traffic.flushed == []
                 ==> CanTake(limit, s', if |s'.traffic.io| < |s'.traffic.batch| then CopyNext else Flush))
    ensures CanTake(limit, s, Flush) && Took(s, Flush, s') ==> CanTake(limit, s', Drop)
    ensures CanTake(limit, s, Drop) && Took(s, Drop, s')
            ==> (s'.traffic.batch == [] && s'.traffic.sorted != [] ==> CanTake(limit, s', Take))
  {
    assert |s.traffic.io| <= |s.traffic.batch| by { assert Look(s.cache, 0) && Look(s.traffic, 0); }
    assert Look(s', 0);
  }

  /**
   One step, taken or not: it is taken whenever it can be, except that reclaiming finds nothing when every block is
   pinned; only a change of a block's bytes changes what is read; a look returns what was last written, and a read past
   the cache what is on the disk.
   */
  ghost predicate StepOk(limit: nat, s: State, e: Event, done: bool, out: Sector, s': State) {
    && Sound(s') && ViewOf(s') == After(ViewOf(s), e, done)
    && (done ==> CanTake(limit, s, e) && Right(s, e) && Took(s, e, s'))
    && (!done ==> s' == s
                  && (CanTake(limit, s, e) ==> e.Reclaim? && forall k :: k in s.cache ==> s.cache[k].refCount > 0))
    && (done && e.LookAt? ==> e.k in s.disk && out == ViewOf(s)[e.k])
    && (done && e.BulkRead? ==> e.k in s.disk && out == s.disk[e.k])
  }

  /** `StepOk`, kept folded. */
  ghost predicate Stepped(limit: nat, s: State, e: Event, done: bool, out: Sector, s': State) {
    forall u :: Look(e, u) ==> StepOk(limit, s, e, done, out, s')
  }

  lemma StepIs(limit: nat, s: State, e: Event, done: bool, out: Sector, s': State)
    requires Stepped(limit, s, e, done, out, s')
    ensures Sound(s') && ViewOf(s') == After(ViewOf(s), e, done) && (done ==> CanTake(limit, s, e) && Took(s, e, s'))
    ensures !done ==> s' == s
    ensures !done && CanTake(limit, s, e) ==> e.Reclaim? && forall k :: k in s.cache ==> s.cache[k].refCount > 0
    ensures done && e.BulkRead? ==> e.k in s.disk && out == s.disk[e.k]
  {
    assert Look(e, 0);
  }

  lemma StepTaken(limit: nat, s: State, e: Event, out: Sector, s': State)
    requires Sound(s') && ViewOf(s') == After(ViewOf(s), e, true) && CanTake(limit, s, e) && Right(s, e)
             && Took(s, e, s')
    requires e.LookAt? ==> e.k in s.disk && out == ViewOf(s)[e.k]
    requires e.BulkRead? ==> e.k in s.disk && out == s.disk[e.k]
    ensures Stepped(limit, s, e, true, out, s')
  {
  }

  ghost predicate Stepwise(limit: nat, trace: seq<State>, events: seq<Event>, done: seq<bool>, out: seq<Sector>,
                           n: nat) {
    && |done| == |out| == n <= |events| && |trace| == n + 1
    && forall i :: 0 <= i < n ==> Stepped(limit, trace[i], events[i], done[i], out[i], trace[i + 1])
  }

  lemma StepwiseNext(limit: nat, trace: seq<State>, events: seq<Event>, done: seq<bool>, out: seq<Sector>, n: nat,
                     d: bool, o: Sector, s: State)
    requires Stepwise(limit, trace, events, done, out, n) && n < |events|
    requires Stepped(limit, trace[n], events[n], d, o, s)
    ensures Stepwise(limit, trace + [s], events, done + [d], out + [o], n + 1)
  {
  }

  lemma {:induction false} ReplayOfTrace(limit: nat, trace: seq<State>, events: seq<Event>, done: seq<bool>,
                                         out: seq<Sector>, n: nat, m: nat)
    requires Stepwise(limit, trace, events, done, out, n) && m <= n
    ensures ViewOf(trace[m]) == Replay(ViewOf(trace[0]), events[..m], done[..m])
  {
    if m > 0 {
      ReplayOfTrace(limit, trace, events, done, out, n, m - 1);
      assert events[..m][..m - 1] == events[..m - 1] && done[..m][..m - 1] == done[..m - 1];
      StepIs(limit, trace[m - 1], events[m - 1], done[m - 1], out[m - 1], trace[m]);
    }
  }

  lemma CalmStep(limit: nat, s: State, e: Event, done: bool, out: Sector, s': State, k: Key)
    requires Sound(s) && Stepped(limit, s, e, done, out, s') && k in s.transit.calm
    requires done ==> e != EvictFinish(k) && e != PinCached(k) && (e.PinNew? ==> e.k != k)
    ensures k in s'.transit.calm
  {
    StepIs(limit, s, e, done, out, s');
    if done {
      CalmIsDirty(s, k);
      CalmEffect(s, e, s', k);
    }
  }

  lemma CalmEffect(s: State, e: Event, s': State, k: Key)
    requires Took(s, e, s') && k in s.transit.calm && k in s.cache && s.cache[k].dirty
    requires e != EvictFinish(k) && e != PinCached(k) && (e.PinNew? ==> e.k != k)
    ensures k in s'.transit.calm
  {
    assert Look(s', 0);
  }

  lemma CalmIsDirty(s: State, k: Key)
    requires Sound(s) && k in s.transit.calm
    ensures k in s.cache && s.cache[k].dirty
  {
    assert Look(s.transit, 0) && Look(s.cache, 0);
    assert k in DirtyKeys(s.cache);
  }

  /** Nothing but the sector goes into the block, and nobody changes or marks it. */
  predicate Undisturbed(s: State, e: Event, k: Key) {
    && e != Mark(k) && !(e.Change? && e.k == k)
    && !(e.BulkStore? && e.k == k && k in s.disk && e.data != s.disk[k])
  }

  lemma QuietStep(limit: nat, s: State, e: Event, done: bool, out: Sector, s': State, k: Key)
    requires Stepped(limit, s, e, done, out, s') && k in s.transit.quiet && k in s.disk && k in s'.transit.filling
    requires done ==> Undisturbed(s, e, k)
    ensures k in s'.transit.quiet
  {
    StepIs(limit, s, e, done, out, s');
    if done {
      QuietEffect(s, e, s', k);
    }
  }

  lemma QuietEffect(s: State, e: Event, s': State, k: Key)
    requires Took(s, e, s') && k in s.transit.quiet && k in s.disk && k in s'.transit.filling && Undisturbed(s, e, k)
    ensures k in s'.transit.quiet
  {
    assert Look(s', 0);
    if Fills(e) {
      QuietFill(s, e, s', k);
    } else if e.Reclaim? {
      assert s'.transit.quiet == s.transit.quiet;
    } else if Finds(e) {
      assert s'.transit.quiet == s.transit.quiet;
    } else if Holds(e) {
      assert k in s'.transit.quiet;
    } else {
      assert s'.transit == s.transit;
    }
  }

  lemma QuietFill(s: State, e: Event, s': State, k: Key)
    requires Effect(s, e, s') && Fills(e) && k in s.transit.quiet && k in s.disk && k in s'.transit.filling
    requires Undisturbed(s, e, k)
    ensures k in s'.transit.quiet
  {
  }

  lemma CalmIsRight(s: State, k: Key)
    requires Sound(s) && k in s.transit.calm && k in s.transit.written
    ensures Right(s, EvictFinish(k))
  {
    assert Look(s.transit, 0);
  }

  lemma QuietIsRight(s: State, k: Key)
    requires Sound(s) && k in s.transit.quiet
    ensures k in s.disk && Right(s, FillArrive(k)) && Right(s, BulkStore(k, s.disk[k])) && Right(s, FillClean(k))
    ensures k in s.transit.arrived ==> Right(s, FillFlag(k)) && Right(s, BulkFlag(k))
  {
    assert Look(s.transit, 0);
  }

  lemma TraceIsSound(limit: nat, trace: seq<State>, events: seq<Event>, done: seq<bool>, out: seq<Sector>, n: nat,
                     j: nat)
    requires Stepwise(limit, trace, events, done, out, n) && j <= n && Sound(trace[0])
    ensures Sound(trace[j])
  {
    if j > 0 {
      StepIs(limit, trace[j - 1], events[j - 1], done[j - 1], out[j - 1], trace[j]);
    }
  }

  /** A victim that nobody pins between its first and its last step is dropped rightly. */
  lemma {:induction false} NoPinIsRight(limit: nat, trace: seq<State>, events: seq<Event>, done: seq<bool>,
                                        out: seq<Sector>, n: nat, i: nat, j: nat, k: Key)
    requires Stepwise(limit, trace, events, done, out, n) && i <= j <= n && Sound(trace[0])
             && k in trace[i].transit.calm
    requires forall m :: i <= m < j && done[m] ==> events[m] != EvictFinish(k) && events[m] != PinCached(k)
    requires forall m :: i <= m < j && done[m] && events[m].PinNew? ==> events[m].k != k
    ensures k in trace[j].transit.calm && (k in trace[j].transit.written ==> Right(trace[j], EvictFinish(k)))
    decreases j
  {
    if i < j {
      NoPinIsRight(limit, trace, events, done, out, n, i, j - 1, k);
      TraceIsSound(limit, trace, events, done, out, n, j - 1);
      CalmStep(limit, trace[j - 1], events[j - 1], done[j - 1], out[j - 1], trace[j], k);
    }
    if k in trace[j].transit.written {
      TraceIsSound(limit, trace, events, done, out, n, j);
      CalmIsRight(trace[j], k);
    }
  }

  /**
   While nobody changes or marks a block that was found without valid data, and nothing but its sector is put in, every
   step of reading it in is right, up to the last one.
   */
  lemma {:induction false} NoChangeIsRight(limit: nat, trace: seq<State>, events: seq<Event>, done: seq<bool>,
                                           out: seq<Sector>, n: nat, i: nat, j: nat, k: Key)
    requires Stepwise(limit, trace, events, done, out, n) && i <= j <= n && Sound(trace[0])
             && k in trace[i].transit.quiet
    requires forall m :: i <= m < j && done[m] ==> Undisturbed(trace[m], events[m], k)
    requires forall m :: i <= m <= j ==> k in trace[m].transit.filling
    ensures k in trace[j].transit.quiet && k in trace[j].disk
    ensures Right(trace[j], FillArrive(k)) && Right(trace[j], BulkStore(k, trace[j].disk[k]))
    ensures k in trace[j].transit.arrived ==> Right(trace[j], FillFlag(k)) && Right(trace[j], BulkFlag(k))
    ensures Right(trace[j], FillClean(k))
    decreases j
  {
    if i < j {
      NoChangeIsRight(limit, trace, events, done, out, n, i, j - 1, k);
      QuietStep(limit, trace[j - 1], events[j - 1], done[j - 1], out[j - 1], trace[j], k);
    }
    TraceIsSound(limit, trace, events, done, out, n, j);
    QuietIsRight(trace[j], k);
  }

  // ---- Reading past the cache ----

  /** The step writes block `k` to the disk. */
  predicate WritesOut(s: State, e: Event, k: Key) {
    e == EvictWrite(k) || (e.Flush? && k in s.traffic.batch)
  }

  lemma DiskStep(limit: nat, s: State, e: Event, done: bool, out: Sector, s': State, k: Key)
    requires Sound(s) && Stepped(limit, s, e, done, out, s') && k in s.disk && (done ==> !WritesOut(s, e, k))
    ensures k in s'.disk && s'.disk[k] == s.disk[k]
  {
    StepIs(limit, s, e, done, out, s');
    if done && e.Flush? {
      FlushSpares(s, s', k);
    } else if done {
      OneWrite(s, e, s', k);
    }
  }

  lemma FlushSpares(s: State, s': State, k: Key)
    requires Sound(s) && Took(s, Flush, s') && |s.traffic.io| == |s.traffic.batch| && k in s.disk
    requires k !in s.traffic.batch
    ensures k in s'.disk && s'.disk[k] == s.disk[k]
  {
    assert Look(s', 0);
    BatchIsPinned(s.disk, s.cache, s.lru, s.lists, s.traffic, s.users, s.touched);
    WriteRunAt(s.disk, s.traffic.batch, s.traffic.io, k);
  }

  lemma OneWrite(s: State, e: Event, s': State, k: Key)
    requires Took(s, e, s') && !e.Flush? && e != EvictWrite(k) && k in s.disk
    ensures k in s'.disk && s'.disk[k] == s.disk[k]
  {
    assert Look(s', 0);
  }

  /** A sector nobody writes stays what it was. */
  lemma {:induction false} UnwrittenStays(limit: nat, trace: seq<State>, events: seq<Event>, done: seq<bool>,
                                          out: seq<Sector>, n: nat, i: nat, j: nat, k: Key)
    requires Stepwise(limit, trace, events, done, out, n) && i <= j <= n && Sound(trace[0]) && k in trace[i].disk
    requires forall m :: i <= m < j && done[m] ==> !WritesOut(trace[m], events[m], k)
    ensures k in trace[j].disk && trace[j].disk[k] == trace[i].disk[k]
    decreases j
  {
    if i < j {
      UnwrittenStays(limit, trace, events, done, out, n, i, j - 1, k);
      TraceIsSound(limit, trace, events, done, out, n, j - 1);
      DiskStep(limit, trace[j - 1], events[j - 1], done[j - 1], out[j - 1], trace[j], k);
    }
  }

  /**
   `bread_multi` keeps the bytes it read at `i` and finds the block without valid data at `f`. Putting them in and
   setting the flag is right up to `j` when no write of the block reaches the disk from `i` on, and nobody changes or
   marks it or puts other bytes in from `f` on.
   */
  lemma BulkPutIsRight(limit: nat, trace: seq<State>, events: seq<Event>, done: seq<bool>, out: seq<Sector>, n: nat,
                       i: nat, f: nat, j: nat, k: Key)
    requires Stepwise(limit, trace, events, done, out, n) && i <= f <= j <= n && Sound(trace[0])
    requires k in trace[i].disk && k in trace[f].transit.quiet
    requires forall m :: i <= m < j && done[m] ==> !WritesOut(trace[m], events[m], k)
    requires forall m :: f <= m < j && done[m] ==> Undisturbed(trace[m], events[m], k)
    requires forall m :: f <= m <= j ==> k in trace[m].transit.filling
    ensures Right(trace[j], BulkStore(k, trace[i].disk[k]))
    ensures k in trace[j].transit.arrived ==> Right(trace[j], BulkFlag(k))
  {
    UnwrittenStays(limit, trace, events, done, out, n, i, j, k);
    NoChangeIsRight(limit, trace, events, done, out, n, f, j, k);
  }

  /** The sector read as `d` at some point from `i` to `j`. */
  ghost predicate Recent(trace: seq<State>, i: nat, j: nat, k: Key, d: Sector) {
    exists m :: i <= m <= j && m < |trace| && k in ViewOf(trace[m]) && ViewOf(trace[m])[k] == d
  }

  /** The write-back thread has copied `d` to write it to block `k`. */
  ghost predicate CopyOf(s: State, k: Key, d: Sector) {
    exists q :: 0 <= q < |s.traffic.io| && q < |s.traffic.batch| && s.traffic.batch[q] == k && s.traffic.io[q] == d
  }

  /** What is on the disk, and what is copied to go there, the sector read as since `i`. */
  ghost predicate AllRecent(trace: seq<State>, i: nat, j: nat, k: Key) {
    && j < |trace| && k in trace[j].disk && Recent(trace, i, j, k, trace[j].disk[k])
    && forall d :: CopyOf(trace[j], k, d) ==> Recent(trace, i, j, k, d)
  }

  /** The disk and the copies get what was there, what was copied, or what is read. */
  ghost predicate Fed(s: State, s': State, k: Key) {
    && k in s.disk && k in s'.disk && k in ViewOf(s)
    && (s'.disk[k] == s.disk[k] || s'.disk[k] == ViewOf(s)[k] || CopyOf(s, k, s'.disk[k]))
    && forall d :: CopyOf(s', k, d) ==> CopyOf(s, k, d) || d == ViewOf(s)[k]
  }

  lemma CopiesStep(limit: nat, s: State, e: Event, done: bool, out: Sector, s': State, k: Key)
    requires Sound(s) && Stepped(limit, s, e, done, out, s') && k in s.disk
    ensures Fed(s, s', k)
  {
    StepIs(limit, s, e, done, out, s');
    if done && e.Flush? {
      FlushFeeds(s, s', k);
    } else if done && e.EvictWrite? {
      EvictFeeds(s, e.k, s', k);
    } else if done && e.CopyNext? {
      CopyNextIsRead(s, s', k);
    } else {
      OthersFeedNothing(limit, s, e, done, out, s');
      StillFed(s, s', k);
    }
  }

  lemma OthersFeedNothing(limit: nat, s: State, e: Event, done: bool, out: Sector, s': State)
    requires Stepped(limit, s, e, done, out, s') && (done ==> !e.Flush? && !e.EvictWrite? && !e.CopyNext?)
    ensures s'.disk == s.disk
    ensures s'.traffic.io == [] || (s'.traffic.io == s.traffic.io && s'.traffic.batch == s.traffic.batch)
  {
    StepIs(limit, s, e, done, out, s');
    if done {
      NoTransfer(s, e, s');
    }
  }

  lemma NoTransfer(s: State, e: Event, s': State)
    requires Took(s, e, s') && !e.Flush? && !e.EvictWrite? && !e.CopyNext?
    ensures s'.disk == s.disk
    ensures s'.traffic.io == [] || (s'.traffic.io == s.traffic.io && s'.traffic.batch == s.traffic.batch)
  {
    assert Look(s', 0);
  }

  lemma StillFed(s: State, s': State, k: Key)
    requires k in s.disk && s'.disk == s.disk
    requires s'.traffic.io == [] || (s'.traffic.io == s.traffic.io && s'.traffic.batch == s.traffic.batch)
    ensures Fed(s, s', k)
  {
  }

  lemma FlushFeeds(s: State, s': State, k: Key)
    requires Sound(s) && Took(s, Flush, s') && |s.traffic.io| == |s.traffic.batch| && k in s.disk
    ensures Fed(s, s', k)
  {
    assert Look(s', 0);
    if k in s.traffic.batch {
      BatchIsPinned(s.disk, s.cache, s.lru, s.lists, s.traffic, s.users, s.touched);
      WriteRunAt(s.disk, s.traffic.batch, s.traffic.io, k);
      var q :| 0 <= q < |s.traffic.batch| && s.traffic.batch[q] == k;
      assert CopyOf(s, k, s.traffic.io[q]);
    } else {
      FlushSpares(s, s', k);
    }
  }

  lemma EvictFeeds(s: State, v: Key, s': State, k: Key)
    requires Sound(s) && Took(s, EvictWrite(v), s') && v in s.traffic.leaving && k in s.disk
    ensures Fed(s, s', k)
  {
    assert Look(s', 0);
    WriteOutKeeps(s.disk, s.cache, s.lru, s.lists, s.traffic, s.users, s.touched, v);
    DirtyIsValid(s.disk, s.cache, s.lru, s.lists, s.traffic, s.users, s.touched, v);
    assert forall d :: CopyOf(s', k, d) ==> CopyOf(s, k, d);
  }

  lemma CopyNextIsRead(s: State, s': State, k: Key)
    requires Sound(s) && Took(s, CopyNext, s') && k in s.disk
    ensures Fed(s, s', k)
  {
    assert Look(s', 0);
    var next := s.traffic.batch[|s.traffic.io|];
    assert next in s.cache && s.cache[next].valid by {
      assert Look(s.cache, 0) && Look(s.traffic, 0);
      assert next in s.traffic.batch && next in ValidKeys(s.cache);
    }
    forall d | CopyOf(s', k, d)
      ensures CopyOf(s, k, d) || d == ViewOf(s)[k]
    {
      var q :| 0 <= q < |s'.traffic.io| && q < |s'.traffic.batch| && s'.traffic.batch[q] == k && s'.traffic.io[q] == d;
      assert q < |s.traffic.io| ==> s.traffic.io[q] == d;
    }
  }

  /** A block without valid data in the cache: the disk has what is read, and no copy is on its way. */
  lemma EmptyIsRecent(trace: seq<State>, i: nat, k: Key)
    requires i < |trace| && Sound(trace[i]) && k in trace[i].disk
    requires k in trace[i].cache ==> !trace[i].cache[k].valid
    ensures AllRecent(trace, i, i, k)
  {
    var s := trace[i];
    assert ViewOf(s)[k] == s.disk[k];
    NotInBatch(s, k);
  }

  lemma NotInBatch(s: State, k: Key)
    requires Sound(s) && (k in s.cache ==> !s.cache[k].valid)
    ensures k !in s.traffic.batch
  {
    assert Look(s.cache, 0) && Look(s.traffic, 0);
  }

  lemma RecentNext(trace: seq<State>, i: nat, j: nat, k: Key)
    requires i <= j && j + 1 < |trace| && AllRecent(trace, i, j, k) && Fed(trace[j], trace[j + 1], k)
    ensures AllRecent(trace, i, j + 1, k)
  {
    RecentNow(trace, i, j, k);
    forall d | Recent(trace, i, j, k, d)
      ensures Recent(trace, i, j + 1, k, d)
    {
      RecentStill(trace, i, j, k, d);
    }
    assert Recent(trace, i, j, k, trace[j + 1].disk[k]);
    var next, j' := trace[j + 1], j + 1;
    forall d | CopyOf(next, k, d)
      ensures Recent(trace, i, j', k, d)
    {
      assert Recent(trace, i, j, k, d);
    }
  }

  lemma RecentNow(trace: seq<State>, i: nat, j: nat, k: Key)
    requires i <= j < |trace| && k in ViewOf(trace[j])
    ensures Recent(trace, i, j, k, ViewOf(trace[j])[k])
  {
  }

  lemma RecentStill(trace: seq<State>, i: nat, j: nat, k: Key, d: Sector)
    requires Recent(trace, i, j, k, d)
    ensures Recent(trace, i, j + 1, k, d)
  {
    var m :| i <= m <= j && m < |trace| && k in ViewOf(trace[m]) && ViewOf(trace[m])[k] == d;
    assert i <= m <= j + 1;
  }

  /**
   What `bread_multi` returns. It finds a block absent or without valid data at `i` and reads the sector from the disk
   at `j`, whatever happens in between: the bytes are what the sector read as at some point from `i` to `j`.
   */
  lemma {:induction false} BulkReadIsRecent(limit: nat, trace: seq<State>, events: seq<Event>, done: seq<bool>,
                                            out: seq<Sector>, n: nat, i: nat, j: nat, k: Key)
    requires Stepwise(limit, trace, events, done, out, n) && i <= j <= n && Sound(trace[0])
    requires k in trace[i].disk && (k in trace[i].cache ==> !trace[i].cache[k].valid)
    ensures AllRecent(trace, i, j, k)
    ensures j < n && done[j] && events[j] == BulkRead(k) ==> Recent(trace, i, j, k, out[j])
    decreases j
  {
    if i < j {
      BulkReadIsRecent(limit, trace, events, done, out, n, i, j - 1, k);
      TraceIsSound(limit, trace, events, done, out, n, j - 1);
      CopiesStep(limit, trace[j - 1], events[j - 1], done[j - 1], out[j - 1], trace[j], k);
      RecentNext(trace, i, j - 1, k);
    } else {
      TraceIsSound(limit, trace, events, done, out, n, i);
      EmptyIsRecent(trace, i, k);
    }
    if j < n {
      StepIs(limit, trace[j], events[j], done[j], out[j], trace[j + 1]);
    }
  }

  class Cache {
    var disk: map<Key, Sector>
    var cache: map<Key, Buf>
    var lru: seq<Key>
    var curBlkNum: nat
    const maxBlkNum: nat
    /** Device `d` has lists `2 * d` and `2 * d + 1`; `active[d]` says which of them takes new entries. */
    var lists: seq<seq<Key>>
    var active: seq<nat>
    var traffic: Traffic
    /** The callers' side: the pins they have, and the pinned blocks changed since they were last marked dirty. */
    var users: multiset<Key>
    var touched: set<Key>
    var transit: Transit

    function Limit(): nat {
      maxBlkNum * 9 / 10
    }

    ghost predicate Valid()
      reads this
    {
      && Inv(disk, cache, lru, lists, traffic, users, touched)
      && Moving(disk, cache, traffic.batch, users, touched, traffic.leaving, transit)
      && curBlkNum == |lru|
      && |lists| == 2 * |active| && (forall d :: 0 <= d < |active| ==> active[d] < 2)
      && (forall k :: k in disk ==> k.dev < |active|)
    }

    ghost function Memory(): map<Key, Sector>
      reads this
    {
      Contents(disk, cache)
    }

    constructor (disk: map<Key, Sector>, maxBlkNum: nat, devices: nat)
      requires forall k :: k in disk ==> k.dev < devices
      ensures Valid() && Memory() == disk && Idle() && Still() && this.maxBlkNum == maxBlkNum
      ensures this.disk == disk && cache == map[] && lru == [] && curBlkNum == 0 && users == multiset{} && touched == {}
      ensures lists == seq(2 * devices, _ => []) && active == seq(devices, _ => 0) && transit == AtRest({})
    {
      this.disk, this.maxBlkNum := disk, maxBlkNum;
      cache, lru, curBlkNum := map[], [], 0;
      lists, active := seq(2 * devices, _ => []), seq(devices, _ => 0);
      traffic := Traffic([], [], [], [], {});
      users, touched, transit := multiset{}, {}, AtRest({});
      new;
      assert LruOk({}, []) && cache.Keys == {} && DirtyKeys(cache) == {};
      assert QueuesOk({}, lists, []);
    }

    ghost predicate AllPinned()
      reads this
    {
      forall k :: k in cache ==> cache[k].refCount > 0
    }

    /** `find_victim`: the least recently used block that nobody has pinned. */
    method FindVictim() returns (victim: Option<Key>)
      requires Valid()
      ensures victim.None? <==> AllPinned()
      ensures victim.Some? ==> LeastRecent(cache, lru, victim.value)
    {
      forall k
        ensures k in lru <==> k in cache
      {
        CachedOnDisk(disk, cache, lru, lists, traffic, users, touched, k);
      }
      for i := 0 to |lru|
        invariant forall j :: 0 <= j < i ==> lru[j] in cache && cache[lru[j]].refCount > 0
      {
        assert lru[i] in lru;
        if cache[lru[i]].refCount == 0 {
          assert LeastRecent(cache, lru, lru[i]);
          return Some(lru[i]);
        }
      }
      return None;
    }

    /** No caller is in the middle of a transfer without the lock. */
    ghost predicate Still()
      reads this
    {
      traffic.leaving == {} && transit == AtRest(transit.captured)
    }

    /** `blk_evict` on a block that is clean, or that was taken off its list and written. */
    method Evict(k: Key)
      requires Valid() && k in cache && cache[k].refCount == 0
      requires cache[k].dirty ==> k in traffic.leaving && k in disk && cache[k].data == disk[k]
      modifies `cache, `lru, `curBlkNum, `traffic, `transit
      ensures Valid() && Memory() == old(Memory())
      ensures cache == old(cache) - {k} && lru == Without(old(lru), k) && curBlkNum == old(curBlkNum) - 1
      ensures traffic == old(traffic).(leaving := old(traffic).leaving - {k})
      ensures transit == old(transit).(written := old(transit).written - {k}, calm := old(transit).calm - {k})
    {
      DropKeeps(disk, cache, lru, lists, traffic, users, touched, k);
      CachedOnDisk(disk, cache, lru, lists, traffic, users, touched, k);
      MovingDrop(disk, cache, traffic.batch, users, touched, traffic.leaving, transit, k);
      lru := Without(lru, k);
      cache := cache - {k};
      curBlkNum := curBlkNum - 1;
      traffic := traffic.(leaving := traffic.leaving - {k});
      transit := transit.(written := transit.written - {k}, calm := transit.calm - {k});
    }

    /** A dirty victim is taken off its list; the lock is given up. */
    method StartEviction(k: Key)
      requires Valid() && k in cache && cache[k].refCount == 0 && cache[k].dirty && k !in traffic.leaving
      modifies `lists, `traffic, `transit
      ensures Valid() && lists == Unlink(old(lists), k)
      ensures traffic == old(traffic).(leaving := old(traffic).leaving + {k})
      ensures transit == old(transit).(calm := old(transit).calm + {k})
    {
      LeaveKeeps(disk, cache, lru, lists, traffic, users, touched, k);
      CachedOnDisk(disk, cache, lru, lists, traffic, users, touched, k);
      MovingLeave(disk, cache, traffic.batch, users, touched, traffic.leaving, transit, k);
      lists := Unlink(lists, k);
      traffic := traffic.(leaving := traffic.leaving + {k});
      transit := transit.(calm := transit.calm + {k});
    }

    /** It is written, without the lock. */
    method WriteOut(k: Key)
      requires Valid() && k in traffic.leaving
      modifies `disk, `transit
      ensures Valid() && Memory() == old(Memory()) && k in cache && disk == old(disk)[k := cache[k].data]
      ensures disk.Keys == old(disk).Keys && transit == old(transit).(written := old(transit).written + {k})
    {
      WriteOutKeeps(disk, cache, lru, lists, traffic, users, touched, k);
      MovingWriteOut(disk, cache, traffic.batch, users, touched, traffic.leaving, transit, k);
      disk := disk[k := cache[k].data];
      transit := transit.(written := transit.written + {k});
    }

    /** A victim goes, with no other step in between. */
    method EvictAlone(k: Key)
      requires Valid() && Still() && k in cache && cache[k].refCount == 0
      modifies `disk, `cache, `lru, `lists, `curBlkNum, `traffic, `transit
      ensures Valid() && Still() && Memory() == old(Memory()) && disk.Keys == old(disk).Keys
      ensures cache == old(cache) - {k} && lru == Without(old(lru), k) && curBlkNum == old(curBlkNum) - 1
      ensures traffic == old(traffic)
    {
      if cache[k].dirty {
        StartEviction(k);
        WriteOut(k);
      }
      Evict(k);
      assert {k} - {k} == {};
    }

    /**
     The reclaim loop of `getblk`. Below the limit it takes nothing; otherwise the least recently used blocks that
     nobody has pinned go, no more than needed, and it fails when there are too few of them.
     */
    method MakeRoom() returns (ok: bool)
      requires Valid() && Still()
      modifies `disk, `cache, `lru, `lists, `curBlkNum, `traffic, `transit
      ensures Valid() && Still() && Memory() == old(Memory()) && disk.Keys == old(disk).Keys && traffic == old(traffic)
      ensures EvictedInOrder(old(lru), old(cache), cache)
      ensures old(curBlkNum) < Limit()
              ==> cache == old(cache) && disk == old(disk) && lru == old(lru) && lists == old(lists)
      ensures ok ==> curBlkNum == if old(curBlkNum) < Limit() then old(curBlkNum) else Limit() - 1
      ensures !ok ==> Limit() <= curBlkNum <= old(curBlkNum) && AllPinned()
    {
      while curBlkNum >= Limit()
        invariant curBlkNum <= old(curBlkNum) && Valid() && Memory() == old(Memory()) && disk.Keys == old(disk).Keys
        invariant Still() && traffic == old(traffic)
        invariant EvictedInOrder(old(lru), old(cache), cache) && SameOrder(old(lru), lru)
        invariant old(curBlkNum) < Limit()
                  ==> cache == old(cache) && disk == old(disk) && lru == old(lru) && lists == old(lists)
        invariant old(curBlkNum) < Limit() ==> curBlkNum == old(curBlkNum)
        invariant old(curBlkNum) >= Limit() ==> curBlkNum >= Limit() - 1
        decreases curBlkNum
      {
        var victim := FindVictim();
        if victim.None? {
          return false;
        }
        NextInOrder(victim.value, old(lru), old(cache));
        EvictAlone(victim.value);
      }
      ok := true;
    }

    /** The least recently used unpinned block is the next to go. */
    lemma NextInOrder(v: Key, lru0: seq<Key>, cache0: map<Key, Buf>)
      requires Valid() && LeastRecent(cache, lru, v) && EvictedInOrder(lru0, cache0, cache) && SameOrder(lru0, lru)
      ensures EvictedInOrder(lru0, cache0, cache - {v}) && SameOrder(lru0, Without(lru, v))
    {
      forall y | y in cache && y != v && cache[y].refCount == 0
        ensures Before(lru0, v, y)
      {
        CachedOnDisk(disk, cache, lru, lists, traffic, users, touched, y);
        LeastRecentBefore(cache, lru, v, y);
      }
      forall x, y | Before(Without(lru, v), x, y)
        ensures Before(lru0, x, y)
      {
        WithoutKeepsOrder(lru, v, x, y);
      }
    }

    /** `getblk`, with no other step in between: pin the block's buffer, a new one without valid data if it has none. */
    method Getblk(k: Key, junk: Sector) returns (ok: bool)
      requires Valid() && Still() && k in disk
      modifies `disk, `cache, `lru, `lists, `curBlkNum, `users, `traffic, `transit
      ensures Valid() && Still() && Memory() == old(Memory()) && disk.Keys == old(disk).Keys && traffic == old(traffic)
      ensures ok ==> users == old(users) + multiset{k} && k in cache && lru != [] && lru[|lru| - 1] == k
      ensures k in old(cache) ==> ok && cache == old(cache)[k := old(cache)[k].(refCount := old(cache)[k].refCount + 1)]
      ensures ok && k !in old(cache)
              ==> cache[k] == Buf(junk, false, false, 1) && EvictedInOrder(old(lru), old(cache), cache - {k})
      ensures ok && k !in old(cache) && old(curBlkNum) < Limit()
              ==> cache == old(cache)[k := Buf(junk, false, false, 1)]
      ensures !ok ==> users == old(users) && k !in old(cache) && old(curBlkNum) >= curBlkNum >= Limit() && AllPinned()
      ensures k in old(cache) ==> curBlkNum == old(curBlkNum)
      ensures k !in old(cache) && old(curBlkNum) < Limit() ==> curBlkNum == old(curBlkNum) + 1
      ensures old(curBlkNum) <= Limit() ==> curBlkNum <= Limit()
    {
      if k in cache {
        Hit(k);
        assert transit == AtRest(transit.captured);
        return true;
      }
      ok := MakeRoom();
      if ok {
        PinOrInsert(k, junk);
      }
    }

    method Hit(k: Key)
      requires Valid() && k in cache
      modifies `cache, `lru, `users, `transit
      ensures Valid() && Memory() == old(Memory()) && users == old(users) + multiset{k}
      ensures cache == old(cache)[k := old(cache)[k].(refCount := old(cache)[k].refCount + 1)]
      ensures lru == Without(old(lru), k) + [k] && transit == old(transit).(calm := old(transit).calm - {k})
    {
      HitKeeps(disk, cache, lru, lists, traffic, users, touched, k);
      MovingPin(disk, cache, traffic.batch, users, touched, traffic.leaving, transit, k);
      transit := transit.(calm := transit.calm - {k});
      cache := cache[k := cache[k].(refCount := cache[k].refCount + 1)];
      lru := Without(lru, k) + [k];
      users := users + multiset{k};
    }

    /** The last locked section of `getblk`: somebody else may have brought the block in since the first look. */
    method PinOrInsert(k: Key, junk: Sector)
      requires Valid() && k in disk
      modifies `cache, `lru, `users, `curBlkNum, `transit
      ensures Valid() && Memory() == old(Memory()) && users == old(users) + multiset{k}
      ensures transit == old(transit).(calm := old(transit).calm - {k})
      ensures k in old(cache) ==>
                && cache == old(cache)[k := old(cache)[k].(refCount := old(cache)[k].refCount + 1)]
                && lru == old(lru) && curBlkNum == old(curBlkNum)
      ensures k !in old(cache) ==>
                && cache == old(cache)[k := Buf(junk, false, false, 1)]
                && lru == old(lru) + [k] && curBlkNum == old(curBlkNum) + 1
    {
      if k in cache {
        PinAgain(k);
      } else {
        Insert(k, junk);
      }
    }

    method PinAgain(k: Key)
      requires Valid() && k in cache
      modifies `cache, `users, `transit
      ensures Valid() && Memory() == old(Memory()) && users == old(users) + multiset{k}
      ensures transit == old(transit).(calm := old(transit).calm - {k})
      ensures cache == old(cache)[k := old(cache)[k].(refCount := old(cache)[k].refCount + 1)]
    {
      AgainKeeps(disk, cache, lru, lists, traffic, users, touched, k);
      MovingPin(disk, cache, traffic.batch, users, touched, traffic.leaving, transit, k);
      var b := cache[k].(refCount := cache[k].refCount + 1);
      cache, users, transit := cache[k := b], users + multiset{k}, transit.(calm := transit.calm - {k});
    }

    method Insert(k: Key, junk: Sector)
      requires Valid() && k !in cache && k in disk
      modifies `cache, `lru, `users, `curBlkNum, `transit
      ensures Valid() && Memory() == old(Memory()) && users == old(users) + multiset{k}
      ensures transit == old(transit).(calm := old(transit).calm - {k})
      ensures cache == old(cache)[k := Buf(junk, false, false, 1)] && lru == old(lru) + [k]
      ensures curBlkNum == old(curBlkNum) + 1
    {
      InsertKeeps(disk, cache, lru, lists, traffic, users, touched, k, junk);
      MovingInsert(disk, cache, traffic.batch, users, touched, traffic.leaving, transit, k,
                   Buf(junk, false, false, 1));
      assert transit.calm - {k} == transit.calm;
      cache := cache[k := Buf(junk, false, false, 1)];
      lru := lru + [k];
      curBlkNum := curBlkNum + 1;
      users := users + multiset{k};
      transit := transit.(calm := transit.calm - {k});
    }

    /** The valid flag is found clear; from here on nothing is done under the lock. */
    method StartFill(k: Key)
      requires Valid() && k in cache && !HasFlag(cache, transit, k) && transit.filling[k] < users[k]
      modifies `transit
      ensures Valid() && transit == FillStarted(old(transit), cache, k)
    {
      if !cache[k].valid {
        EmptyIsClean(disk, cache, lru, lists, traffic, users, touched, k);
      }
      MovingFillStart(disk, cache, traffic.batch, users, touched, traffic.leaving, transit, k);
      transit := FillStarted(transit, cache, k);
    }

    /** Bytes go in; those in the buffer do not count, or are the same. */
    method Store(k: Key, data: Sector)
      requires Valid() && Awaits(Now(), k) && (cache[k].valid ==> cache[k].data == data)
      modifies `cache, `transit
      ensures Valid() && Memory() == old(Memory()) && transit == Stored(old(transit), disk, k, data)
      ensures cache == old(cache)[k := old(cache)[k].(data := data)]
    {
      StoreSurvivesIff(disk, cache, lru, lists, traffic, users, touched, k, data);
      FillerHasPin(k);
      MovingStore(disk, cache, traffic.batch, users, touched, traffic.leaving, transit, k, data);
      transit := Stored(transit, disk, k, data);
      cache := cache[k := cache[k].(data := data)];
    }

    /** The valid flag is set; the bytes counted before, or are those on the disk. */
    method SetFlag(k: Key)
      requires Valid() && k in transit.arrived && RightToFlag(Now(), k)
      modifies `cache, `transit
      ensures Valid() && Memory() == old(Memory()) && transit == Flagged(old(transit), k)
      ensures cache == old(cache)[k := old(cache)[k].(valid := true)]
    {
      FlagSurvivesIff(disk, cache, lru, lists, traffic, users, touched, k);
      MovingFlag(disk, cache, traffic.batch, users, touched, traffic.leaving, transit, k);
      transit := Flagged(transit, k);
      cache := cache[k := cache[k].(valid := true)];
    }

    /** The caller is through with it. In `_bread` it has cleared the dirty flag, which was clear. */
    method EndFill(k: Key)
      requires Valid() && k in transit.flagged
      modifies `transit
      ensures Valid() && transit == FillEnded(old(transit), k)
    {
      MovingFillEnd(disk, cache, traffic.batch, users, touched, traffic.leaving, transit, k);
      transit := FillEnded(transit, k);
    }

    /** A sector is read past the cache. */
    method Capture(k: Key) returns (data: Sector)
      requires Valid() && k in disk
      modifies `transit
      ensures Valid() && data == disk[k]
      ensures transit == old(transit).(captured := old(transit).captured + {(k, data)})
    {
      data := disk[k];
      MovingCapture(disk, cache, traffic.batch, users, touched, traffic.leaving, transit,
                    transit.captured + {(k, data)});
      transit := transit.(captured := transit.captured + {(k, data)});
    }

    lemma FillerHasPin(k: Key)
      requires Valid()
      ensures transit.filling[k] <= users[k]
      ensures k in transit.filling ==> k in users && k in cache && k in disk && cache[k].refCount > 0
    {
      assert Look(transit, 0);
      CachedOnDisk(disk, cache, lru, lists, traffic, users, touched, k);
    }

    /** The second half of `_bread`, with no other step in between. */
    method Fill(k: Key)
      requires Valid() && Still() && k in users
      modifies `cache, `transit
      ensures Valid() && Still() && Memory() == old(Memory())
      ensures k in disk && k in cache && cache[k].valid && cache[k].data == Memory()[k] && k in old(cache)
      ensures cache == if old(cache)[k].valid then old(cache)
                       else old(cache)[k := Buf(disk[k], false, true, old(cache)[k].refCount)]
    {
      CachedOnDisk(disk, cache, lru, lists, traffic, users, touched, k);
      if !cache[k].valid {
        EmptyIsClean(disk, cache, lru, lists, traffic, users, touched, k);
        FillAlone(k, disk[k]);
      }
    }

    /** Bytes of the sector put into an empty buffer, with no other step in between. */
    method FillAlone(k: Key, data: Sector)
      requires Valid() && Still() && k in users && k in cache && !cache[k].valid && k in disk && data == disk[k]
      modifies `cache, `transit
      ensures Valid() && Still() && Memory() == old(Memory())
      ensures cache == old(cache)[k := old(cache)[k].(data := data, valid := true)]
    {
      StartFill(k);
      Store(k, data);
      SetFlag(k);
      EndFill(k);
    }

    /** A caller that has the block changes its bytes in place; the valid flag is not touched. */
    method CopyIn(k: Key, data: Sector)
      requires Valid() && k in users
      modifies `cache, `touched, `transit
      ensures Valid() && k in disk && Memory() == old(Memory())[k := data]
      ensures k in old(cache) && transit == Changed(old(transit), old(cache), k) && touched == old(touched) + {k}
      ensures cache == old(cache)[k := old(cache)[k].(data := data, valid := true)]
    {
      CopyInKeeps(disk, cache, lru, lists, traffic, users, touched, k, data);
      CachedOnDisk(disk, cache, lru, lists, traffic, users, touched, k);
      MovingChange(disk, cache, traffic.batch, users, touched, traffic.leaving, transit, k, data);
      transit := Changed(transit, cache, k);
      cache := cache[k := cache[k].(data := data, valid := true)];
      touched := touched + {k};
    }

    /** The caller sets the valid flag of what it changed. */
    method Publish(k: Key)
      requires Valid()
      modifies `transit
      ensures Valid() && transit == old(transit).(unset := old(transit).unset - {k})
    {
      MovingPublish(disk, cache, traffic.batch, users, touched, traffic.leaving, transit, k);
      transit := transit.(unset := transit.unset - {k});
    }

    /** `bwrite`: queue the block on its device's active list, unless it is queued already. */
    method Bwrite(k: Key)
      requires Valid() && k in users && HasFlag(cache, transit, k)
      modifies `cache, `lists, `touched, `transit
      ensures Valid() && Memory() == old(Memory()) && transit == old(transit).(quiet := old(transit).quiet - {k})
      ensures touched == old(touched) - {k} && cache == old(cache)[k := old(cache)[k].(dirty := true)]
      ensures 2 * k.dev + 1 < |lists| == |old(lists)| && k.dev < |active|
      ensures old(cache)[k].dirty ==> lists == old(lists)
      ensures !old(cache)[k].dirty ==>
                var i := 2 * k.dev + active[k.dev];
                i < |lists| && lists == old(lists)[i := old(lists)[i] + [k]]
    {
      CachedOnDisk(disk, cache, lru, lists, traffic, users, touched, k);
      var i := 2 * k.dev + active[k.dev];
      MarkKeeps(disk, cache, lru, lists, traffic, users, touched, k, i);
      MovingMark(disk, cache, traffic.batch, users, touched, traffic.leaving, transit, k);
      transit := transit.(quiet := transit.quiet - {k});
      if !cache[k].dirty {
        lists := lists[i := lists[i] + [k]];
      }
      cache := cache[k := cache[k].(dirty := true)];
      touched := touched - {k};
    }

    /** `brelse`. A caller marks what it changed before it lets go, and does not let go while it reads the sector in. */
    method Brelse(k: Key)
      requires Valid() && transit.filling[k] < users[k] && (k in touched ==> users[k] > transit.filling[k] + 1)
      modifies `cache, `users
      ensures Valid() && Memory() == old(Memory())
      ensures users == old(users) - multiset{k} && k in old(cache) && old(cache)[k].refCount > 0
      ensures cache == old(cache)[k := old(cache)[k].(refCount := old(cache)[k].refCount - 1)]
    {
      ReleaseKeeps(disk, cache, lru, lists, traffic, users, touched, k);
      MovingRelease(disk, cache, traffic.batch, users, touched, traffic.leaving, transit, k);
      cache := cache[k := cache[k].(refCount := cache[k].refCount - 1)];
      users := users - multiset{k};
    }

    // ---- The steps of the write-back thread ----

    ghost predicate Idle()
      reads this
    {
      traffic.sorted == [] && traffic.batch == [] && traffic.io == [] && traffic.flushed == []
    }

    /** New entries go to the device's other list from now on. */
    method Flip(dev: nat) returns (old_idx: nat)
      requires Valid() && dev < |active|
      modifies `active
      ensures Valid() && old_idx == old(active)[dev] && active == old(active)[dev := 1 - old_idx]
    {
      old_idx := active[dev];
      active := active[dev := 1 - old_idx];
    }

    /** The first block of a list is pinned and put in order. */
    method Collect(i: nat)
      requires Valid() && i < |lists| && lists[i] != []
      requires traffic.batch == [] && traffic.io == [] && traffic.flushed == [] && OnDevice(traffic.sorted, i / 2)
      modifies `cache, `lists, `traffic
      ensures Valid() && Memory() == old(Memory()) && cache.Keys == old(cache).Keys
      ensures lists == old(lists)[i := old(lists)[i][1..]] && old(lists)[i][0] in old(cache)
      ensures var k := old(lists)[i][0];
              cache == old(cache)[k := old(cache)[k].(refCount := old(cache)[k].refCount + 1)]
      ensures traffic == old(traffic).(sorted := InsertOrder(old(traffic).sorted, old(lists)[i][0]))
              && OnDevice(traffic.sorted, i / 2)
    {
      CollectKeeps(disk, cache, lru, lists, traffic, users, touched, i);
      var k := lists[i][0];
      QueuedIsDirty(disk, cache, lru, lists, traffic, users, touched, i);
      MovingCollect(disk, cache, traffic.batch, users, touched, traffic.leaving, transit, k);
      lists := lists[i := lists[i][1..]];
      cache := cache[k := cache[k].(refCount := cache[k].refCount + 1)];
      traffic := traffic.(sorted := InsertOrder(traffic.sorted, k));
    }

    /** The longest run of consecutive sectors at the front, up to a batch. */
    method RunLength() returns (c: nat)
      requires Valid() && traffic.sorted != []
      ensures FirstRun(traffic.sorted, c)
    {
      var sorted := traffic.sorted;
      assert Ascending(sorted) by {
        assert Look(cache, 0) && Look(traffic, 0);
      }
      c := 1;
      while c < MAX_BATCH && c < |sorted| && sorted[c].lba == sorted[c - 1].lba + 1
        invariant 0 < c <= |sorted| && c <= MAX_BATCH && Run(sorted[..c])
      {
        TakeRun(sorted, c);
        c := c + 1;
      }
    }

    /** Take a batch off the ordered list and mark its blocks clean. */
    method TakeBatch()
      requires Valid() && traffic.sorted != [] && traffic.batch == [] && traffic.io == [] && traffic.flushed == []
      modifies `cache, `traffic
      ensures Valid() && Memory() == old(Memory()) && cache.Keys == old(cache).Keys
      ensures FirstRun(old(traffic).sorted, |traffic.batch|)
      ensures traffic.batch + traffic.sorted == old(traffic).sorted
      ensures traffic == Traffic(traffic.sorted, traffic.batch, [], [], old(traffic).leaving)
      ensures cache == ClearDirty(old(cache), traffic.batch)
    {
      var c := RunLength();
      TakeKeeps(disk, cache, lru, lists, traffic, users, touched, c);
      SortedIsDirty(disk, cache, lru, lists, traffic, users, touched);
      MovingTake(disk, cache, users, touched, traffic.leaving, transit, traffic.sorted[..c]);
      cache := ClearDirty(cache, traffic.sorted[..c]);
      traffic := traffic.(sorted := traffic.sorted[c..], batch := traffic.sorted[..c], io := [], flushed := []);
    }

    /** Copy the next block of the batch into the write buffer. */
    method CopyOut()
      requires Valid() && |traffic.io| < |traffic.batch|
      modifies `traffic
      ensures Valid() && old(traffic).batch[|old(traffic).io|] in cache
      ensures traffic == old(traffic).(io := old(traffic).io + [cache[old(traffic).batch[|old(traffic).io|]].data])
    {
      CopyOutKeeps(disk, cache, lru, lists, traffic, users, touched);
      traffic := traffic.(io := traffic.io + [cache[traffic.batch[|traffic.io|]].data]);
    }

    /** One write of the whole batch. */
    method WriteBatch()
      requires Valid() && |traffic.io| == |traffic.batch| > 0 && traffic.flushed == []
      modifies `disk, `traffic
      ensures Valid() && Memory() == old(Memory()) && disk.Keys == old(disk).Keys
      ensures traffic == old(traffic).(batch := [], io := [], flushed := old(traffic).batch)
      ensures disk == WriteRun(old(disk), old(traffic).batch[0].dev, old(traffic).batch[0].lba, old(traffic).io)
    {
      WriteKeeps(disk, cache, lru, lists, traffic, users, touched);
      BatchIsPinned(disk, cache, lru, lists, traffic, users, touched);
      MovingWrite(disk, cache, traffic.batch, traffic.io, users, touched, traffic.leaving, transit);
      disk := WriteRun(disk, traffic.batch[0].dev, traffic.batch[0].lba, traffic.io);
      traffic := traffic.(batch := [], io := [], flushed := traffic.batch);
    }

    /** Drop the thread's pins on the written blocks. */
    method Unpin()
      requires Valid()
      modifies `cache, `traffic
      ensures Valid() && Memory() == old(Memory()) && cache.Keys == old(cache).Keys
      ensures traffic == old(traffic).(flushed := []) && cache == Unpinned(old(cache), old(traffic).flushed)
    {
      UnpinKeeps(disk, cache, lru, lists, traffic, users, touched);
      MovingUnpin(disk, cache, traffic.batch, users, touched, traffic.leaving, transit, traffic.flushed);
      cache := Unpinned(cache, traffic.flushed);
      traffic := traffic.(flushed := []);
    }

    /** One device's part of a round of `sync_ide_buffer`, with no caller in between. */
    method SyncDevice(dev: nat)
      requires Valid() && dev < |active| && Idle()
      modifies `disk, `cache, `lists, `active, `traffic
      ensures Valid() && Idle() && Memory() == old(Memory()) && disk.Keys == old(disk).Keys
              && cache.Keys == old(cache).Keys
      ensures |lists| == |old(lists)| && lists[2 * dev + old(active)[dev]] == []
      ensures forall i :: 0 <= i < |lists| && i != 2 * dev + old(active)[dev] ==> lists[i] == old(lists)[i]
      ensures active == old(active) || active == old(active)[dev := 1 - old(active)[dev]]
    {
      if lists[2 * dev + active[dev]] == [] {
        return;
      }
      var old_idx := Flip(dev);
      var i := 2 * dev + old_idx;
      DrainList(i);
      WriteSorted();
    }

    method DrainList(i: nat)
      requires Valid() && i < |lists| && Idle()
      modifies `cache, `lists, `traffic
      ensures Valid() && Memory() == old(Memory()) && cache.Keys == old(cache).Keys && lists == old(lists)[i := []]
      ensures traffic.batch == [] && traffic.io == [] && traffic.flushed == []
    {
      while lists[i] != []
        invariant Valid() && Memory() == old(Memory()) && cache.Keys == old(cache).Keys && |lists| == |old(lists)|
        invariant lists == old(lists)[i := lists[i]] && OnDevice(traffic.sorted, i / 2)
        invariant traffic.batch == [] && traffic.io == [] && traffic.flushed == []
        decreases |lists[i]|
      {
        Collect(i);
      }
    }

    /** The ordered blocks go to the disk batch by batch. */
    method WriteSorted()
      requires Valid() && traffic.batch == [] && traffic.io == [] && traffic.flushed == []
      modifies `disk, `cache, `traffic
      ensures Valid() && Idle() && Memory() == old(Memory()) && disk.Keys == old(disk).Keys
              && cache.Keys == old(cache).Keys
    {
      while traffic.sorted != []
        invariant Valid() && Memory() == old(Memory()) && disk.Keys == old(disk).Keys && cache.Keys == old(cache).Keys
        invariant traffic.batch == [] && traffic.io == [] && traffic.flushed == []
        decreases |traffic.sorted|
      {
        TakeBatch();
        FlushBatch();
      }
    }

    method FlushBatch()
      requires Valid() && traffic.batch != [] && traffic.io == [] && traffic.flushed == []
      modifies `disk, `cache, `traffic
      ensures Valid() && Memory() == old(Memory()) && disk.Keys == old(disk).Keys && cache.Keys == old(cache).Keys
      ensures traffic == old(traffic).(batch := [], io := [], flushed := [])
    {
      while |traffic.io| < |traffic.batch|
        invariant Valid() && traffic == old(traffic).(io := traffic.io) && |traffic.io| <= |traffic.batch|
        modifies `traffic
        decreases |traffic.batch| - |traffic.io|
      {
        CopyOut();
      }
      WriteBatch();
      Unpin();
    }

    // ---- Calls ----

    /** `_bread`: what was last written there. */
    method Bread(k: Key, junk: Sector) returns (ok: bool, data: Sector)
      requires Valid() && Still() && k in disk
      modifies `disk, `cache, `lru, `lists, `curBlkNum, `users, `traffic, `transit
      ensures Valid() && Still() && Memory() == old(Memory()) && disk.Keys == old(disk).Keys
      ensures old(curBlkNum) <= Limit() ==> curBlkNum <= Limit()
      ensures ok ==> data == Memory()[k] && users == old(users) + multiset{k} && k in cache && cache[k].valid
      ensures !ok ==> users == old(users) && AllPinned()
    {
      data := [];
      ok := Getblk(k, junk);
      if ok {
        Fill(k);
        data := cache[k].data;
      }
    }

    /** A caller overwrites a block it has, marks it and lets go. */
    method PutAndRelease(k: Key, data: Sector)
      requires Valid() && Still() && k in users
      modifies `cache, `lists, `users, `touched, `transit
      ensures Valid() && Still() && k in disk && Memory() == old(Memory())[k := data]
      ensures users == old(users) - multiset{k} && touched == old(touched) - {k}
    {
      CopyIn(k, data);
      Publish(k);
      Bwrite(k);
      Brelse(k);
    }

    /** One sector of `bwrite_multi`: the whole block is overwritten, so the disk is not read. */
    method WriteSector(k: Key, data: Sector, junk: Sector) returns (ok: bool)
      requires Valid() && Still() && k in disk
      modifies `disk, `cache, `lru, `lists, `curBlkNum, `users, `touched, `traffic, `transit
      ensures Valid() && Still() && users == old(users) && disk.Keys == old(disk).Keys
      ensures old(curBlkNum) <= Limit() ==> curBlkNum <= Limit()
      ensures Memory() == if ok then old(Memory())[k := data] else old(Memory())
      ensures touched == if ok then old(touched) - {k} else old(touched)
      ensures !ok ==> AllPinned()
    {
      ok := Getblk(k, junk);
      if ok {
        PutAndRelease(k, data);
      }
    }

    /** `bwrite_multi`: every sector of the range reads as written from then on. */
    method BwriteMulti(dev: nat, start: nat, src: seq<Sector>, junk: Sector) returns (done: nat)
      requires Valid() && Still() && forall i: nat :: i < |src| ==> Nth(dev, start, i) in disk
      modifies `disk, `cache, `lru, `lists, `curBlkNum, `users, `touched, `traffic, `transit
      ensures Valid() && Still() && users == old(users) && touched <= old(touched) && done <= |src|
      ensures old(curBlkNum) <= Limit() ==> curBlkNum <= Limit()
      ensures Memory() == WriteRun(old(Memory()), dev, start, src[..done])
      ensures done < |src| ==> AllPinned()
    {
      done := 0;
      while done < |src|
        invariant Valid() && Still() && users == old(users) && touched <= old(touched) && done <= |src|
        invariant disk.Keys == old(disk).Keys && (old(curBlkNum) <= Limit() ==> curBlkNum <= Limit())
        invariant Memory() == WriteRun(old(Memory()), dev, start, src[..done])
      {
        var ok := WriteNext(dev, start, src, done, junk, old(Memory()));
        if !ok {
          return;
        }
        done := done + 1;
      }
    }

    method WriteNext(dev: nat, start: nat, src: seq<Sector>, i: nat, junk: Sector, ghost memory: map<Key, Sector>)
      returns (ok: bool)
      requires Valid() && Still() && i < |src| && Nth(dev, start, i) in disk && Nth(dev, start, i) in memory
      requires Memory() == WriteRun(memory, dev, start, src[..i])
      modifies `disk, `cache, `lru, `lists, `curBlkNum, `users, `touched, `traffic, `transit
      ensures Valid() && Still() && users == old(users) && touched <= old(touched) && disk.Keys == old(disk).Keys
      ensures old(curBlkNum) <= Limit() ==> curBlkNum <= Limit()
      ensures Memory() == WriteRun(memory, dev, start, src[..if ok then i + 1 else i])
      ensures !ok ==> AllPinned()
    {
      ok := WriteSector(Nth(dev, start, i), src[i], junk);
      WriteRunNext(memory, dev, start, src, i);
    }

    /** A pin taken in passing can be dropped: whoever is changing the block has a pin of their own. */
    method ReleasePassing(k: Key, ghost users0: multiset<Key>)
      requires Valid() && Still() && users == users0 + multiset{k} && forall x :: x in touched ==> x in users0
      modifies `cache, `users
      ensures Valid() && Still() && Memory() == old(Memory()) && users == users0
      ensures k in old(cache) && old(cache)[k].refCount > 0
      ensures cache == old(cache)[k := old(cache)[k].(refCount := old(cache)[k].refCount - 1)]
    {
      Brelse(k);
    }

    /** Put what was read from the disk into a buffer that has no valid data yet. */
    method FillWith(k: Key, data: Sector)
      requires Valid() && Still() && k in users && k in cache && k in disk && data == Memory()[k]
      modifies `cache, `transit
      ensures Valid() && Still() && Memory() == old(Memory()) && k in cache && cache[k].valid
      ensures cache == old(cache)[k := cache[k]] && cache[k].refCount == old(cache[k].refCount)
    {
      if !cache[k].valid {
        FillAlone(k, data);
      }
    }

    ghost predicate TouchedIsPinned()
      reads this
    {
      forall x :: x in touched ==> x in users
    }

    ghost method TouchedArePinned()
      requires Valid()
      ensures TouchedIsPinned()
    {
      forall x | x in touched
        ensures x in users
      {
        CachedOnDisk(disk, cache, lru, lists, traffic, users, touched, x);
      }
    }

    /**
     How many sectors from the `i`-th on are not cached, up to one transfer; the `i`-th itself is known not to be valid.
     */
    method BulkCount(dev: nat, start: nat, i: nat, cnt: nat) returns (c: nat)
      requires Valid() && i < cnt && forall j: nat :: j < cnt ==> Nth(dev, start, j) in disk
      requires Nth(dev, start, i) in cache ==> !cache[Nth(dev, start, i)].valid
      ensures 0 < c <= MAX_BATCH && i + c <= cnt
      ensures c == MAX_BATCH || i + c == cnt || Nth(dev, start, i + c) in cache
      ensures forall j: nat :: i <= j < i + c
                ==> Nth(dev, start, j) in disk && disk[Nth(dev, start, j)] == Memory()[Nth(dev, start, j)]
    {
      c := 1;
      while i + c < cnt && c < MAX_BATCH && Nth(dev, start, i + c) !in cache
        invariant 0 < c <= MAX_BATCH && i + c <= cnt
        invariant forall j: nat :: i <= j < i + c ==> disk[Nth(dev, start, j)] == Memory()[Nth(dev, start, j)]
      {
        c := c + 1;
      }
    }

    /** `ide_read` of consecutive sectors. */
    method ReadRun(dev: nat, start: nat, i: nat, c: nat) returns (r: seq<Sector>)
      requires Valid() && Still() && forall j: nat :: i <= j < i + c ==> Nth(dev, start, j) in disk
      modifies `transit
      ensures Valid() && Still() && |r| == c && forall j: nat :: j < c ==> r[j] == disk[Nth(dev, start, i + j)]
    {
      r := [];
      for j := 0 to c
        invariant Valid() && Still() && |r| == j && forall h: nat :: h < j ==> r[h] == disk[Nth(dev, start, i + h)]
      {
        var data := Capture(Nth(dev, start, i + j));
        r := r + [data];
      }
    }

    /**
     The blocks just read become valid buffers; all of them, when the first is cached and there is room for the others.
     */
    method FillRun(dev: nat, start: nat, i: nat, data: seq<Sector>, junk: Sector) returns (ok: bool)
      requires Valid() && Still()
      requires forall j: nat :: j < |data|
                 ==> Nth(dev, start, i + j) in disk && data[j] == Memory()[Nth(dev, start, i + j)]
      modifies `disk, `cache, `lru, `lists, `curBlkNum, `users, `traffic, `transit
      ensures Valid() && Still() && Memory() == old(Memory()) && users == old(users) && disk.Keys == old(disk).Keys
      ensures old(curBlkNum) <= Limit() ==> curBlkNum <= Limit()
      ensures !ok ==> AllPinned()
      ensures Nth(dev, start, i) in old(cache) && 0 < |data| <= Limit() + 1 - old(curBlkNum) ==>
                ok && curBlkNum < old(curBlkNum) + |data| && ReadIn(old(cache), cache, dev, start, i, i + |data|)
    {
      ghost var room := Nth(dev, start, i) in cache && |data| <= Limit() + 1 - curBlkNum;
      TouchedArePinned();
      for j := 0 to |data|
        invariant Valid() && Still() && Memory() == old(Memory()) && users == old(users) && disk.Keys == old(disk).Keys
        invariant old(curBlkNum) <= Limit() ==> curBlkNum <= Limit()
        invariant room ==> ReadIn(old(cache), cache, dev, start, i, i + j)
        invariant if j == 0 then cache == old(cache) && curBlkNum == old(curBlkNum)
                  else room ==> curBlkNum < old(curBlkNum) + j
      {
        ghost var before := cache;
        ok := FillOne(Nth(dev, start, i + j), data[j], junk);
        if !ok {
          return;
        }
        if room {
          ReadInNext(old(cache), before, cache, dev, start, i, i + j);
        }
      }
      ok := true;
    }

    /** Nothing is evicted when the block is cached or there is room. */
    method FillOne(k: Key, sector: Sector, junk: Sector) returns (ok: bool)
      requires Valid() && Still() && k in disk && sector == Memory()[k]
      modifies `disk, `cache, `lru, `lists, `curBlkNum, `users, `traffic, `transit
      ensures Valid() && Still() && Memory() == old(Memory()) && users == old(users) && disk.Keys == old(disk).Keys
      ensures old(curBlkNum) <= Limit() ==> curBlkNum <= Limit()
      ensures !ok ==> AllPinned()
      ensures ok ==> k in cache && cache[k].valid
      ensures k in old(cache) || old(curBlkNum) < Limit() ==>
                ok && Keeps(old(cache), cache) && curBlkNum == old(curBlkNum) + if k in old(cache) then 0 else 1
    {
      TouchedArePinned();
      ok := Getblk(k, junk);
      if ok {
        FillWith(k, sector);
        ReleasePassing(k, old(users));
      }
    }

    /**
     One turn of `bread_multi`: a valid buffer gives one sector, otherwise a run of sectors is read in one transfer.
     */
    method ReadSome(dev: nat, start: nat, i: nat, cnt: nat, junk: Sector) returns (ok: bool, r: seq<Sector>)
      requires Valid() && Still() && i < cnt && forall j: nat :: j < cnt ==> Nth(dev, start, j) in disk
      modifies `disk, `cache, `lru, `lists, `curBlkNum, `users, `traffic, `transit
      ensures Valid() && Still() && Memory() == old(Memory()) && users == old(users) && disk.Keys == old(disk).Keys
      ensures old(curBlkNum) <= Limit() ==> curBlkNum <= Limit()
      ensures ok ==> 0 < |r| <= cnt - i && forall j: nat :: j < |r| ==> r[j] == Memory()[Nth(dev, start, i + j)]
      ensures !ok ==> AllPinned()
      ensures old(curBlkNum) + (cnt - i) <= Limit() ==>
                ok && curBlkNum <= old(curBlkNum) + |r| && ReadIn(old(cache), cache, dev, start, i, i + |r|)
    {
      r := [];
      var hit;
      ok, hit := Peek(Nth(dev, start, i), junk);
      if !ok {
        return;
      }
      ghost var before := cache;
      if hit.Some? {
        r := [hit.value];
        assert r[0] == Memory()[Nth(dev, start, i + 0)];
        ReadInOne(old(cache), cache, dev, start, i);
      } else {
        ok, r := ReadBulk(dev, start, i, cnt, junk);
        ReadInLater(old(cache), before, cache, dev, start, i, i + |r|);
      }
    }

    /** The bytes of a block that is valid; its buffer is there afterwards in any case. */
    method Peek(k: Key, junk: Sector) returns (ok: bool, hit: Option<Sector>)
      requires Valid() && Still() && k in disk
      modifies `disk, `cache, `lru, `lists, `curBlkNum, `users, `traffic, `transit
      ensures Valid() && Still() && Memory() == old(Memory()) && users == old(users) && disk.Keys == old(disk).Keys
      ensures old(curBlkNum) <= Limit() ==> curBlkNum <= Limit()
      ensures ok ==> k in cache && cache[k].valid == hit.Some? && (hit.Some? ==> hit.value == Memory()[k])
      ensures !ok ==> AllPinned()
      ensures old(curBlkNum) < Limit() ==> ok && Keeps(old(cache), cache) && curBlkNum <= old(curBlkNum) + 1
    {
      hit := None;
      TouchedArePinned();
      ok := Getblk(k, junk);
      if ok {
        hit := if cache[k].valid then Some(cache[k].data) else None;
        ReleasePassing(k, old(users));
      }
    }

    /** A run of sectors read in one transfer. */
    method ReadBulk(dev: nat, start: nat, i: nat, cnt: nat, junk: Sector) returns (ok: bool, r: seq<Sector>)
      requires Valid() && Still() && i < cnt && forall j: nat :: j < cnt ==> Nth(dev, start, j) in disk
      requires Nth(dev, start, i) in cache && !cache[Nth(dev, start, i)].valid
      modifies `disk, `cache, `lru, `lists, `curBlkNum, `users, `traffic, `transit
      ensures Valid() && Still() && Memory() == old(Memory()) && users == old(users) && disk.Keys == old(disk).Keys
      ensures old(curBlkNum) <= Limit() ==> curBlkNum <= Limit()
      ensures ok ==> 0 < |r| <= cnt - i && forall j: nat :: j < |r| ==> r[j] == Memory()[Nth(dev, start, i + j)]
      ensures !ok ==> AllPinned()
      ensures old(curBlkNum) + (cnt - i) <= Limit() + 1 ==>
                ok && curBlkNum < old(curBlkNum) + |r| && ReadIn(old(cache), cache, dev, start, i, i + |r|)
    {
      var c := BulkCount(dev, start, i, cnt);
      r := ReadRun(dev, start, i, c);
      ok := FillRun(dev, start, i, r, junk);
    }

    /** `bread_multi`: what was last written to each sector of the range, which is cached then if there is room. */
    method BreadMulti(dev: nat, start: nat, cnt: nat, junk: Sector) returns (ok: bool, out: seq<Sector>)
      requires Valid() && Still() && forall j: nat :: j < cnt ==> Nth(dev, start, j) in disk
      modifies `disk, `cache, `lru, `lists, `curBlkNum, `users, `traffic, `transit
      ensures Valid() && Still() && Memory() == old(Memory()) && users == old(users)
      ensures old(curBlkNum) <= Limit() ==> curBlkNum <= Limit()
      ensures ok ==> |out| == cnt && forall j: nat :: j < cnt ==> out[j] == Memory()[Nth(dev, start, j)]
      ensures !ok ==> AllPinned()
      ensures old(curBlkNum) + cnt <= Limit() ==> ok && ReadIn(old(cache), cache, dev, start, 0, cnt)
    {
      out := [];
      while |out| < cnt
        invariant old(curBlkNum) + cnt <= Limit() ==>
                    curBlkNum <= old(curBlkNum) + |out| && ReadIn(old(cache), cache, dev, start, 0, |out|)
        invariant Valid() && Still() && Memory() == old(Memory()) && users == old(users) && disk.Keys == old(disk).Keys
        invariant old(curBlkNum) <= Limit() ==> curBlkNum <= Limit()
        invariant |out| <= cnt && forall j: nat :: j < |out| ==> out[j] == Memory()[Nth(dev, start, j)]
        decreases cnt - |out|
      {
        var i, r := |out|, [];
        ghost var before := cache;
        ok, r := ReadSome(dev, start, i, cnt, junk);
        if !ok {
          return;
        }
        ReadInJoin(old(cache), before, cache, dev, start, i, i + |r|);
        forall j: nat | j < |out + r|
          ensures (out + r)[j] == Memory()[Nth(dev, start, j)]
        {
          if j >= i {
            assert r[j - i] == Memory()[Nth(dev, start, i + (j - i))];
          }
        }
        out := out + r;
      }
      ok := true;
    }

    /**
     A round over all devices. When no caller comes in between, every block that is not being changed is on the disk
     after it.
     */
    method SyncAll()
      requires Valid() && Idle() && forall d :: 0 <= d < |active| ==> lists[2 * d + 1 - active[d]] == []
      modifies `disk, `cache, `lists, `active, `traffic
      ensures Valid() && Idle() && Memory() == old(Memory()) && disk.Keys == old(disk).Keys
      ensures forall k :: k in disk && k !in touched && k !in traffic.leaving ==> disk[k] == Memory()[k]
      ensures forall d :: 0 <= d < |active| ==> lists[2 * d + 1 - active[d]] == []
    {
      for dev := 0 to |active|
        invariant Valid() && Idle() && Memory() == old(Memory()) && disk.Keys == old(disk).Keys
                  && |active| == |old(active)|
        invariant forall d :: 0 <= d < dev ==> lists[2 * d] == [] && lists[2 * d + 1] == []
        invariant forall d :: dev <= d < |active| ==> lists[2 * d + 1 - active[d]] == []
      {
        SyncDevice(dev);
      }
      forall k | k in disk && k !in touched && k !in traffic.leaving
        ensures disk[k] == Memory()[k]
      {
        QuietMeansSynced(disk, cache, lru, lists, traffic, users, touched, k);
      }
    }

    // ---- Any interleaving ----

    function Now(): State
      reads this
    {
      State(disk, cache, lru, curBlkNum, lists, active, traffic, users, touched, transit)
    }

    /** Whether the step would be right in this state. */
    method IsRight(e: Event) returns (yes: bool)
      requires Valid() && CanTake(Limit(), Now(), e)
      ensures yes <==> Right(Now(), e)
    {
      match e {
        case Reclaim =>
          var v := FindVictim();
          yes := v.None? || !cache[v.value].dirty || v.value !in traffic.leaving;
          forall k | LeastRecent(cache, lru, k)
            ensures v == Some(k)
          {
            if v.Some? {
              OneLeastRecent(cache, lru, k, v.value);
            }
          }
        case EvictFinish(k) => yes := cache[k].refCount == 0 && cache[k].data == disk[k];
        case FillArrive(k) => yes := cache[k].valid ==> cache[k].data == disk[k];
        case BulkStore(k, data) => yes := cache[k].valid ==> cache[k].data == data;
        case FillFlag(k) => yes := RightToFlag(Now(), k);
        case BulkFlag(k) => yes := RightToFlag(Now(), k);
        case FillClean(k) => yes := !cache[k].dirty;
        case _ => yes := true;
      }
    }

    /** One turn of the reclaim loop. */
    method ReclaimStep() returns (done: bool)
      requires Valid() && Right(Now(), Reclaim)
      modifies `cache, `lru, `lists, `curBlkNum, `traffic, `transit
      ensures Valid() && Memory() == old(Memory())
      ensures done ==> Took(old(Now()), Reclaim, Now())
      ensures !done ==> AllPinned() && Now() == old(Now())
    {
      var v := FindVictim();
      if v.None? {
        return false;
      }
      var k := v.value;
      if cache[k].dirty {
        StartEviction(k);
        assert LeftList(old(Now()), k, Now());
      } else {
        Evict(k);
        assert Dropped(old(Now()), k, Now());
      }
      done := true;
    }

    /** One step of some caller or of the write-back thread. */
    method Step(e: Event) returns (done: bool, out: Sector)
      requires Valid() && (CanTake(Limit(), Now(), e) ==> Right(Now(), e))
      modifies this
      ensures Valid() && Stepped(Limit(), old(Now()), e, done, out, Now())
    {
      done, out := CanTake(Limit(), Now(), e), [];
      if done {
        if e.Reclaim? {
          done := ReclaimStep();
        } else {
          out := DueStep(e);
        }
        if done {
          StepTaken(Limit(), old(Now()), e, out, Now());
        }
      }
    }

    method DueStep(e: Event) returns (out: Sector)
      requires Valid() && CanTake(Limit(), Now(), e) && Right(Now(), e) && !e.Reclaim?
      modifies this
      ensures Valid() && Memory() == After(old(Memory()), e, true) && Took(old(Now()), e, Now())
      ensures e.LookAt? ==> e.k in old(disk) && out == old(Memory())[e.k]
      ensures e.BulkRead? ==> e.k in old(disk) && out == old(disk)[e.k]
    {
      out := [];
      if Finds(e) {
        FindingStep(e);
      } else if Holds(e) {
        out := PinnedStep(e);
      } else if Fills(e) {
        out := FillingStep(e);
      } else {
        WriteBackStep(e);
      }
    }

    /** A step of a caller that is finding its block or making room for it. */
    method FindingStep(e: Event)
      requires Valid() && CanTake(Limit(), Now(), e) && Right(Now(), e)
      requires Finds(e)
      modifies this
      ensures Valid() && Memory() == old(Memory()) && Took(old(Now()), e, Now())
    {
      match e {
        case PinCached(k) => Hit(k);
        case EvictWrite(k) => WriteOut(k);
        case EvictFinish(k) => Evict(k);
        case PinNew(k, junk) => PinNewStep(k, junk);
      }
    }

    method PinNewStep(k: Key, junk: Sector)
      requires Valid() && k in disk
      modifies `cache, `lru, `users, `curBlkNum, `transit
      ensures Valid() && Memory() == old(Memory()) && Took(old(Now()), PinNew(k, junk), Now())
    {
      PinOrInsert(k, junk);
    }

    /** A step of a caller with a block it has pinned. */
    method PinnedStep(e: Event) returns (out: Sector)
      requires Valid() && CanTake(Limit(), Now(), e) && Right(Now(), e)
      requires Holds(e)
      modifies `cache, `lists, `users, `touched, `transit
      ensures Valid() && Memory() == After(old(Memory()), e, true) && Took(old(Now()), e, Now())
      ensures e.LookAt? ==> e.k in old(disk) && out == old(Memory())[e.k]
    {
      out := [];
      match e {
        case LookAt(k) =>
          CachedOnDisk(disk, cache, lru, lists, traffic, users, touched, k);
          out := cache[k].data;
        case Change(k, data) => ChangeStep(k, data);
        case Publish(k) => Publish(k);
        case Mark(k) => MarkStep(k);
        case Release(k) => Brelse(k);
      }
    }

    method ChangeStep(k: Key, data: Sector)
      requires Valid() && k in users
      modifies `cache, `touched, `transit
      ensures Valid() && Memory() == old(Memory())[k := data] && Took(old(Now()), Change(k, data), Now())
    {
      CopyIn(k, data);
    }

    method MarkStep(k: Key)
      requires Valid() && k in users && HasFlag(cache, transit, k)
      modifies `cache, `lists, `touched, `transit
      ensures Valid() && Memory() == old(Memory()) && Took(old(Now()), Mark(k), Now())
    {
      Bwrite(k);
    }

    /** A step of putting in bytes that were read from the disk. */
    method FillingStep(e: Event) returns (out: Sector)
      requires Valid() && CanTake(Limit(), Now(), e) && Right(Now(), e)
      requires Fills(e)
      modifies `cache, `transit
      ensures Valid() && Memory() == old(Memory()) && Took(old(Now()), e, Now())
      ensures e.BulkRead? ==> e.k in disk && out == disk[e.k]
    {
      out := [];
      match e {
        case FillStart(k) => StartFill(k);
        case FillArrive(k) => Store(k, disk[k]);
        case FillFlag(k) => SetFlag(k);
        case FillClean(k) => EndFill(k);
        case BulkRead(k) => out := Capture(k);
        case BulkStore(k, data) => Store(k, data);
        case BulkFlag(k) =>
          SetFlag(k);
          EndFill(k);
      }
    }

    method WriteBackStep(e: Event)
      requires Valid() && CanTake(Limit(), Now(), e)
      requires !e.Reclaim? && !Finds(e) && !Holds(e) && !Fills(e)
      modifies `disk, `cache, `lists, `active, `traffic
      ensures Valid() && Memory() == old(Memory()) && Took(old(Now()), e, Now())
    {
      match e {
        case FlipList(dev) => var _ := Flip(dev);
        case CollectNext(dev, idx) => Collect(2 * dev + idx);
        case Take => TakeBatch();
        case CopyNext => CopyOut();
        case Flush => WriteBatch();
        case Drop => Unpin();
      }
    }

    /**
     Every interleaving of callers and write-back thread, up to the first step that ends a transfer made without the
     lock in a state where it is wrong to (`RightIffSurvives` says that it is then wrong indeed, `NoPinIsRight` and
     `NoChangeIsRight` what keeps it from coming up): the invariants hold, each step does what it should, and each
     sector reads as last written.
     */
    method Interleave(events: seq<Event>) returns (n: nat, done: seq<bool>, out: seq<Sector>, ghost trace: seq<State>)
      requires Valid()
      modifies this
      ensures Valid() && Stepwise(Limit(), trace, events, done, out, n) && trace[0] == old(Now()) && trace[n] == Now()
      ensures n < |events| ==> CanTake(Limit(), Now(), events[n]) && !Right(Now(), events[n])
      ensures Memory() == Replay(old(Memory()), events[..n], done)
    {
      n, done, out, trace := 0, [], [], [Now()];
      while n < |events|
        invariant Valid() && Stepwise(Limit(), trace, events, done, out, n) && trace[0] == old(Now())
                  && trace[n] == Now()
      {
        if CanTake(Limit(), Now(), events[n]) {
          var right := IsRight(events[n]);
          if !right {
            break;
          }
        }
        var d, o := Step(events[n]);
        StepwiseNext(Limit(), trace, events, done, out, n, d, o, Now());
        done, out, trace, n := done + [d], out + [o], trace + [Now()], n + 1;
      }
      ReplayOfTrace(Limit(), trace, events, done, out, n, n);
      assert done[..n] == done;
    }
  }
}
