/**
 mm/swap.c, mm/memory.c and userprog/process.c: demand mapping, fork, write faults, mprotect, unmapping and exit over
 shared page frames, without swapping. Each page table entry is a field of a map; interrupts are off in each of these
 operations.
 */
module CopyOnWrite {
  import opened Folding
  import opened Layout
  import opened Options
  import opened Words

  /** 768 page directory entries of 1024 pages each. */
  const USER_PAGES := 768 * 1024

  type Page = s: seq<byte> | |s| == PG_SIZE witness seq(PG_SIZE, _ => 0)

  /** A page of one address space. */
  datatype Key = Key(pid: nat, page: nat)

  datatype Pte = Pte(frame: nat, writable: bool)

  /** The page table entries that name frame `f`. */
  ghost function Mappers(ptes: map<Key, Pte>, f: nat): set<Key> {
    set k | k in ptes && ptes[k].frame == f
  }

  /** `ref_count` is the number of present entries, and only an unshared frame is writable through its entry. */
  ghost predicate Consistent(ptes: map<Key, Pte>, refs: seq<nat>, frames: seq<Page>) {
    && |refs| == |frames|
    && (forall k :: k in ptes ==> ptes[k].frame < |refs| && k.page < USER_PAGES)
    && (forall f :: 0 <= f < |refs| ==> refs[f] == |Mappers(ptes, f)|)
    && (forall k :: k in ptes && ptes[k].writable ==> refs[ptes[k].frame] == 1)
  }

  /** What each process reads at each page it has present. */
  ghost function View(ptes: map<Key, Pte>, frames: seq<Page>): map<Key, Page> {
    map k | k in ptes && ptes[k].frame < |frames| :: frames[ptes[k].frame]
  }

  // ---- One entry at a time ----

  lemma OneMapper(ptes: map<Key, Pte>, f: nat, k: Key, k': Key)
    requires |Mappers(ptes, f)| == 1 && k in Mappers(ptes, f) && k' in Mappers(ptes, f)
    ensures k == k'
  {
    var rest := Mappers(ptes, f) - {k};
    assert |rest| == 0;
    assert k' !in rest;
  }

  lemma NoMapper(ptes: map<Key, Pte>, f: nat, k: Key)
    requires |Mappers(ptes, f)| == 0 && k in ptes
    ensures ptes[k].frame != f
  {
    assert k !in Mappers(ptes, f);
  }

  lemma MappersSet(ptes: map<Key, Pte>, k: Key, e: Pte, f: nat)
    ensures Mappers(ptes[k := e], f) == (Mappers(ptes, f) - {k}) + if e.frame == f then {k} else {}
    ensures k in Mappers(ptes, f) ==> |Mappers(ptes, f) - {k}| == |Mappers(ptes, f)| - 1
    ensures k !in Mappers(ptes, f) ==> Mappers(ptes, f) - {k} == Mappers(ptes, f)
  {
  }

  lemma MappersDrop(ptes: map<Key, Pte>, k: Key, f: nat)
    requires k in ptes
    ensures |Mappers(ptes - {k}, f)| == |Mappers(ptes, f)| - if ptes[k].frame == f then 1 else 0
  {
    assert Mappers(ptes - {k}, f) == Mappers(ptes, f) - {k};
    assert ptes[k].frame == f ==> k in Mappers(ptes, f);
  }

  /** Counts after an entry was set. */
  lemma CountSet(ptes: map<Key, Pte>, k: Key, e: Pte, f: nat)
    ensures |Mappers(ptes[k := e], f)|
         == |Mappers(ptes, f)| - (if k in ptes && ptes[k].frame == f then 1 else 0) + (if e.frame == f then 1 else 0)
  {
    MappersSet(ptes, k, e, f);
  }

  // ---- The steps, and what they do to the views ----

  lemma MapFresh(ptes: map<Key, Pte>, refs: seq<nat>, frames: seq<Page>, k: Key, f: nat, page: Page)
    requires Consistent(ptes, refs, frames) && k !in ptes && k.page < USER_PAGES && f < |refs| && refs[f] == 0
    ensures Consistent(ptes[k := Pte(f, true)], refs[f := 1], frames[f := page])
    ensures View(ptes[k := Pte(f, true)], frames[f := page]) == View(ptes, frames)[k := page]
  {
    var ptes' := ptes[k := Pte(f, true)];
    forall g | 0 <= g < |refs|
      ensures refs[f := 1][g] == |Mappers(ptes', g)|
    {
      CountSet(ptes, k, Pte(f, true), g);
    }
    forall k' | k' in ptes
      ensures ptes[k'].frame != f
    {
      NoMapper(ptes, f, k');
    }
  }

  /** Fork shares one page, read-only on both sides. */
  lemma ShareOne(ptes: map<Key, Pte>, refs: seq<nat>, frames: seq<Page>, k: Key, c: Key)
    requires Consistent(ptes, refs, frames) && k in ptes && c !in ptes && c.page < USER_PAGES
    ensures var f := ptes[k].frame;
            var ptes' := ptes[k := Pte(f, false)][c := Pte(f, false)];
            && Consistent(ptes', refs[f := refs[f] + 1], frames)
            && View(ptes', frames) == View(ptes, frames)[c := View(ptes, frames)[k]]
  {
    var f := ptes[k].frame;
    var mid := ptes[k := Pte(f, false)];
    var ptes' := mid[c := Pte(f, false)];
    forall g | 0 <= g < |refs|
      ensures refs[f := refs[f] + 1][g] == |Mappers(ptes', g)|
    {
      CountSet(ptes, k, Pte(f, false), g);
      CountSet(mid, c, Pte(f, false), g);
    }
    forall k' | k' in ptes' && ptes'[k'].writable
      ensures ptes[k'].frame != f && refs[ptes[k'].frame] == 1
    {
      if ptes[k'].frame == f {
        OneMapper(ptes, f, k, k');
      }
    }
  }

  /** A write to a shared page moves the writer to a copy. */
  lemma CopyPage(ptes: map<Key, Pte>, refs: seq<nat>, frames: seq<Page>, k: Key, g: nat)
    requires Consistent(ptes, refs, frames) && k in ptes && refs[ptes[k].frame] > 1 && g < |refs| && refs[g] == 0
    ensures var f := ptes[k].frame;
            && Consistent(ptes[k := Pte(g, true)], refs[g := 1][f := refs[f] - 1], frames[g := frames[f]])
            && View(ptes[k := Pte(g, true)], frames[g := frames[f]]) == View(ptes, frames)
  {
    var f := ptes[k].frame;
    var ptes' := ptes[k := Pte(g, true)];
    forall h | 0 <= h < |refs|
      ensures refs[g := 1][f := refs[f] - 1][h] == |Mappers(ptes', h)|
    {
      CountSet(ptes, k, Pte(g, true), h);
    }
    forall k' | k' in ptes
      ensures ptes[k'].frame != g
    {
      NoMapper(ptes, g, k');
    }
  }

  /** Changing the permission of one entry; writable only when the frame is unshared. */
  lemma SetWritable(ptes: map<Key, Pte>, refs: seq<nat>, frames: seq<Page>, k: Key, w: bool)
    requires Consistent(ptes, refs, frames) && k in ptes && (w ==> refs[ptes[k].frame] == 1)
    ensures Consistent(ptes[k := Pte(ptes[k].frame, w)], refs, frames)
    ensures View(ptes[k := Pte(ptes[k].frame, w)], frames) == View(ptes, frames)
  {
    forall f | 0 <= f < |refs|
      ensures refs[f] == |Mappers(ptes[k := Pte(ptes[k].frame, w)], f)|
    {
      CountSet(ptes, k, Pte(ptes[k].frame, w), f);
    }
  }

  lemma DropEntry(ptes: map<Key, Pte>, refs: seq<nat>, frames: seq<Page>, k: Key)
    requires Consistent(ptes, refs, frames) && k in ptes
    ensures refs[ptes[k].frame] > 0
    ensures Consistent(ptes - {k}, refs[ptes[k].frame := refs[ptes[k].frame] - 1], frames)
    ensures View(ptes - {k}, frames) == View(ptes, frames) - {k}
  {
    var f := ptes[k].frame;
    assert k in Mappers(ptes, f);
    forall g | 0 <= g < |refs|
      ensures refs[f := refs[f] - 1][g] == |Mappers(ptes - {k}, g)|
    {
      MappersDrop(ptes, k, g);
    }
    forall k' | k' in ptes - {k} && ptes[k'].writable
      ensures ptes[k'].frame != f
    {
      if ptes[k'].frame == f {
        OneMapper(ptes, f, k, k');
      }
    }
  }

  /** A store through a writable entry is seen by its own process alone. */
  lemma StoreIsPrivate(ptes: map<Key, Pte>, refs: seq<nat>, frames: seq<Page>, k: Key, page: Page)
    requires Consistent(ptes, refs, frames) && k in ptes && ptes[k].writable
    ensures Consistent(ptes, refs, frames[ptes[k].frame := page])
    ensures View(ptes, frames[ptes[k].frame := page]) == View(ptes, frames)[k := page]
  {
    forall k' | k' in ptes && k' != k
      ensures ptes[k'].frame != ptes[k].frame
    {
      if ptes[k'].frame == ptes[k].frame {
        OneMapper(ptes, ptes[k].frame, k, k');
      }
    }
  }

  /** Once every process is gone, every frame is free. */
  lemma NothingLeaks(ptes: map<Key, Pte>, refs: seq<nat>, frames: seq<Page>)
    requires Consistent(ptes, refs, frames)
    ensures (forall f :: 0 <= f < |refs| ==> refs[f] == 0) <==> ptes == map[]
  {
    if ptes != map[] {
      var k :| k in ptes;
      assert k in Mappers(ptes, ptes[k].frame);
    }
  }

  // ---- Whole address spaces, as private memories ----

  /** The views after the first `n` pages of `parent` were given to `child`. */
  ghost function Forked(view: map<Key, Page>, parent: nat, child: nat, n: nat): map<Key, Page> {
    if n == 0 then view
    else
      var rest := Forked(view, parent, child, n - 1);
      if Key(parent, n - 1) in view then rest[Key(child, n - 1) := view[Key(parent, n - 1)]] else rest
  }

  /** After a fork the child reads what the parent reads, and nobody else sees a change. */
  lemma {:induction false} ForkedMeans(view: map<Key, Page>, parent: nat, child: nat, n: nat, k: Key)
    requires parent != child && forall k :: k in view ==> k.pid != child
    ensures k.pid == child && k.page < n ==>
              (k in Forked(view, parent, child, n) <==> Key(parent, k.page) in view)
    ensures k.pid == child && k.page >= n ==> k !in Forked(view, parent, child, n)
    ensures k.pid == child && k in Forked(view, parent, child, n) ==>
              Key(parent, k.page) in view && Forked(view, parent, child, n)[k] == view[Key(parent, k.page)]
    ensures k.pid != child ==> (k in Forked(view, parent, child, n) <==> k in view)
    ensures k.pid != child && k in view ==> Forked(view, parent, child, n)[k] == view[k]
  {
    if n > 0 {
      ForkedMeans(view, parent, child, n - 1, k);
    }
  }

  ghost function Range(pid: nat, from: nat, upto: nat): set<Key> {
    set i | from <= i < upto :: Key(pid, i)
  }

  lemma RangeNext(pid: nat, from: nat, i: nat)
    requires from <= i
    ensures Range(pid, from, i + 1) == Range(pid, from, i) + {Key(pid, i)}
  {
    assert forall k :: k in Range(pid, from, i + 1) ==> k in Range(pid, from, i) || k == Key(pid, i);
  }

  /** The area a page lies in: whether it may be written, and what the page starts out as. */
  datatype Area = Area(writable: bool, initial: Page)

  datatype Outcome = Done | SegFault | NoMemory

  /** What a process reads at a page it touches: its own copy, or the page as the area starts it. */
  ghost function Touched(view: map<Key, Page>, k: Key, area: Option<Area>): Page
    requires k in view || area.Some?
  {
    if k in view then view[k] else area.value.initial
  }

  // ---- Whole runs ----

  datatype Op =
    | OpStore(k: Key, off: nat, b: byte, area: Option<Area>)
    | OpLoad(k: Key, off: nat, area: Option<Area>)
    | OpFork(parent: nat, child: nat)
    | OpUnmap(pid: nat, from: nat, upto: nat)
    | OpProtect(pid: nat, from: nat, upto: nat, write: bool)
    | OpExit(pid: nat)

  /** The reference machine: every process has memory of its own, and fork copies it. */
  ghost function PrivateStep(view: map<Key, Page>, op: Op, done: bool): map<Key, Page> {
    if !done then view
    else
      match op
      case OpStore(k, off, b, area) =>
        if off < PG_SIZE && (k in view || area.Some?) then view[k := Touched(view, k, area)[off := b]] else view
      case OpLoad(k, _, area) => if k in view || area.Some? then view[k := Touched(view, k, area)] else view
      case OpFork(parent, child) => Forked(view, parent, child, USER_PAGES)
      case OpUnmap(pid, from, upto) => view - Range(pid, from, upto)
      case OpProtect(pid, from, upto, write) => view
      case OpExit(pid) => view - Range(pid, 0, USER_PAGES)
  }

  ghost function Replay(view: map<Key, Page>, ops: seq<Op>, done: seq<bool>): map<Key, Page>
    requires |done| == |ops|
  {
    if ops == [] then view
    else
      var n := |ops| - 1;
      PrivateStep(Replay(view, ops[..n], done[..n]), ops[n], done[n])
  }

  /** Whose memory an operation may change. */
  predicate Concerns(op: Op, pid: nat) {
    match op
    case OpStore(k, _, _, _) => k.pid == pid
    case OpLoad(k, _, _) => k.pid == pid
    case OpFork(_, child) => child == pid
    case OpUnmap(p, _, _) => p == pid
    case OpProtect(_, _, _, _) => false
    case OpExit(p) => p == pid
  }

  lemma {:induction false} ForkedOthers(view: map<Key, Page>, parent: nat, child: nat, n: nat, k: Key)
    requires k.pid != child
    ensures k in Forked(view, parent, child, n) <==> k in view
    ensures k in view ==> Forked(view, parent, child, n)[k] == view[k]
  {
    if n > 0 {
      ForkedOthers(view, parent, child, n - 1, k);
    }
  }

  /** Over any run, a process whose memory no operation concerns reads at the end what it read at the start. */
  lemma {:induction false} RunsAreIsolated(view: map<Key, Page>, ops: seq<Op>, done: seq<bool>, k: Key)
    requires |done| == |ops| && forall i :: 0 <= i < |ops| ==> !Concerns(ops[i], k.pid)
    ensures k in Replay(view, ops, done) <==> k in view
    ensures k in view ==> Replay(view, ops, done)[k] == view[k]
    decreases |ops|
  {
    if ops != [] {
      var n := |ops| - 1;
      RunsAreIsolated(view, ops[..n], done[..n], k);
      assert !Concerns(ops[n], k.pid);
      if ops[n].OpFork? {
        ForkedOthers(Replay(view, ops[..n], done[..n]), ops[n].parent, ops[n].child, USER_PAGES, k);
      }
    }
  }

  /** Entries in the range are writable when asked for and unshared; the others are as they were. */
  ghost predicate Reprotected(ptes0: map<Key, Pte>, ptes: map<Key, Pte>, refs: seq<nat>, pid: nat, from: nat, upto: nat,
                              write: bool)
  {
    && ptes.Keys == ptes0.Keys
    && forall k :: k in ptes ==>
         && ptes[k].frame == ptes0[k].frame < |refs|
         && ptes[k].writable == if k.pid == pid && from <= k.page < upto
                                then write && refs[ptes[k].frame] == 1 else ptes0[k].writable
  }

  lemma ReprotectedNext(ptes0: map<Key, Pte>, ptes: map<Key, Pte>, ptes': map<Key, Pte>, refs: seq<nat>,
                        pid: nat, from: nat, i: nat, write: bool)
    requires Reprotected(ptes0, ptes, refs, pid, from, i, write) && from <= i && ptes'.Keys == ptes.Keys
    requires forall k :: k in ptes' && k != Key(pid, i) ==> ptes'[k] == ptes[k]
    requires var k := Key(pid, i); k in ptes' ==> ptes'[k] == Pte(ptes[k].frame, write && refs[ptes[k].frame] == 1)
    ensures Reprotected(ptes0, ptes', refs, pid, from, i + 1, write)
  {
    forall k | k in ptes'
      ensures ptes'[k].frame == ptes0[k].frame
      ensures ptes'[k].writable == if k.pid == pid && from <= k.page < i + 1
                                   then write && refs[ptes'[k].frame] == 1 else ptes0[k].writable
    {
      assert k != Key(pid, i) ==> k.pid != pid || k.page != i;
    }
  }

  /** Fork copies no frame: the first `n` entries of the parent are read-only, and the child's name the same frames. */
  ghost predicate Shared(ptes0: map<Key, Pte>, ptes: map<Key, Pte>, parent: nat, child: nat, n: nat) {
    && (forall k :: k in ptes0 ==>
          k in ptes && ptes[k] == Pte(ptes0[k].frame, ptes0[k].writable && !(k.pid == parent && k.page < n)))
    && (forall k :: k in ptes && k !in ptes0 ==>
          && k.pid == child && k.page < n && Key(parent, k.page) in ptes0
          && ptes[k] == Pte(ptes0[Key(parent, k.page)].frame, false))
  }

  lemma SharedNext(ptes0: map<Key, Pte>, ptes: map<Key, Pte>, parent: nat, child: nat, n: nat)
    requires Shared(ptes0, ptes, parent, child, n) && parent != child && forall k :: k in ptes0 ==> k.pid != child
    ensures var k, c := Key(parent, n), Key(child, n);
            Shared(ptes0,
                   if k in ptes then ptes[k := Pte(ptes[k].frame, false)][c := Pte(ptes[k].frame, false)] else ptes,
                   parent, child, n + 1)
  {
    var k, c := Key(parent, n), Key(child, n);
    assert k in ptes <==> k in ptes0;
    assert forall k' :: k' in ptes0 && k' != k
             ==> (k'.pid == parent && k'.page < n + 1 <==> k'.pid == parent && k'.page < n);
  }

  lemma MinusMore(ptes: map<Key, Pte>, gone: set<Key>, k: Key)
    ensures ptes - gone - {k} == ptes - (gone + {k})
  {
  }

  lemma ViewMinus(ptes: map<Key, Pte>, frames: seq<Page>, gone: set<Key>)
    ensures View(ptes - gone, frames) == View(ptes, frames) - gone
  {
  }

  /** When an operation is not possible at all; a load or a store may also find no frame for its page. */
  ghost predicate Refused(op: Op, ptes: map<Key, Pte>) {
    match op
    case OpStore(k, off, b, area) =>
      || k.page >= USER_PAGES || off >= PG_SIZE || (k !in ptes && area.None?)
      || (k in ptes && !ptes[k].writable && (area.None? || !area.value.writable))
    case OpLoad(k, off, area) => k.page >= USER_PAGES || off >= PG_SIZE || (k !in ptes && area.None?)
    case OpFork(parent, child) => parent == child || exists k :: k in ptes && k.pid == child
    case OpUnmap(_, from, upto) => from > upto
    case OpProtect(_, from, upto, _) => from > upto
    case OpExit(_) => false
  }

  /** Page tables, reference counts and frames at one time. */
  datatype State = State(ptes: map<Key, Pte>, refs: seq<nat>, frames: seq<Page>)

  ghost function ViewOf(s: State): map<Key, Page> {
    View(s.ptes, s.frames)
  }

  ghost predicate NoFrame(refs: seq<nat>) {
    forall f :: 0 <= f < |refs| ==> refs[f] != 0
  }

  /** What an operation that is done does to the page table entries. */
  ghost predicate Entries(ptes: map<Key, Pte>, op: Op, ptes': map<Key, Pte>, refs': seq<nat>) {
    match op
    case OpStore(k, _, _, _) => ptes' - {k} == ptes - {k} && k in ptes' && ptes'[k].writable
    case OpLoad(k, _, _) => ptes' - {k} == ptes - {k} && k in ptes' && (k in ptes ==> ptes'[k] == ptes[k])
    case OpFork(parent, child) => Shared(ptes, ptes', parent, child, USER_PAGES)
    case OpUnmap(pid, from, upto) => ptes' == ptes - Range(pid, from, upto)
    case OpProtect(pid, from, upto, write) => Reprotected(ptes, ptes', refs', pid, from, upto, write)
    case OpExit(pid) => ptes' == ptes - Range(pid, 0, USER_PAGES)
  }

  /**
   One operation from `s` to `s'`: it does to the views what the reference machine does, it is done unless it is refused
   or a page it touches finds no frame, a load returns the byte of the process's own memory, and the entries and their
   permissions are what the operation says. Nothing changes when it is not done.
   */
  ghost predicate Refines(s: State, op: Op, done: bool, out: byte, s': State) {
    && Consistent(s'.ptes, s'.refs, s'.frames) && ViewOf(s') == PrivateStep(ViewOf(s), op, done)
    && (if done then Entries(s.ptes, op, s'.ptes, s'.refs) else s' == s)
    && (Refused(op, s.ptes) ==> !done)
    && (!Refused(op, s.ptes) && !done ==> NoFrame(s'.refs) && (op.OpStore? || op.OpLoad?))
    && (done && op.OpLoad? ==>
          && op.off < PG_SIZE && (op.k in ViewOf(s) || op.area.Some?)
          && out == Touched(ViewOf(s), op.k, op.area)[op.off])
  }

  lemma {:induction false} ReplayOfTrace(trace: seq<State>, ops: seq<Op>, done: seq<bool>, out: seq<byte>, n: nat)
    requires |done| == |out| == |ops| && |trace| == |ops| + 1 && n <= |ops|
    requires forall i :: 0 <= i < |ops| ==> Refines(trace[i], ops[i], done[i], out[i], trace[i + 1])
    ensures ViewOf(trace[n]) == Replay(ViewOf(trace[0]), ops[..n], done[..n])
  {
    if n > 0 {
      ReplayOfTrace(trace, ops, done, out, n - 1);
      assert ops[..n][..n - 1] == ops[..n - 1] && done[..n][..n - 1] == done[..n - 1];
      assert Refines(trace[n - 1], ops[n - 1], done[n - 1], out[n - 1], trace[n]);
    }
  }

  /** Whether an operation takes page `k` away or writes its byte `off`. */
  ghost predicate Disturbs(op: Op, k: Key, off: nat) {
    match op
    case OpStore(k', off', _, _) => k' == k && off' == off
    case OpUnmap(pid, from, upto) => pid == k.pid && from <= k.page < upto
    case OpExit(pid) => pid == k.pid
    case _ => false
  }

  /** The process of `k` would read `b` there (kept folded). */
  ghost predicate Has(s: State, k: Key, off: nat, b: byte) {
    forall u :: Look(s, u) ==> off < PG_SIZE && k in ViewOf(s) && ViewOf(s)[k][off] == b
  }

  lemma StoreGives(s: State, op: Op, out: byte, s': State)
    requires Consistent(s.ptes, s.refs, s.frames) && Refines(s, op, true, out, s') && op.OpStore?
    ensures Has(s', op.k, op.off, op.b)
  {
    assert !Refused(op, s.ptes);
    assert op.k in s.ptes ==> s.ptes[op.k].frame < |s.frames|;
  }

  lemma StepKeeps(s: State, op: Op, done: bool, out: byte, s': State, k: Key, off: nat, b: byte)
    requires Refines(s, op, done, out, s') && Has(s, k, off, b) && !Disturbs(op, k, off)
    ensures Has(s', k, off, b)
  {
    assert Look(s, 0);
    if done && op.OpFork? {
      ForkedMeans(ViewOf(s), op.parent, op.child, USER_PAGES, k);
      assert k in s.ptes;
    }
  }

  lemma LoadGives(s: State, op: Op, out: byte, s': State, b: byte)
    requires Refines(s, op, true, out, s') && op.OpLoad? && Has(s, op.k, op.off, b)
    ensures out == b
  {
    assert Look(s, 0);
  }

  /** Step `n` of a run (kept folded). */
  ghost predicate RefinesAt(trace: seq<State>, ops: seq<Op>, done: seq<bool>, out: seq<byte>, n: nat) {
    && n < |ops| == |done| == |out| && |trace| == |ops| + 1
    && forall u :: Look(n, u) ==>
         Refines(trace[n], ops[n], done[n], out[n], trace[n + 1])
         && Consistent(trace[n].ptes, trace[n].refs, trace[n].frames)
  }

  lemma {:induction false} StoredStays(trace: seq<State>, ops: seq<Op>, done: seq<bool>, out: seq<byte>, i: nat,
                                       j: nat)
    requires i < j <= |ops| && forall n: nat :: n < |ops| ==> RefinesAt(trace, ops, done, out, n)
    requires ops[i].OpStore? && |ops| == |done| && done[i]
    requires forall n :: i < n < j ==> !Disturbs(ops[n], ops[i].k, ops[i].off)
    ensures |trace| == |ops| + 1 && Has(trace[j], ops[i].k, ops[i].off, ops[i].b)
  {
    var n: nat := j - 1;
    assert RefinesAt(trace, ops, done, out, n) && Look(n, 0);
    if j > i + 1 {
      StoredStays(trace, ops, done, out, i, n);
      StepKeeps(trace[n], ops[n], done[n], out[n], trace[j], ops[i].k, ops[i].off, ops[i].b);
    } else {
      StoreGives(trace[n], ops[n], out[n], trace[j]);
    }
  }

  /**
   What a process stores, it loads again: however many operations of any process come between store `i` and load `j`, as
   long as the process itself neither stores there again nor gives the page up.
   */
  lemma LoadSeesStore(trace: seq<State>, ops: seq<Op>, done: seq<bool>, out: seq<byte>, i: nat, j: nat)
    requires |done| == |out| == |ops| && |trace| == |ops| + 1 && i < j < |ops|
    requires Consistent(trace[0].ptes, trace[0].refs, trace[0].frames)
    requires forall n :: 0 <= n < |ops| ==> Refines(trace[n], ops[n], done[n], out[n], trace[n + 1])
    requires ops[i].OpStore? && done[i] && ops[j].OpLoad? && done[j]
    requires ops[j].k == ops[i].k && ops[j].off == ops[i].off
    requires forall n :: i < n < j ==> !Disturbs(ops[n], ops[i].k, ops[i].off)
    ensures out[j] == ops[i].b
  {
    forall n: nat | n < |ops|
      ensures RefinesAt(trace, ops, done, out, n)
    {
      assert n > 0 ==> Refines(trace[n - 1], ops[n - 1], done[n - 1], out[n - 1], trace[n]);
    }
    StoredStays(trace, ops, done, out, i, j);
    LoadGives(trace[j], ops[j], out[j], trace[j + 1], ops[i].b);
  }

  class AddressSpaces {
    var ptes: map<Key, Pte>
    var refs: seq<nat>
    var frames: seq<Page>

    ghost predicate Valid()
      reads this
    {
      Consistent(ptes, refs, frames)
    }

    ghost function Memory(): map<Key, Page>
      reads this
    {
      View(ptes, frames)
    }

    ghost predicate Full()
      reads this
    {
      NoFrame(refs)
    }

    ghost function Now(): State
      reads this
    {
      State(ptes, refs, frames)
    }

    constructor (frames: seq<Page>)
      ensures Valid() && ptes == map[] && this.frames == frames && Memory() == map[]
    {
      this.ptes, this.frames := map[], frames;
      this.refs := seq(|frames|, _ => 0);
    }

    /** `palloc`: some free frame, with one reference. Which one is up to the buddy allocator. */
    method Palloc() returns (r: Option<nat>)
      modifies `refs
      ensures r.None? ==> Full() && refs == old(refs)
      ensures r.Some? ==> r.value < |refs| == |old(refs)| && old(refs)[r.value] == 0 && refs == old(refs)[r.value := 1]
    {
      if f :| 0 <= f < |refs| && refs[f] == 0 {
        refs := refs[f := 1];
        return Some(f);
      }
      return None;
    }

    /** The demand-mapping path of `swap_page`, with `mapping_v2p`. The entry is writable whatever the area says. */
    method DemandMap(k: Key, page: Page) returns (ok: bool)
      requires Valid() && k !in ptes && k.page < USER_PAGES
      modifies this
      ensures Valid()
      ensures ok ==> Memory() == old(Memory())[k := page] && k in ptes && ptes[k].writable
      ensures ok ==> ptes == old(ptes)[k := ptes[k]]
      ensures !ok ==> Full() && Now() == old(Now())
    {
      var f := Palloc();
      if f.None? {
        return false;
      }
      MapFresh(ptes, old(refs), frames, k, f.value, page);
      ptes := ptes[k := Pte(f.value, true)];
      frames := frames[f.value := page];
      ok := true;
    }

    /** `write_protect` with `do_copy_on_write`: nobody's memory changes, and the writer's entry becomes writable. */
    method WriteProtect(k: Key, area: Area) returns (r: Outcome)
      requires Valid() && k in ptes && !ptes[k].writable
      modifies this
      ensures Valid() && Memory() == old(Memory())
      ensures r == Done ==> k in ptes && ptes[k].writable && ptes == old(ptes)[k := ptes[k]]
      ensures r == Done ==> (ptes[k].frame != old(ptes[k].frame) <==> old(refs[ptes[k].frame] > 1))
      ensures r == Done && old(refs[ptes[k].frame] == 1) ==> refs == old(refs) && frames == old(frames)
      ensures r == SegFault <==> !area.writable
      ensures r != Done ==> ptes == old(ptes) && refs == old(refs) && frames == old(frames)
      ensures r == NoMemory ==> Full() && refs[ptes[k].frame] > 1
    {
      if !area.writable {
        return SegFault;
      }
      var f := ptes[k].frame;
      assert k in Mappers(ptes, f);
      if refs[f] > 1 {
        var g := Palloc();
        if g.None? {
          return NoMemory;
        }
        CopyPage(ptes, old(refs), frames, k, g.value);
        frames := frames[g.value := frames[f]];
        ptes := ptes[k := Pte(g.value, true)];
        refs := refs[f := refs[f] - 1];
      } else {
        SetWritable(ptes, refs, frames, k, true);
        ptes := ptes[k := Pte(f, true)];
      }
      r := Done;
    }

    /** Make page `k` present, or writable as well, as the processor asks for on a load or a store. */
    method Fault(k: Key, area: Option<Area>, write: bool) returns (r: Outcome)
      requires Valid() && k.page < USER_PAGES
      requires k in ptes && write && !ptes[k].writable ==> area.Some?
      modifies this
      ensures Valid()
      ensures r == Done ==> (k in old(Memory()) || area.Some?) && k in ptes && (write ==> ptes[k].writable)
      ensures r == Done ==> Memory() == old(Memory())[k := Touched(old(Memory()), k, area)]
      ensures r == Done ==> ptes == old(ptes)[k := ptes[k]] && (k in old(ptes) && !write ==> ptes == old(ptes))
      ensures r != Done ==> Now() == old(Now())
      ensures r == SegFault
              <==> if k in old(ptes) then write && !old(ptes)[k].writable && !area.value.writable else area.None?
      ensures r == NoMemory ==> Full()
    {
      if k !in ptes {
        if area.None? {
          return SegFault;
        }
        var ok := DemandMap(k, area.value.initial);
        return if ok then Done else NoMemory;
      }
      if write && !ptes[k].writable {
        r := WriteProtect(k, area.value);
      } else {
        r := Done;
      }
    }

    /** A user-mode store, faults and all. */
    method Store(k: Key, off: nat, b: byte, area: Option<Area>) returns (r: Outcome)
      requires Valid() && k.page < USER_PAGES && off < PG_SIZE
      requires k in ptes && !ptes[k].writable ==> area.Some?
      modifies this
      ensures Valid()
      ensures r == Done ==> (k in old(Memory()) || area.Some?)
      ensures r == Done ==> Memory() == old(Memory())[k := Touched(old(Memory()), k, area)[off := b]]
      ensures r == Done ==> k in ptes && ptes[k].writable && ptes == old(ptes)[k := ptes[k]]
      ensures r != Done ==> Now() == old(Now())
      ensures r == SegFault <==> if k in old(ptes) then !old(ptes)[k].writable && !area.value.writable else area.None?
      ensures r == NoMemory ==> Full()
    {
      r := Fault(k, area, true);
      if r == Done {
        WriteByte(k, off, b);
      }
    }

    /** The store itself, through a writable entry. */
    method WriteByte(k: Key, off: nat, b: byte)
      requires Valid() && k in ptes && ptes[k].writable && off < PG_SIZE
      modifies `frames
      ensures Valid() && k in old(Memory()) && Memory() == old(Memory())[k := old(Memory())[k][off := b]]
    {
      var f := ptes[k].frame;
      var page := frames[f][off := b];
      StoreIsPrivate(ptes, refs, frames, k, page);
      frames := frames[f := page];
    }

    /** A user-mode load. */
    method Load(k: Key, off: nat, area: Option<Area>) returns (r: Outcome, b: byte)
      requires Valid() && k.page < USER_PAGES && off < PG_SIZE
      modifies this
      ensures Valid()
      ensures r == Done ==> (k in old(Memory()) || area.Some?) && b == Touched(old(Memory()), k, area)[off]
      ensures r == Done ==> Memory() == old(Memory())[k := Touched(old(Memory()), k, area)]
      ensures r == Done ==> k in ptes && ptes == old(ptes)[k := ptes[k]] && (k in old(ptes) ==> ptes == old(ptes))
      ensures r != Done ==> Now() == old(Now())
      ensures r == SegFault <==> k !in old(ptes) && area.None?
      ensures r == NoMemory ==> Full()
    {
      b := 0;
      r := Fault(k, area, false);
      if r == Done {
        b := frames[ptes[k].frame][off];
        assert frames[ptes[k].frame] == Memory()[k];
      }
    }

    /** `copy_page_tables`: every present page becomes shared and read-only. */
    method Fork(parent: nat, child: nat)
      requires Valid() && parent != child && forall k :: k in ptes ==> k.pid != child
      modifies this
      ensures Valid() && Memory() == Forked(old(Memory()), parent, child, USER_PAGES)
      ensures frames == old(frames) && Shared(old(ptes), ptes, parent, child, USER_PAGES)
    {
      for i := 0 to USER_PAGES
        invariant Valid() && Memory() == Forked(old(Memory()), parent, child, i)
        invariant frames == old(frames) && Shared(old(ptes), ptes, parent, child, i)
      {
        ShareStep(parent, child, i, old(Memory()), old(ptes));
      }
    }

    method ShareStep(parent: nat, child: nat, i: nat, ghost view: map<Key, Page>, ghost ptes0: map<Key, Pte>)
      requires Valid() && Memory() == Forked(view, parent, child, i) && i < USER_PAGES
      requires parent != child && (forall k :: k in view ==> k.pid != child)
               && forall k :: k in ptes0 ==> k.pid != child
      requires Shared(ptes0, ptes, parent, child, i)
      modifies `ptes, `refs
      ensures Valid() && Memory() == Forked(view, parent, child, i + 1)
      ensures Shared(ptes0, ptes, parent, child, i + 1)
    {
      var k, c := Key(parent, i), Key(child, i);
      ForkedMeans(view, parent, child, i, k);
      ForkedMeans(view, parent, child, i, c);
      SharedNext(ptes0, ptes, parent, child, i);
      if k in ptes {
        ShareOne(ptes, refs, frames, k, c);
        var f := ptes[k].frame;
        refs := refs[f := refs[f] + 1];
        ptes := ptes[k := Pte(f, false)];
        ptes := ptes[c := ptes[k]];
      }
    }

    /** `pfree` on the frame of one entry, and the entry cleared: freed with the last reference. */
    method Drop(k: Key)
      requires Valid()
      modifies `ptes, `refs
      ensures Valid() && Memory() == old(Memory()) - {k}
      ensures ptes == old(ptes) - {k}
    {
      if k in ptes {
        DropEntry(ptes, refs, frames, k);
        var f := ptes[k].frame;
        refs := refs[f := refs[f] - 1];
        ptes := ptes - {k};
      }
    }

    /** `mfree_physical_pages` */
    method Unmap(pid: nat, from: nat, upto: nat)
      requires Valid() && from <= upto
      modifies `ptes, `refs
      ensures Valid() && Memory() == old(Memory()) - Range(pid, from, upto)
      ensures ptes == old(ptes) - Range(pid, from, upto)
    {
      for i := from to upto
        invariant Valid() && ptes == old(ptes) - Range(pid, from, i)
      {
        RangeNext(pid, from, i);
        MinusMore(old(ptes), Range(pid, from, i), Key(pid, i));
        Drop(Key(pid, i));
      }
      ViewMinus(old(ptes), frames, Range(pid, from, upto));
    }

    /** `release_pg_block`: the whole address space goes, and no other one changes. */
    method Exit(pid: nat)
      requires Valid()
      modifies `ptes, `refs
      ensures Valid() && Memory() == old(Memory()) - Range(pid, 0, USER_PAGES)
      ensures ptes == old(ptes) - Range(pid, 0, USER_PAGES)
      ensures forall k :: k in ptes ==> k.pid != pid
    {
      Unmap(pid, 0, USER_PAGES);
      assert forall k :: k in ptes && k.pid == pid ==> k in Range(pid, 0, USER_PAGES);
    }

    /** `update_page_tables_permission`: write permission goes to unshared frames only. */
    method Protect(pid: nat, from: nat, upto: nat, write: bool)
      requires Valid() && from <= upto
      modifies `ptes
      ensures Valid() && Memory() == old(Memory())
      ensures Reprotected(old(ptes), ptes, refs, pid, from, upto, write)
    {
      for i := from to upto
        invariant Valid() && Memory() == old(Memory())
        invariant Reprotected(old(ptes), ptes, refs, pid, from, i, write)
      {
        ghost var before := ptes;
        ProtectStep(Key(pid, i), write);
        ReprotectedNext(old(ptes), before, ptes, refs, pid, from, i, write);
      }
    }

    method ProtectStep(k: Key, write: bool)
      requires Valid()
      modifies `ptes
      ensures Valid() && Memory() == old(Memory()) && ptes.Keys == old(ptes).Keys
      ensures forall k' :: k' in ptes && k' != k ==> ptes[k'] == old(ptes)[k']
      ensures k in ptes
              ==> ptes[k].frame < |refs| && ptes[k] == Pte(old(ptes)[k].frame, write && refs[ptes[k].frame] == 1)
    {
      if k in ptes {
        var f := ptes[k].frame;
        assert k in Mappers(ptes, f);
        var w := write && !(refs[f] > 1);
        SetWritable(ptes, refs, frames, k, w);
        ptes := ptes[k := Pte(f, w)];
      }
    }

    method StepStore(op: Op) returns (done: bool, out: byte)
      requires Valid() && op.OpStore?
      modifies this
      ensures Valid() && Refines(old(Now()), op, done, out, Now())
    {
      done, out := false, 0;
      if op.k.page >= USER_PAGES || op.off >= PG_SIZE {
        return;
      }
      if op.k in ptes && !ptes[op.k].writable && op.area.None? {
        return;
      }
      var r := Store(op.k, op.off, op.b, op.area);
      done := r == Done;
    }

    method StepLoad(op: Op) returns (done: bool, out: byte)
      requires Valid() && op.OpLoad?
      modifies this
      ensures Valid() && Refines(old(Now()), op, done, out, Now())
    {
      done, out := false, 0;
      if op.k.page >= USER_PAGES || op.off >= PG_SIZE {
        return;
      }
      var r;
      r, out := Load(op.k, op.off, op.area);
      done := r == Done;
    }

    /** One operation, or none when it is not possible in this state (`done` says which). */
    method Step(op: Op) returns (done: bool, out: byte)
      requires Valid()
      modifies this
      ensures Valid() && Refines(old(Now()), op, done, out, Now())
    {
      done, out := false, 0;
      match op {
        case OpStore(_, _, _, _) => done, out := StepStore(op);
        case OpLoad(_, _, _) => done, out := StepLoad(op);
        case OpFork(parent, child) =>
          if parent != child && forall k :: k in ptes ==> k.pid != child {
            Fork(parent, child);
            done := true;
          }
        case OpUnmap(pid, from, upto) =>
          if from <= upto {
            Unmap(pid, from, upto);
            done := true;
          }
        case OpProtect(pid, from, upto, write) =>
          if from <= upto {
            Protect(pid, from, upto, write);
            done := true;
          }
        case OpExit(pid) =>
          Exit(pid);
          done := true;
      }
    }

    /**
     Every run over shared frames is a run over private memories, step by step: each operation is done unless it cannot
     be, loads return the bytes of those memories, and counts and permissions stay right throughout.
     */
    method Run(ops: seq<Op>) returns (done: seq<bool>, out: seq<byte>, ghost trace: seq<State>)
      requires Valid()
      modifies this
      ensures Valid() && |done| == |out| == |ops| && Memory() == Replay(old(Memory()), ops, done)
      ensures |trace| == |ops| + 1 && trace[0] == old(Now()) && trace[|ops|] == Now()
      ensures forall i :: 0 <= i < |ops| ==> Refines(trace[i], ops[i], done[i], out[i], trace[i + 1])
    {
      done, out, trace := [], [], [Now()];
      for i := 0 to |ops|
        invariant Valid() && |done| == |out| == i
        invariant |trace| == i + 1 && trace[0] == old(Now()) && trace[i] == Now()
        invariant forall j :: 0 <= j < i ==> Refines(trace[j], ops[j], done[j], out[j], trace[j + 1])
      {
        var d, b := Step(ops[i]);
        done, out, trace := done + [d], out + [b], trace + [Now()];
      }
      ReplayOfTrace(trace, ops, done, out, |ops|);
      assert ops[..|ops|] == ops && done[..|ops|] == done;
    }
  }

  /** A failing case: with a frame free, the first store to a page of a read-only area succeeds, whatever the page. */
  method FirstStoreToReadOnly(k: Key, off: nat, b: byte, initial: Page, frame: Page)
    returns (m: AddressSpaces, r: Outcome)
    requires k.page < USER_PAGES && off < PG_SIZE
    ensures fresh(m) && m.Valid() && r == Done && m.Memory() == map[k := initial[off := b]]
  {
    m := new AddressSpaces([frame]);
    NothingLeaks(m.ptes, m.refs, m.frames);
    assert m.refs[0] == 0;
    r := m.Store(k, off, b, Some(Area(false, initial)));
  }
}
