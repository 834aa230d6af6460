/**
 thread/sync.c: semaphores and the reentrant lock built on them, as steps that any number of threads take in any order.
 What the source does with interrupts off is one step; between steps any other thread may run. Only `sema_signal` wakes
 a thread that sleeps on a semaphore.
 */
module Locks {
  import opened Lists
  import opened Options

  class Semaphore {
    /** A byte. */
    var value: nat
    var waiters: seq<nat>
    /** Threads that were woken and have not yet looked at the value again. */
    var woken: set<nat>

    /**
     Sleeping threads are in the list once; when there are any, every unit of the value has a woken thread coming for
     it.
     */
    ghost predicate Valid()
      reads this
    {
      && value < 256 && NoDup(waiters) && (forall t :: t in waiters ==> t !in woken)
      && (waiters != [] ==> value <= |woken|)
    }

    constructor (value: nat)
      requires value < 256
      ensures Valid() && this.value == value && waiters == [] && woken == {}
    {
      this.value, this.waiters, this.woken := value, [], {};
    }

    /** One look at the value in `sema_wait`: take a unit, or go to sleep. */
    method Attempt(t: nat) returns (got: bool)
      requires Valid() && t !in waiters
      modifies this
      ensures Valid() && got == (old(value) > 0) && woken == old(woken) - {t}
      ensures got ==> value == old(value) - 1 && waiters == old(waiters)
      ensures !got ==> value == 0 && waiters == old(waiters) + [t]
    {
      woken := woken - {t};
      if value == 0 {
        waiters := waiters + [t];
        return false;
      }
      value := value - 1;
      got := true;
    }

    /** `sema_signal`: the longest sleeper is woken and the value goes up by one, in a byte. */
    method Signal()
      requires Valid()
      modifies this
      ensures Valid() && value == (old(value) + 1) % 256
      ensures old(waiters) == [] ==> waiters == [] && woken == old(woken)
      ensures old(waiters) != [] ==> waiters == old(waiters)[1..] && woken == old(woken) + {old(waiters)[0]}
    {
      if waiters != [] {
        assert waiters[0] in waiters;
        woken := woken + {waiters[0]};
        waiters := waiters[1..];
      }
      value := (value + 1) % 256;
    }

    /** `sema_try_wait` */
    method TryWait() returns (got: bool)
      requires Valid()
      modifies `value
      ensures Valid() && got == (old(value) > 0) && value == old(value) - if got then 1 else 0
    {
      if value > 0 {
        value := value - 1;
        return true;
      }
      return false;
    }
  }

  /**
   Where a thread is: outside; about to look at the semaphore for the first time, or again after it was woken; asleep;
   with the unit taken but the lock not yet marked, marked but not yet counted; in the critical section; and on the way
   out.
   */
  datatype Pc = Outside | Looking | Asleep | Woken | Taken | Marked | Inside | Leaving | Unmarked | Uncounted

  predicate HasUnit(pc: Pc) {
    pc in {Taken, Marked, Inside, Leaving, Unmarked, Uncounted}
  }

  ghost predicate UnitWith(pc: seq<Pc>, owner: Option<nat>) {
    forall t :: 0 <= t < |pc| ==> (HasUnit(pc[t]) <==> owner == Some(t))
  }

  /** The semaphore's lists agree with where the threads are. */
  ghost predicate Beds(waiters: seq<nat>, woken: set<nat>, pc: seq<Pc>) {
    && (forall t :: t in waiters <==> t < |pc| && 0 <= t && pc[t] == Asleep)
    && (forall t :: t in woken <==> t < |pc| && 0 <= t && pc[t] == Woken)
  }

  lemma BedsAttempt(waiters: seq<nat>, woken: set<nat>, pc: seq<Pc>, t: nat)
    requires Beds(waiters, woken, pc) && t < |pc| && pc[t] in {Looking, Woken}
    ensures Beds(waiters, woken - {t}, pc[t := Taken]) && Beds(waiters + [t], woken - {t}, pc[t := Asleep])
  {
  }

  lemma BedsSignal(waiters: seq<nat>, woken: set<nat>, pc: seq<Pc>, t: nat)
    requires Beds(waiters, woken, pc) && NoDup(waiters) && t < |pc| && HasUnit(pc[t])
    ensures waiters == [] ==> Beds(waiters, woken, pc[t := Outside])
    ensures waiters != [] ==> waiters[0] < |pc| && waiters[0] != t
                              && Beds(waiters[1..], woken + {waiters[0]}, pc[t := Outside][waiters[0] := Woken])
  {
    if waiters != [] {
      var first := waiters[0];
      assert first in waiters && waiters == [first] + waiters[1..] && first !in waiters[1..];
      var pc' := pc[t := Outside][first := Woken];
      forall u
        ensures u in waiters[1..] <==> u < |pc| && 0 <= u && pc'[u] == Asleep
      {
        assert u in waiters <==> u == first || u in waiters[1..];
      }
    }
  }

  ghost predicate HolderOk(pc: seq<Pc>, holder: Option<nat>, owner: Option<nat>) {
    && (forall t :: 0 <= t < |pc| ==> (holder == Some(t) <==> pc[t] in {Marked, Inside, Leaving}))
    && (holder.Some? ==> owner == holder)
  }

  ghost predicate DepthOk(pc: seq<Pc>, depth: seq<nat>) {
    && |depth| == |pc|
    && forall t :: 0 <= t < |pc| ==> if pc[t] == Inside then depth[t] >= 1 else depth[t] == 0
  }

  /** What `holder_repeat_nr` is, by where the owner is. */
  ghost function Count(pc: Pc, depth: nat): nat {
    match pc
    case Inside => depth
    case Leaving => 1
    case Unmarked => 1
    case _ => 0
  }

  lemma HolderAttempt(pc: seq<Pc>, holder: Option<nat>, owner: Option<nat>, depth: seq<nat>, t: nat, to: Pc)
    requires HolderOk(pc, holder, owner) && DepthOk(pc, depth) && t < |pc| && pc[t] in {Looking, Woken}
             && to in {Taken, Asleep}
    ensures HolderOk(pc[t := to], holder, owner) && DepthOk(pc[t := to], depth)
  {
  }

  lemma UnitAttempt(pc: seq<Pc>, owner: Option<nat>, t: nat)
    requires UnitWith(pc, owner) && t < |pc| && !HasUnit(pc[t])
    ensures UnitWith(pc[t := Asleep], owner) && (owner.None? ==> UnitWith(pc[t := Taken], Some(t)))
  {
  }

  lemma UnitGiven(pc: seq<Pc>, t: nat, u: nat)
    requires UnitWith(pc, Some(t)) && t < |pc| && u < |pc| && u != t
    ensures UnitWith(pc[t := Outside], None) && UnitWith(pc[t := Outside][u := Woken], None)
  {
  }

  lemma HolderGiven(pc: seq<Pc>, holder: Option<nat>, depth: seq<nat>, t: nat, u: nat)
    requires UnitWith(pc, Some(t)) && HolderOk(pc, holder, Some(t)) && DepthOk(pc, depth) && t < |pc| && u < |pc|
    requires pc[t] == Uncounted && u != t
    ensures holder == None && HolderOk(pc[t := Outside], None, None) && DepthOk(pc[t := Outside], depth)
    ensures HolderOk(pc[t := Outside][u := Woken], None, None)
    ensures DepthOk(pc[t := Outside][u := Woken], depth)
  {
  }

  // ---- The lock as its threads see it ----

  /** Where the threads are, how often each has acquired the lock, who sleeps, and whether the unit is free. */
  datatype State = State(pc: seq<Pc>, depth: seq<nat>, waiters: seq<nat>, free: bool)

  /** A turn of thread `t`. Only giving the unit back moves another thread: the longest sleeper is woken. */
  ghost predicate Moved(s: State, t: nat, release: bool, s': State) {
    if t >= |s.pc| || t >= |s.depth| then s' == s
    else
      match s.pc[t]
      case Outside => s' == s.(pc := s.pc[t := Looking])
      case Looking => Looked(s, t, s')
      case Asleep => s' == s
      case Woken => Looked(s, t, s')
      case Taken => s' == s.(pc := s.pc[t := Marked])
      case Marked => s' == s.(pc := s.pc[t := Inside], depth := s.depth[t := 1])
      case Inside =>
        if !release then s' == s.(depth := s.depth[t := s.depth[t] + 1])
        else if s.depth[t] > 1 then s' == s.(depth := s.depth[t := s.depth[t] - 1])
        else s' == s.(pc := s.pc[t := Leaving], depth := s.depth[t := 0])
      case Leaving => s' == s.(pc := s.pc[t := Unmarked])
      case Unmarked => s' == s.(pc := s.pc[t := Uncounted])
      case Uncounted => GivenBack(s, t, s')
  }

  ghost predicate Looked(s: State, t: nat, s': State)
    requires t < |s.pc|
  {
    s' == if s.free then s.(pc := s.pc[t := Taken], free := false)
          else s.(pc := s.pc[t := Asleep], waiters := s.waiters + [t])
  }

  ghost predicate GivenBack(s: State, t: nat, s': State)
    requires t < |s.pc|
  {
    if s.waiters == [] then s' == s.(pc := s.pc[t := Outside], free := true)
    else
      && s.waiters[0] < |s.pc|
      && s' == State(s.pc[t := Outside][s.waiters[0] := Woken], s.depth, s.waiters[1..], true)
  }

  /**
   One thread at most is between its acquire and the matching release; a thread has acquired the lock at least once
   exactly when it is inside; and while a thread sleeps, the lock is taken or a woken thread is coming for it.
   */
  ghost predicate Safe(s: State) {
    && |s.depth| == |s.pc|
    && (forall t, u :: 0 <= t < |s.pc| && 0 <= u < |s.pc| && HasUnit(s.pc[t]) && HasUnit(s.pc[u]) ==> t == u)
    && (forall t :: 0 <= t < |s.pc| ==> (s.depth[t] > 0 <==> s.pc[t] == Inside))
    && (forall t :: 0 <= t < |s.pc| && s.pc[t] == Asleep ==>
          exists u :: 0 <= u < |s.pc| && (HasUnit(s.pc[u]) || s.pc[u] == Woken))
  }

  ghost predicate Turns(trace: seq<State>, turns: seq<(nat, bool)>, n: nat) {
    && n <= |turns| && |trace| == n + 1
    && (forall i :: 0 <= i < n ==> Moved(trace[i], turns[i].0, turns[i].1, trace[i + 1]))
    && (forall i :: 0 <= i <= n ==> Safe(trace[i]))
  }

  lemma TurnsNext(trace: seq<State>, turns: seq<(nat, bool)>, n: nat, s: State)
    requires Turns(trace, turns, n) && n < |turns| && Moved(trace[n], turns[n].0, turns[n].1, s) && Safe(s)
    ensures Turns(trace + [s], turns, n + 1)
  {
  }

  class Lock {
    const sema: Semaphore
    var holder: Option<nat>
    var repeatNr: nat
    var pc: seq<Pc>
    /** How often each thread acquired the lock and has not released it yet. */
    ghost var depth: seq<nat>
    /** The thread that has the semaphore's unit. */
    ghost var owner: Option<nat>

    ghost predicate Valid()
      reads this, sema
    {
      && sema.Valid() && |depth| == |pc|
      && (owner.Some? ==> owner.value < |pc|) && sema.value == (if owner.None? then 1 else 0)
      && UnitWith(pc, owner) && Beds(sema.waiters, sema.woken, pc)
      && HolderOk(pc, holder, owner) && DepthOk(pc, depth)
      && repeatNr == (if owner.None? then 0 else Count(pc[owner.value], depth[owner.value]))
    }

    constructor (threads: nat)
      ensures Valid() && fresh(sema) && pc == seq(threads, _ => Outside)
    {
      sema := new Semaphore(1);
      holder, repeatNr := None, 0;
      pc, depth, owner := seq(threads, _ => Outside), seq(threads, _ => 0), None;
    }

    ghost function Now(): State
      reads this, sema
    {
      State(pc, depth, sema.waiters, sema.value > 0)
    }

    /** At most one thread is between its acquire and the matching release. */
    lemma MutualExclusion(t: nat, u: nat)
      requires Valid() && t < |pc| && u < |pc| && HasUnit(pc[t]) && HasUnit(pc[u])
      ensures t == u
    {
      assert owner == Some(t) && owner == Some(u);
    }

    /** While a thread sleeps, the lock is taken or a woken thread is on its way to take it. */
    lemma NoLostWakeup(t: nat)
      requires Valid() && t < |pc| && pc[t] == Asleep
      ensures exists u :: 0 <= u < |pc| && (HasUnit(pc[u]) || pc[u] == Woken)
    {
      assert t in sema.waiters;
      if owner.None? {
        assert |sema.woken| >= 1;
        var u :| u in sema.woken;
        assert pc[u] == Woken;
      } else {
        assert HasUnit(pc[owner.value]);
      }
    }

    lemma Safety()
      requires Valid()
      ensures Safe(Now())
    {
      forall t, u | 0 <= t < |pc| && 0 <= u < |pc| && HasUnit(pc[t]) && HasUnit(pc[u])
        ensures t == u
      {
        MutualExclusion(t, u);
      }
      forall t | 0 <= t < |pc| && pc[t] == Asleep
        ensures exists u :: 0 <= u < |pc| && (HasUnit(pc[u]) || pc[u] == Woken)
      {
        NoLostWakeup(t);
      }
    }

    /** `lock_acquire`, first statement: the holder just counts, anybody else goes for the semaphore. */
    method Acquire(t: nat)
      requires Valid() && t < |pc| && pc[t] in {Outside, Inside}
      modifies this
      ensures Valid()
      ensures old(pc[t]) == Inside ==> pc == old(pc) && depth == old(depth)[t := old(depth)[t] + 1]
      ensures old(pc[t]) == Outside ==> pc == old(pc)[t := Looking] && depth == old(depth)
    {
      if holder != Some(t) {
        pc := pc[t := Looking];
      } else {
        repeatNr := repeatNr + 1;
        depth := depth[t := depth[t] + 1];
      }
    }

    /** One turn of the loop in `sema_wait`. */
    method Look(t: nat)
      requires Valid() && t < |pc| && pc[t] in {Looking, Woken}
      modifies this, sema
      ensures Valid() && Looked(old(Now()), t, Now())
    {
      BedsAttempt(sema.waiters, sema.woken, pc, t);
      UnitAttempt(pc, owner, t);
      HolderAttempt(pc, holder, owner, depth, t, Taken);
      HolderAttempt(pc, holder, owner, depth, t, Asleep);
      var got := sema.Attempt(t);
      if got {
        pc := pc[t := Taken];
        owner := Some(t);
      } else {
        pc := pc[t := Asleep];
      }
    }

    method MarkHolder(t: nat)
      requires Valid() && t < |pc| && pc[t] == Taken
      modifies this
      ensures Valid() && pc == old(pc)[t := Marked] && holder == Some(t) && depth == old(depth)
    {
      holder := Some(t);
      pc := pc[t := Marked];
    }

    /** The count is 0 when the lock is taken, as the source asserts, and becomes 1. */
    method CountOne(t: nat)
      requires Valid() && t < |pc| && pc[t] == Marked
      modifies this
      ensures Valid() && pc == old(pc)[t := Inside] && old(repeatNr) == 0 && repeatNr == 1
      ensures depth == old(depth)[t := 1]
    {
      assert repeatNr == 0;
      repeatNr := 1;
      pc := pc[t := Inside];
      depth := depth[t := 1];
    }

    /** `lock_release` up to the last matching call; its two assertions hold. */
    method Release(t: nat)
      requires Valid() && t < |pc| && pc[t] == Inside
      modifies this
      ensures Valid() && old(holder) == Some(t) && old(repeatNr) == old(depth)[t] >= 1
      ensures old(depth)[t] > 1 ==> pc == old(pc)
      ensures old(depth)[t] == 1 ==> pc == old(pc)[t := Leaving]
      ensures depth == old(depth)[t := old(depth)[t] - 1]
    {
      assert holder == Some(t);
      depth := depth[t := depth[t] - 1];
      if repeatNr > 1 {
        repeatNr := repeatNr - 1;
        return;
      }
      assert repeatNr == 1;
      pc := pc[t := Leaving];
    }

    method ClearHolder(t: nat)
      requires Valid() && t < |pc| && pc[t] == Leaving
      modifies this
      ensures Valid() && pc == old(pc)[t := Unmarked] && holder == None && depth == old(depth)
    {
      holder := None;
      pc := pc[t := Unmarked];
    }

    method ClearCount(t: nat)
      requires Valid() && t < |pc| && pc[t] == Unmarked
      modifies this
      ensures Valid() && pc == old(pc)[t := Uncounted] && repeatNr == 0 && depth == old(depth)
    {
      repeatNr := 0;
      pc := pc[t := Uncounted];
    }

    /** The unit goes back, and the longest sleeper, if any, is woken. */
    method GiveBack(t: nat)
      requires Valid() && t < |pc| && pc[t] == Uncounted
      modifies this, sema
      ensures Valid() && owner == None && GivenBack(old(Now()), t, Now())
    {
      if sema.waiters == [] {
        BedsSignal(sema.waiters, sema.woken, pc, t);
        sema.Signal();
        pc := pc[t := Outside];
        owner := None;
      } else {
        WakeFirst(t);
      }
    }

    method WakeFirst(t: nat)
      requires Valid() && t < |pc| && pc[t] == Uncounted && sema.waiters != []
      modifies this, sema
      ensures Valid() && owner == None && GivenBack(old(Now()), t, Now())
    {
      var first := sema.waiters[0];
      BedsSignal(sema.waiters, sema.woken, pc, t);
      UnitGiven(pc, t, first);
      HolderGiven(pc, holder, depth, t, first);
      sema.Signal();
      assert sema.Valid() && sema.value == 1;
      pc := pc[t := Outside][first := Woken];
      owner := None;
      assert Beds(sema.waiters, sema.woken, pc);
    }

    /** The next step of thread `t`; inside the critical section it may acquire again or release. */
    method Step(t: nat, release: bool)
      requires Valid() && t < |pc|
      modifies this, sema
      ensures Valid() && Moved(old(Now()), t, release, Now())
    {
      match pc[t] {
        case Outside => Acquire(t);
        case Looking => Look(t);
        case Asleep =>
        case Woken => Look(t);
        case Taken => MarkHolder(t);
        case Marked => CountOne(t);
        case Inside =>
          if release {
            Release(t);
          } else {
            Acquire(t);
          }
        case Leaving => ClearHolder(t);
        case Unmarked => ClearCount(t);
        case Uncounted => GiveBack(t);
      }
    }

    /**
     Every interleaving: no assertion of the source fails, each turn does what it should, and at every point one thread
     at most is inside and no wakeup is lost.
     */
    method Interleave(turns: seq<(nat, bool)>) returns (ghost trace: seq<State>)
      requires Valid()
      modifies this, sema
      ensures Valid() && Turns(trace, turns, |turns|) && trace[0] == old(Now()) && trace[|turns|] == Now()
    {
      trace := [Now()];
      Safety();
      for i := 0 to |turns|
        invariant Valid() && Turns(trace, turns, i) && trace[0] == old(Now()) && trace[i] == Now()
      {
        if turns[i].0 < |pc| {
          Step(turns[i].0, turns[i].1);
        }
        Safety();
        TurnsNext(trace, turns, i, Now());
        trace := trace + [Now()];
      }
    }
  }
}
