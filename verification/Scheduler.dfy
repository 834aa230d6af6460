/**
 thread/thread.c and the time-slice part of device/timer.c: the ready list, the tick budgets, and how long a ready
 thread can be kept waiting. Threads are numbered; interrupts are off in every operation.
 */
module Scheduling {
  import opened Lists

  datatype Status = Running | Ready | Blocked

  // ---- Sums over the other threads ----

  /** The sum of `w` over all threads but `i`. */
  ghost function SumOthers(w: seq<nat>, i: nat): nat {
    if w == [] then 0
    else SumOthers(w[..|w| - 1], i) + if |w| - 1 == i then 0 else w[|w| - 1]
  }

  ghost predicate NoMore(w: seq<nat>, w': seq<nat>, i: nat) {
    |w'| == |w| && forall j :: 0 <= j < |w| && j != i ==> w'[j] <= w[j]
  }

  lemma {:induction false} SumNoMore(w: seq<nat>, w': seq<nat>, i: nat)
    requires NoMore(w, w', i)
    ensures SumOthers(w', i) <= SumOthers(w, i)
  {
    if w != [] {
      SumNoMore(w[..|w| - 1], w'[..|w| - 1], i);
    }
  }

  lemma {:induction false} SumLess(w: seq<nat>, w': seq<nat>, i: nat, j: nat)
    requires NoMore(w, w', i) && j < |w| && j != i && w'[j] < w[j]
    ensures SumOthers(w', i) < SumOthers(w, i)
  {
    if j == |w| - 1 {
      SumNoMore(w[..|w| - 1], w'[..|w| - 1], i);
    } else {
      SumLess(w[..|w| - 1], w'[..|w| - 1], i, j);
    }
  }

  // ---- Budgets ----

  /** The budget after a reset: half of what is left, and the priority. */
  function Refill(ticks: nat, prio: nat): (r: nat)
    ensures r >= prio && 2 * (r - prio) <= ticks <= 2 * (r - prio) + 1
  {
    ticks / 2 + prio
  }

  /** No thread ever saves up twice its priority. */
  lemma RefillBound(ticks: nat, prio: nat)
    requires prio > 0 && ticks <= 2 * prio - 1
    ensures 0 < Refill(ticks, prio) <= 2 * prio - 1
  {
  }

  /** Budgets and priorities are 16-bit signed: no reset goes out of range exactly when the priority is at most 2^14. */
  lemma RefillFits(prio: nat)
    requires prio > 0
    ensures (forall ticks: nat :: ticks <= 2 * prio - 1 ==> Refill(ticks, prio) < 0x8000) <==> prio <= 0x4000
  {
    assert Refill(2 * prio - 1, prio) == 2 * prio - 1;
  }

  ghost predicate BudgetsOk(ticks: seq<nat>, prio: seq<nat>) {
    && |ticks| == |prio|
    && forall t :: 0 <= t < |prio| ==> prio[t] > 0 && ticks[t] <= 2 * prio[t] - 1
  }

  function RefillAll(ticks: seq<nat>, prio: seq<nat>): seq<nat>
    requires |ticks| == |prio|
  {
    seq(|ticks|, t requires 0 <= t < |ticks| => Refill(ticks[t], prio[t]))
  }

  lemma RefillAllBound(ticks: seq<nat>, prio: seq<nat>)
    requires BudgetsOk(ticks, prio)
    ensures BudgetsOk(RefillAll(ticks, prio), prio)
    ensures forall t :: 0 <= t < |prio| ==> RefillAll(ticks, prio)[t] > 0
  {
    forall t | 0 <= t < |prio|
      ensures 0 < Refill(ticks[t], prio[t]) <= 2 * prio[t] - 1
    {
      RefillBound(ticks[t], prio[t]);
    }
  }

  /** Resetting ends the search exactly when some ready thread has a priority above 0. */
  lemma RefillHelps(ticks: seq<nat>, prio: seq<nat>, ready: seq<nat>)
    requires |ticks| == |prio| && forall t :: t in ready ==> t < |ticks| && ticks[t] == 0
    ensures (exists t :: t in ready && RefillAll(ticks, prio)[t] > 0) <==> (exists t :: t in ready && prio[t] > 0)
  {
    assert forall t :: t in ready ==> RefillAll(ticks, prio)[t] == prio[t];
  }

  ghost function Rounds(ticks: seq<nat>, prio: seq<nat>, k: nat): (r: seq<nat>)
    requires |ticks| == |prio|
    ensures |r| == |prio|
  {
    if k == 0 then ticks else RefillAll(Rounds(ticks, prio, k - 1), prio)
  }

  /** With nothing but priority 0 in the ready list, no number of resets ends the search. */
  lemma {:induction false} SearchNeverEnds(ticks: seq<nat>, prio: seq<nat>, ready: seq<nat>, k: nat)
    requires |ticks| == |prio| && forall t :: t in ready ==> t < |ticks| && ticks[t] == 0 && prio[t] == 0
    ensures forall t :: t in ready ==> Rounds(ticks, prio, k)[t] == 0
  {
    if k > 0 {
      SearchNeverEnds(ticks, prio, ready, k - 1);
    }
  }

  /** A failing case: a single ready thread with priority 0. */
  lemma OneThreadNeverChosen(k: nat)
    ensures Rounds([0], [0], k) == [0]
  {
    SearchNeverEnds([0], [0], [0], k);
    assert 0 in [0];
  }

  // ---- How long a thread waits ----

  /** What a thread can still use up before every other ready thread has had its turn: its ticks, and one switch. */
  ghost function Weight(ticks: nat, running: bool): nat {
    ticks + if running || ticks > 0 then 1 else 0
  }

  ghost function Weights(ticks: seq<nat>, running: nat): seq<nat> {
    seq(|ticks|, t requires 0 <= t < |ticks| => Weight(ticks[t], t == running))
  }

  ghost function Twice(prio: seq<nat>): seq<nat> {
    seq(|prio|, t requires 0 <= t < |prio| => 2 * prio[t])
  }

  /** The most timer ticks thread `i` may have to wait. */
  ghost function WaitBound(ticks: seq<nat>, running: nat, i: nat): nat {
    SumOthers(Weights(ticks, running), i)
  }

  lemma WaitBoundByPriorities(ticks: seq<nat>, prio: seq<nat>, running: nat, i: nat)
    requires BudgetsOk(ticks, prio)
    ensures WaitBound(ticks, running, i) <= SumOthers(Twice(prio), i)
  {
    SumNoMore(Twice(prio), Weights(ticks, running), i);
  }

  /** A switch away from `from` to a thread that has ticks left. */
  lemma SwitchBound(ticks: seq<nat>, from: nat, to: nat, i: nat)
    requires from < |ticks| && to < |ticks| && ticks[to] > 0 && from != i
    ensures WaitBound(ticks, to, i) <= WaitBound(ticks, from, i)
    ensures ticks[from] == 0 ==> WaitBound(ticks, to, i) < WaitBound(ticks, from, i)
  {
    SumNoMore(Weights(ticks, from), Weights(ticks, to), i);
    if ticks[from] == 0 {
      SumLess(Weights(ticks, from), Weights(ticks, to), i, from);
    }
  }

  lemma ChargeBound(ticks: seq<nat>, running: nat, i: nat)
    requires running < |ticks| && ticks[running] > 0 && running != i
    ensures WaitBound(ticks[running := ticks[running] - 1], running, i) < WaitBound(ticks, running, i)
  {
    SumLess(Weights(ticks, running), Weights(ticks[running := ticks[running] - 1], running), i, running);
  }

  /** Ready to run, with ticks left. */
  ghost predicate InLine(ready: seq<nat>, ticks: seq<nat>, i: nat) {
    i in ready && i < |ticks| && ticks[i] > 0
  }

  /** What a step owes a thread in line that it does not dispatch: no reset, and a bound that does not grow. */
  ghost predicate Owed(ready: seq<nat>, ticks: seq<nat>, running: nat, ready': seq<nat>, ticks': seq<nat>,
                       running': nat, i: nat, charged: bool)
  {
    InLine(ready, ticks, i) && i != running && i != running' ==>
      && InLine(ready', ticks', i) && ticks'[i] == ticks[i]
      && WaitBound(ticks', running', i) + (if charged then 1 else 0) <= WaitBound(ticks, running, i)
  }

  ghost predicate AllOwed(ready: seq<nat>, ticks: seq<nat>, running: nat, ready': seq<nat>, ticks': seq<nat>,
                          running': nat, charged: bool)
  {
    forall i: nat :: Owed(ready, ticks, running, ready', ticks', running', i, charged)
  }

  /** Joining the list beforehand takes nothing from those that are in it. */
  lemma OwedBefore(ready: seq<nat>, queue: seq<nat>, ticks: seq<nat>, running: nat,
                   ready': seq<nat>, ticks': seq<nat>, running': nat, charged: bool)
    requires AllOwed(queue, ticks, running, ready', ticks', running', charged) && forall t :: t in ready ==> t in queue
    ensures AllOwed(ready, ticks, running, ready', ticks', running', charged)
  {
    forall i: nat
      ensures Owed(ready, ticks, running, ready', ticks', running', i, charged)
    {
      assert Owed(queue, ticks, running, ready', ticks', running', i, charged);
    }
  }

  /** The chosen thread leaves the list; budgets are as they were if anybody was in line. */
  lemma SwitchOwes(ready: seq<nat>, queue: seq<nat>, ticks: seq<nat>, running: nat,
                   ready': seq<nat>, ticks': seq<nat>, next: nat)
    requires running < |ticks| && next < |ticks'| && ticks'[next] > 0
    requires (exists t: nat :: InLine(queue, ticks, t)) ==> ticks' == ticks
    requires forall t :: t in ready ==> t in queue
    requires forall t :: t in ready' <==> t in queue && t != next
    ensures AllOwed(ready, ticks, running, ready', ticks', next, false)
    ensures ticks[running] == 0 ==> AllOwed(ready, ticks, running, ready', ticks', next, true)
  {
    forall i: nat | InLine(ready, ticks, i) && i != running && i != next
      ensures Owed(ready, ticks, running, ready', ticks', next, i, ticks[running] == 0)
    {
      assert InLine(queue, ticks, i);
      SwitchBound(ticks, running, next, i);
    }
  }

  lemma ChargeOwes(ready: seq<nat>, ticks: seq<nat>, running: nat)
    requires running < |ticks| && ticks[running] > 0
    ensures AllOwed(ready, ticks, running, ready, ticks[running := ticks[running] - 1], running, true)
  {
    forall i: nat | i != running
      ensures WaitBound(ticks[running := ticks[running] - 1], running, i) < WaitBound(ticks, running, i)
    {
      ChargeBound(ticks, running, i);
    }
  }

  // ---- The scheduler ----

  datatype Event = Tick | Yield | Block | Unblock(t: nat)

  ghost function Ticks(events: seq<Event>): nat {
    if events == [] then 0 else Ticks(events[..|events| - 1]) + if events[|events| - 1].Tick? then 1 else 0
  }

  ghost predicate Known(ready: seq<nat>, ticks: seq<nat>) {
    forall j :: 0 <= j < |ready| ==> ready[j] < |ticks|
  }

  /** The thread at place `p` has the most ticks of the list, and comes first among those that do. */
  ghost predicate FirstMostAt(ready: seq<nat>, ticks: seq<nat>, p: nat)
    requires Known(ready, ticks)
  {
    && p < |ready|
    && (forall j :: 0 <= j < p ==> ticks[ready[j]] < ticks[ready[p]])
    && (forall j :: p <= j < |ready| ==> ticks[ready[j]] <= ticks[ready[p]])
  }

  ghost predicate FirstMost(ready: seq<nat>, ticks: seq<nat>, next: nat) {
    Known(ready, ticks) && next < |ticks| && exists p: nat :: FirstMostAt(ready, ticks, p) && ready[p] == next
  }

  lemma FirstMostNext(ready: seq<nat>, ticks: seq<nat>, i: nat, next: nat)
    requires i < |ready| && Known(ready, ticks) && (i > 0 ==> FirstMost(ready[..i], ticks, next))
    ensures Known(ready[..i + 1], ticks)
    ensures i > 0 ==> FirstMost(ready[..i + 1], ticks, if ticks[ready[i]] > ticks[next] then ready[i] else next)
    ensures i == 0 ==> FirstMost(ready[..1], ticks, ready[0])
  {
    var s, s' := ready[..i], ready[..i + 1];
    assert s' == s + [ready[i]];
    if i == 0 {
      assert FirstMostAt(s', ticks, 0);
    } else {
      var p: nat :| FirstMostAt(s, ticks, p) && s[p] == next;
      assert FirstMostAt(s', ticks, if ticks[ready[i]] > ticks[next] then i else p);
    }
  }

  /** Who is chosen has at least the ticks of every thread in the list. */
  lemma FirstMostBounds(ready: seq<nat>, ticks: seq<nat>, next: nat, t: nat)
    requires FirstMost(ready, ticks, next) && t in ready
    ensures next in ready && t < |ticks| && ticks[t] <= ticks[next]
  {
    var p: nat :| FirstMostAt(ready, ticks, p) && ready[p] == next;
    assert ready[p] in ready;
  }

  /** The ready list once the thread that ran is back in it. */
  function Requeued(ready: seq<nat>, running: nat, stillRuns: bool): seq<nat> {
    if stillRuns then ready + [running] else ready
  }

  /** Budgets after the search: refilled only when every ready thread has used up its own. */
  ghost function Budgets(ticks: seq<nat>, prio: seq<nat>, ready: seq<nat>, idle: nat): seq<nat>
    requires |ticks| == |prio| && idle < |ticks| && forall t :: t in ready ==> t < |ticks|
  {
    if ready == [] then if ticks[idle] == 0 then ticks[idle := 1] else ticks
    else if exists t :: t in ready && ticks[t] > 0 then ticks
    else RefillAll(ticks, prio)
  }

  /** All budgets were reset, because nobody ready had ticks left; now everybody has. */
  ghost predicate Reset(ready: seq<nat>, ticks: seq<nat>, ticks': seq<nat>, prio: seq<nat>) {
    && |ticks| == |prio| && ticks' == RefillAll(ticks, prio) && ready != []
    && (forall t :: 0 <= t < |ticks'| ==> ticks'[t] > 0)
    && forall t :: t in ready ==> t < |ticks| && ticks[t] == 0
  }

  lemma ResetBudgets(ready: seq<nat>, ticks: seq<nat>, ticks': seq<nat>, prio: seq<nat>, idle: nat)
    requires Reset(ready, ticks, ticks', prio) && idle < |ticks|
    ensures ticks' == Budgets(ticks, prio, ready, idle) && !exists t: nat :: InLine(ready, ticks, t)
  {
  }

  // ---- What an event does to the whole state ----

  datatype State = State(ready: seq<nat>, ticks: seq<nat>, status: seq<Status>, running: nat)

  /** Each budget is half of what it was, and its priority. */
  ghost predicate Halved(ticks: seq<nat>, ticks': seq<nat>, prio: seq<nat>) {
    && |ticks'| == |ticks| == |prio|
    && forall t :: 0 <= t < |ticks| ==>
         ticks'[t] >= prio[t] && 2 * (ticks'[t] - prio[t]) <= ticks[t] <= 2 * (ticks'[t] - prio[t]) + 1
  }

  /** The budgets after a search in `queue`: reset when nobody in it has ticks; the idle thread has at least one. */
  ghost predicate Refilled(queue: seq<nat>, ticks: seq<nat>, ticks': seq<nat>, prio: seq<nat>, idle: nat) {
    if queue == [] then idle < |ticks| && ticks' == ticks[idle := if ticks[idle] == 0 then 1 else ticks[idle]]
    else if exists t: nat :: InLine(queue, ticks, t) then ticks' == ticks
    else Halved(ticks, ticks', prio)
  }

  /** The first thread of `queue` with the most ticks is taken out of it; the idle thread if it is empty. */
  ghost predicate Picked(queue: seq<nat>, ticks: seq<nat>, next: nat, ready': seq<nat>, idle: nat) {
    if queue == [] then next == idle && ready' == []
    else
      Known(queue, ticks)
      && exists p: nat :: FirstMostAt(queue, ticks, p) && queue[p] == next && ready' == queue[..p] + queue[p + 1..]
  }

  /** From `s`, with the ready list `queue` and the status of the thread that ran set to `left`, another one runs. */
  ghost predicate Switched(s: State, queue: seq<nat>, left: Status, s': State, prio: seq<nat>, idle: nat) {
    && Refilled(queue, s.ticks, s'.ticks, prio, idle) && Picked(queue, s'.ticks, s'.running, s'.ready, idle)
    && s.running < |s.status| && s'.running < |s.status|
    && s'.status == s.status[s.running := left][s'.running := Running]
  }

  ghost predicate Happened(s: State, e: Event, s': State, prio: seq<nat>, idle: nat) {
    match e
    case Tick =>
      s.running < |s.ticks|
      && if s.ticks[s.running] > 0 then s' == s.(ticks := s.ticks[s.running := s.ticks[s.running] - 1])
         else Switched(s, s.ready + [s.running], Ready, s', prio, idle)
    case Yield => Switched(s, s.ready + [s.running], Ready, s', prio, idle)
    case Block => Switched(s, s.ready, Blocked, s', prio, idle)
    case Unblock(t) =>
      if t < |s.status| && s.status[t] == Blocked
      then s' == s.(ready := [t] + s.ready, status := s.status[t := Ready])
      else s' == s
  }

  /** A run of the first `n` events, in which thread `i` does not run before the end. */
  ghost predicate Ran(trace: seq<State>, events: seq<Event>, n: nat, i: nat, prio: seq<nat>, idle: nat) {
    && n <= |events| && |trace| == n + 1
    && (forall j :: 0 <= j < n ==> Happened(trace[j], events[j], trace[j + 1], prio, idle) && trace[j].running != i)
  }

  lemma RanNext(trace: seq<State>, events: seq<Event>, n: nat, i: nat, prio: seq<nat>, idle: nat, s: State)
    requires Ran(trace, events, n, i, prio, idle) && n < |events|
    requires Happened(trace[n], events[n], s, prio, idle) && trace[n].running != i
    ensures Ran(trace + [s], events, n + 1, i, prio, idle)
  {
  }

  lemma BudgetsAre(ticks: seq<nat>, prio: seq<nat>, queue: seq<nat>, idle: nat)
    requires |ticks| == |prio| && idle < |ticks| && forall t :: t in queue ==> t < |ticks|
    ensures Refilled(queue, ticks, Budgets(ticks, prio, queue, idle), prio, idle)
  {
    if queue != [] && !exists t: nat :: InLine(queue, ticks, t) {
      if t :| t in queue && ticks[t] > 0 {
        assert InLine(queue, ticks, t);
      }
    }
  }

  lemma PickedIs(queue: seq<nat>, ticks: seq<nat>, next: nat, idle: nat)
    requires if queue == [] then next == idle else FirstMost(queue, ticks, next)
    ensures Picked(queue, ticks, next, Without<nat>(queue, next), idle)
  {
    if queue != [] {
      var p: nat :| FirstMostAt(queue, ticks, p) && queue[p] == next;
      WithoutCuts(queue, p);
    }
  }

  class Scheduler {
    const prio: seq<nat>
    const idle: nat
    var ticks: seq<nat>
    var status: seq<Status>
    var ready: seq<nat>
    var running: nat

    /** Exactly the ready threads are in the ready list, each once, and one thread runs. */
    ghost predicate Consistent()
      reads this
    {
      && |status| == |ticks| && BudgetsOk(ticks, prio) && idle < |ticks|
      && NoDup(ready) && (forall t: nat :: t in ready <==> t < |status| && status[t] == Ready)
    }

    ghost predicate Valid()
      reads this
    {
      && Consistent() && running < |ticks|
      && forall t :: 0 <= t < |status| ==> (status[t] == Running <==> t == running)
    }

    ghost function Now(): State
      reads this
    {
      State(ready, ticks, status, running)
    }

    constructor (prio: seq<nat>, idle: nat)
      requires idle < |prio| && forall t :: 0 <= t < |prio| ==> prio[t] > 0
      ensures Valid() && this.prio == prio && running == idle && ready == []
    {
      this.prio, this.idle := prio, idle;
      ticks := prio;
      status := seq(|prio|, t => if t == idle then Running else Blocked);
      ready := [];
      running := idle;
    }

    /** The scan of the ready list: the first thread with the most ticks. */
    method FindMax() returns (next: nat, max: int)
      requires Consistent()
      ensures max == -1 <==> ready == []
      ensures ready != [] ==> FirstMost(ready, ticks, next) && max == ticks[next]
      ensures forall t :: t in ready ==> t < |ticks| && ticks[t] <= max
    {
      next, max := 0, -1;
      for i := 0 to |ready|
        invariant max == -1 <==> i == 0
        invariant i > 0 ==> FirstMost(ready[..i], ticks, next) && max == ticks[next]
        invariant forall j :: 0 <= j < i ==> ready[j] < |ticks| && ticks[ready[j]] <= max
      {
        assert forall j :: 0 <= j < |ready| ==> ready[j] in ready;
        assert Known(ready, ticks);
        FirstMostNext(ready, ticks, i, next);
        if ticks[ready[i]] > max {
          next, max := ready[i], ticks[ready[i]];
        }
      }
      assert ready[..|ready|] == ready;
    }

    /** The search loop of `schedule`. Budgets are refilled only when every ready thread has used up its own. */
    method Choose() returns (next: nat)
      requires Consistent()
      modifies `ticks
      ensures Consistent() && next < |ticks| && ticks[next] > 0
      ensures ready != [] ==> FirstMost(ready, ticks, next)
      ensures ready == [] ==> next == idle
      ensures ticks == Budgets(old(ticks), prio, ready, idle)
      ensures (exists t: nat :: InLine(ready, old(ticks), t)) ==> ticks == old(ticks)
    {
      ghost var refilled := false;
      while true
        invariant Consistent() && |ticks| == |old(ticks)|
        invariant if refilled then Reset(ready, old(ticks), ticks, prio) else ticks == old(ticks)
        decreases !refilled
      {
        var max;
        next, max := FindMax();
        if max > 0 {
          FirstMostBounds(ready, ticks, next, ready[0]);
          if refilled {
            ResetBudgets(ready, old(ticks), ticks, prio, idle);
          }
          return;
        }
        if ready == [] {
          next := idle;
          if ticks[next] == 0 {
            ticks := ticks[next := 1];
          }
          return;
        }
        assert !refilled by {
          assert ready[0] in ready;
        }
        RefillAllBound(ticks, prio);
        ticks := RefillAll(ticks, prio);
        refilled := true;
      }
    }

    /** What the step owes the threads in line. */
    twostate predicate Owes(charged: bool)
      reads this
    {
      AllOwed(old(ready), old(ticks), old(running), ready, ticks, running, charged)
    }

    /** The current thread, if it is still running, goes to the end of the ready list. */
    method Requeue()
      requires Consistent() && running < |ticks|
               && forall t :: 0 <= t < |status| && t != running ==> status[t] != Running
      modifies `status, `ready
      ensures Consistent() && |status| == |old(status)| && forall t :: 0 <= t < |status| ==> status[t] != Running
      ensures ready == Requeued(old(ready), running, old(status[running]) == Running)
      ensures forall t :: t in old(ready) ==> t in ready
      ensures status == old(status)[running := if old(status[running]) == Running then Ready else old(status[running])]
    {
      if status[running] == Running {
        ready := ready + [running];
        status := status[running := Ready];
      }
    }

    /** The chosen thread leaves the ready list and runs. */
    method Dispatch(next: nat)
      requires Consistent() && next < |ticks| && forall t :: 0 <= t < |status| ==> status[t] != Running
      modifies `status, `ready, `running
      ensures Valid() && running == next && status == old(status)[next := Running]
      ensures ready == Without<nat>(old(ready), next) && forall t :: t in ready <==> t in old(ready) && t != next
    {
      if next in ready {
        WithoutRemovesOne<nat>(ready, next);
        ready := Without<nat>(ready, next);
      } else {
        WithoutAbsent<nat>(ready, next);
      }
      status := status[next := Running];
      running := next;
    }

    /** `schedule`: a thread with the most ticks runs; the one that ran is ready, or stays as blocked as it was. */
    method Schedule()
      requires Consistent() && running < |ticks|
               && forall t :: 0 <= t < |status| && t != running ==> status[t] != Running
      modifies `ticks, `status, `ready, `running
      ensures Valid() && |ticks| == |old(ticks)|
      ensures ticks[running] > 0
      ensures var was := old(status[running]);
              Switched(old(Now()), if was == Running then old(ready) + [old(running)] else old(ready),
                       if was == Running then Ready else was, Now(), prio, idle)
      ensures Owes(false) && (old(ticks[running]) == 0 ==> Owes(true))
    {
      Requeue();
      ghost var queue := ready;
      var next := Choose();
      BudgetsAre(old(ticks), prio, queue, idle);
      PickedIs(queue, ticks, next, idle);
      Dispatch(next);
      SwitchOwes(old(ready), queue, old(ticks), old(running), ready, ticks, next);
    }

    /** The time-slice part of `intr_handler_timer`. */
    method TimerTick()
      requires Valid()
      modifies `ticks, `status, `ready, `running
      ensures Valid() && |ticks| == |old(ticks)|
      ensures Happened(old(Now()), Tick, Now(), prio, idle)
      ensures Owes(true)
    {
      if ticks[running] == 0 {
        Schedule();
      } else {
        ChargeOwes(ready, ticks, running);
        ticks := ticks[running := ticks[running] - 1];
      }
    }

    /** `thread_yield` */
    method ThreadYield()
      requires Valid()
      modifies `ticks, `status, `ready, `running
      ensures Valid() && |ticks| == |old(ticks)|
      ensures Happened(old(Now()), Yield, Now(), prio, idle)
      ensures Owes(false)
    {
      Join();
      ghost var queue, before := ready, status;
      Schedule();
      assert before[old(running) := Ready] == old(status)[old(running) := Ready];
      OwedBefore(old(ready), queue, old(ticks), old(running), ready, ticks, running, false);
    }

    /** The running thread goes to the end of the list by itself. */
    method Join()
      requires Valid()
      modifies `status, `ready
      ensures Consistent() && ready == old(ready) + [running] && status == old(status)[running := Ready]
      ensures forall t :: 0 <= t < |status| ==> status[t] != Running
    {
      assert running !in ready;
      ready := ready + [running];
      status := status[running := Ready];
    }

    /** `thread_block` */
    method ThreadBlock()
      requires Valid()
      modifies `ticks, `status, `ready, `running
      ensures Valid() && |ticks| == |old(ticks)|
      ensures Happened(old(Now()), Block, Now(), prio, idle)
      ensures Owes(false)
    {
      status := status[running := Blocked];
      ghost var before := status;
      Schedule();
      assert before[old(running) := Blocked] == old(status)[old(running) := Blocked];
    }

    /** `thread_unblock`: to the front of the list. */
    method ThreadUnblock(t: nat)
      requires Valid() && t < |status| && status[t] == Blocked
      modifies `status, `ready
      ensures Valid() && Happened(old(Now()), Unblock(t), Now(), prio, idle)
      ensures Owes(false)
    {
      ready := [t] + ready;
      status := status[t := Ready];
    }

    method Step(e: Event)
      requires Valid()
      modifies `ticks, `status, `ready, `running
      ensures Valid() && |ticks| == |old(ticks)|
      ensures Happened(old(Now()), e, Now(), prio, idle)
      ensures Owes(e.Tick?)
    {
      match e {
        case Tick => TimerTick();
        case Yield => ThreadYield();
        case Block => ThreadBlock();
        case Unblock(t) =>
          if t < |status| && status[t] == Blocked {
            ThreadUnblock(t);
          }
      }
    }

    /** One event, for a thread in line that does not run yet. */
    method StepPast(e: Event, ghost i: nat)
      requires Valid() && InLine(ready, ticks, i) && i != running
      modifies `ticks, `status, `ready, `running
      ensures Valid() && Happened(old(Now()), e, Now(), prio, idle)
      ensures running != i ==>
                && InLine(ready, ticks, i)
                && WaitBound(ticks, running, i) + (if e.Tick? then 1 else 0) <= old(WaitBound(ticks, running, i))
    {
      Step(e);
      assert Owed(old(ready), old(ticks), old(running), ready, ticks, running, i, e.Tick?);
    }

    /**
     No starvation: whatever the others do, a ready thread with ticks left is dispatched within as many timer ticks as
     twice the sum of the other threads' priorities. The run ends when it is, after the first `k` events; `trace` is the
     whole state before and after each of them.
     */
    method Run(events: seq<Event>, i: nat) returns (k: nat, ghost trace: seq<State>)
      requires Valid() && InLine(ready, ticks, i)
      modifies `ticks, `status, `ready, `running
      ensures Valid() && k <= |events| && (running == i || k == |events|)
      ensures Ran(trace, events, k, i, prio, idle) && trace[0] == old(Now()) && trace[k] == Now()
      ensures running != i ==> Ticks(events) <= SumOthers(Twice(prio), i)
      ensures k > 0 ==> Ticks(events[..k - 1]) <= SumOthers(Twice(prio), i)
    {
      k, trace := 0, [Now()];
      WaitBoundByPriorities(ticks, prio, running, i);
      assert events[..0] == [];
      assert i != running;
      while k < |events|
        invariant Valid() && k <= |events| && InLine(ready, ticks, i) && i != running
        invariant Ran(trace, events, k, i, prio, idle) && trace[0] == old(Now()) && trace[k] == Now()
        invariant WaitBound(ticks, running, i) + Ticks(events[..k]) <= SumOthers(Twice(prio), i)
        invariant k > 0 ==> Ticks(events[..k - 1]) <= SumOthers(Twice(prio), i)
      {
        StepPast(events[k], i);
        assert events[..k + 1][..k] == events[..k];
        RanNext(trace, events, k, i, prio, idle, Now());
        k, trace := k + 1, trace + [Now()];
        if running == i {
          return;
        }
      }
      assert events[..|events|] == events;
    }
  }
}
