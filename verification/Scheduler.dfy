/** The cooperative scheduler of labs 17 and 18 as pure transitions over thread slots.
    Slot 0 is main; slots 1.. are the workers that thread_spawn fills. */
module Scheduler {
  import opened Util

  datatype ThreadState = Unused | Ready | Running | Waiting | Exited

  /** What the kernel globals and the thread table say.
      - `ready` is the ready queue from head to tail;
      - `waits[c]` is the wait list of condition c from head to tail, and `on[i]` the condition
        that slot i waits on while it is WAITING (a history variable);
      - `tp` is the slot the tp register points to;
      - `dispatched[i]` counts how often slot i was switched to (a history variable). */
  datatype Sys = Sys(state: seq<ThreadState>, ready: seq<nat>, waits: seq<seq<nat>>,
                     on: seq<nat>, tp: nat, live: nat, dispatched: seq<nat>)

  /** How a call of `schedule` ends for its caller: `_swtch` was called, `schedule` returned at
      once, or the kernel printed "no runnable thread" and stopped. */
  datatype Outcome = Switched(sys: Sys) | Returned(sys: Sys) | Halted

  /** A step of a program whose threads call the scheduler: it goes on, it ends, or the machine halts. */
  datatype Result<P> = Next(p: P) | Finished(p: P) | Stopped

  /** The program in the state that a call of `schedule` leaves. */
  function Resume<P>(o: Outcome, put: Sys -> P): Result<P> {
    match o
    case Switched(k) => Next(put(k))
    case Returned(k) => Next(put(k))
    case Halted => Stopped
  }

  // ------------------------------------------------------------------ operations

  predicate Bounded(s: Sys) {
    && s.tp < |s.state| == |s.dispatched| == |s.on|
    && forall k | 0 <= k < |s.ready| :: s.ready[k] < |s.state|
  }

  /** The queue without its k-th entry. */
  function Remove(q: seq<nat>, k: nat): seq<nat>
    requires k < |q|
  {
    q[..k] + q[k + 1..]
  }

  /** Take the thread at queue position k and make it the running one. The kernel always takes
      position 0; other positions serve to state what does not depend on that choice. */
  function Dispatch(s: Sys, k: nat): Sys
    requires Bounded(s) && k < |s.ready|
  {
    var n := s.ready[k];
    s.(ready := Remove(s.ready, k), state := s.state[n := Running], tp := n,
       dispatched := s.dispatched[n := s.dispatched[n] + 1])
  }

  function Requeue(s: Sys): Sys
    requires s.tp < |s.state|
  {
    s.(state := s.state[s.tp := Ready], ready := s.ready + [s.tp])
  }

  function Select(s: Sys, pick: nat): Outcome
    requires Bounded(s)
  {
    if s.ready == [] then
      if s.state[s.tp] == Running then Returned(s) else Halted
    else
      Switched(Dispatch(s, if pick < |s.ready| then pick else 0))
  }

  function Schedule(s: Sys, requeue: bool, pick: nat): Outcome
    requires Bounded(s)
  {
    Select(if requeue then Requeue(s) else s, pick)
  }

  function Yield(s: Sys, pick: nat): Outcome
    requires Bounded(s)
  {
    Schedule(s, true, pick)
  }

  /** The u64 decrement of live_workers wraps at zero. */
  function Leave(s: Sys): Sys
    requires s.tp < |s.state|
  {
    s.(state := s.state[s.tp := Exited], live := (s.live + U64 - 1) % U64)
  }

  function Exit(s: Sys, pick: nat): Outcome
    requires Bounded(s)
  {
    Schedule(Leave(s), false, pick)
  }

  function Sleep(s: Sys, c: nat): Sys
    requires s.tp < |s.state| == |s.on| && c < |s.waits|
  {
    s.(state := s.state[s.tp := Waiting], waits := s.waits[c := s.waits[c] + [s.tp]],
       on := s.on[s.tp := c])
  }

  function Wait(s: Sys, c: nat, pick: nat): Outcome
    requires Bounded(s) && c < |s.waits|
  {
    Schedule(Sleep(s, c), false, pick)
  }

  /** Every listed slot set to state st. */
  function SetAll(state: seq<ThreadState>, q: seq<nat>, st: ThreadState): (r: seq<ThreadState>)
    requires forall k | 0 <= k < |q| :: q[k] < |state|
    ensures |r| == |state|
    ensures forall i | 0 <= i < |state| :: r[i] == if i in q then st else state[i]
    decreases |q|
  {
    if q == [] then state
    else
      assert q == [q[0]] + q[1..];
      SetAll(state[q[0] := st], q[1..], st)
  }

  function Broadcast(s: Sys, c: nat): Sys
    requires c < |s.waits| && forall k | 0 <= k < |s.waits[c]| :: s.waits[c][k] < |s.state|
  {
    s.(state := SetAll(s.state, s.waits[c], Ready), ready := s.ready + s.waits[c],
       waits := s.waits[c := []])
  }

  lemma BroadcastShape(s: Sys, c: nat)
    requires c < |s.waits| && forall k | 0 <= k < |s.waits[c]| :: s.waits[c][k] < |s.state|
    ensures var b := Broadcast(s, c);
            && b == s.(state := b.state, ready := s.ready + s.waits[c], waits := s.waits[c := []])
            && |b.state| == |s.state|
            && forall i | 0 <= i < |s.state| :: b.state[i] == if i in s.waits[c] then Ready else s.state[i]
  {
  }

  /** The first unused slot at or above i; |state| when there is none. */
  function FreeSlot(state: seq<ThreadState>, i: nat): (r: nat)
    requires i <= |state|
    ensures i <= r <= |state|
    ensures r < |state| ==> state[r] == Unused
    ensures forall j | i <= j < r :: state[j] != Unused
    decreases |state| - i
  {
    if i == |state| || state[i] == Unused then i else FreeSlot(state, i + 1)
  }

  /** thread_spawn on slot i. */
  function Occupy(s: Sys, i: nat): Sys
    requires i < |s.state|
  {
    s.(state := s.state[i := Ready], ready := s.ready + [i], live := (s.live + 1) % U64)
  }

  function Spawn(s: Sys): Option<Sys>
    requires |s.state| > 0
  {
    var i := FreeSlot(s.state, 1);
    if i < |s.state| then Some(Occupy(s, i)) else None
  }

  /** recycle_workers frees every slot but main's. */
  function Recycle(s: Sys): Sys
    requires |s.state| > 0
  {
    s.(state := [s.state[0]] + seq(|s.state| - 1, _ => Unused))
  }

  /** schedule with an empty queue: it returns to a thread that is still RUNNING, and stops the machine for
      any other. */
  lemma ScheduleAlone(s: Sys, pick: nat)
    requires Bounded(s) && s.ready == []
    ensures Schedule(s, false, pick) == if s.state[s.tp] == Running then Returned(s) else Halted
    ensures Schedule(s, true, pick).Switched? && Schedule(s, true, pick).sys.tp == s.tp
  {
    assert Remove([s.tp], 0) == [];
  }

  // ------------------------------------------------------------------ invariant

  /** The ready queue holds the READY threads, each once. */
  ghost predicate ReadyQueue(s: Sys) {
    && NoDup(s.ready)
    && (forall k | 0 <= k < |s.ready| :: s.ready[k] < |s.state| && s.state[s.ready[k]] == Ready)
    && (forall i | 0 <= i < |s.state| && s.state[i] == Ready :: i in s.ready)
  }

  /** The wait list of condition c holds the threads that wait on c, each once. */
  ghost predicate WaitList(s: Sys, c: nat)
    requires c < |s.waits| && |s.on| == |s.state|
  {
    && NoDup(s.waits[c])
    && (forall k | 0 <= k < |s.waits[c]| ::
          var i := s.waits[c][k]; i < |s.state| && s.state[i] == Waiting && s.on[i] == c)
    && (forall i | 0 <= i < |s.state| && s.state[i] == Waiting && s.on[i] == c :: i in s.waits[c])
  }

  /** What also holds between a state change and the switch that follows it: READY iff queued
      exactly once, WAITING iff in exactly one wait list, nobody but tp is RUNNING. */
  ghost predicate Queues(s: Sys) {
    && Bounded(s) && |s.state| <= U64
    && ReadyQueue(s)
    && (forall c {:trigger WaitList(s, c)} {:trigger s.waits[c]} | 0 <= c < |s.waits| :: WaitList(s, c))
    && (forall i | 0 <= i < |s.state| && s.state[i] == Waiting :: s.on[i] < |s.waits|)
    && (forall i | 0 <= i < |s.state| && s.state[i] == Running :: i == s.tp)
  }

  function IsLive(st: ThreadState): nat {
    if st == Ready || st == Running || st == Waiting then 1 else 0
  }

  /** The number of worker slots that are READY, RUNNING or WAITING. */
  function Workers(state: seq<ThreadState>): nat
    requires |state| > 0
  {
    Sum(IsLive, state[1..])
  }

  ghost predicate Conserved(s: Sys) {
    |s.state| > 0 && s.live == Workers(s.state)
  }

  /** The scheduler invariant at every point where a thread runs its own code. */
  ghost predicate Inv(s: Sys) {
    && Queues(s)
    && s.state[s.tp] == Running
    && Conserved(s)
  }

  // ------------------------------------------------------------------ counting workers

  lemma {:induction false} WorkersUpdate(state: seq<ThreadState>, i: nat, st: ThreadState)
    requires i < |state|
    ensures i == 0 ==> Workers(state[i := st]) == Workers(state)
    ensures i > 0 ==> Workers(state[i := st]) + IsLive(state[i]) == Workers(state) + IsLive(st)
  {
    if i == 0 {
      assert state[i := st][1..] == state[1..];
    } else {
      assert state[i := st][1..] == state[1..][i - 1 := st];
      SumUpdate(IsLive, state[1..], i - 1, st);
    }
  }

  /** live_workers never reaches 2^64, so its increment and decrement never wrap. */
  lemma WorkersBelowSlots(state: seq<ThreadState>)
    requires 0 < |state|
    ensures Workers(state) < |state|
  {
    SumAtMost(IsLive, state[1..], 1);
  }

  lemma {:induction false} WakingKeepsWorkers(state: seq<ThreadState>, q: seq<nat>)
    requires |state| > 0 && NoDup(q)
    requires forall k | 0 <= k < |q| :: q[k] < |state| && state[q[k]] == Waiting
    ensures Workers(SetAll(state, q, Ready)) == Workers(state)
    decreases |q|
  {
    if q != [] {
      WorkersUpdate(state, q[0], Ready);
      WakingKeepsWorkers(state[q[0] := Ready], q[1..]);
    }
  }

  // ------------------------------------------------------------------ the invariant is kept

  lemma RemoveFacts(q: seq<nat>, k: nat)
    requires k < |q| && NoDup(q)
    ensures NoDup(Remove(q, k)) && q[k] !in Remove(q, k)
    ensures forall i :: i in Remove(q, k) <==> i in q && i != q[k]
  {
    var r := Remove(q, k);
    assert forall j | 0 <= j < |r| :: r[j] == if j < k then q[j] else q[j + 1];
    forall i | i in q && i != q[k] ensures i in r {
      var j :| 0 <= j < |q| && q[j] == i;
      assert r[if j < k then j else j - 1] == i;
    }
  }

  // The ready queue after the four changes that the operations make to it.

  lemma ReadyAppended(s: Sys, r: Sys, i: nat)
    requires ReadyQueue(s) && i < |s.state| && s.state[i] != Ready
    requires r.ready == s.ready + [i] && r.state == s.state[i := Ready]
    ensures ReadyQueue(r)
  {
    assert forall j :: j in r.ready <==> j in s.ready || j == i;
  }

  lemma ReadyRemoved(s: Sys, r: Sys, k: nat)
    requires ReadyQueue(s) && k < |s.ready| && s.ready[k] < |s.state|
    requires r.ready == Remove(s.ready, k) && r.state == s.state[s.ready[k] := Running]
    ensures ReadyQueue(r)
  {
    hide Remove;
    RemoveFacts(s.ready, k);
    RemoveSize(s.ready, k);
    forall j | 0 <= j < |r.ready| ensures r.ready[j] < |r.state| && r.state[r.ready[j]] == Ready {
      assert r.ready[j] in r.ready;
    }
  }

  lemma FirstRemoved(q: seq<nat>)
    requires q != []
    ensures Remove(q, 0) == q[1..]
  {
  }

  lemma RemoveSize(q: seq<nat>, k: nat)
    requires k < |q|
    ensures |Remove(q, k)| == |q| - 1
  {
  }

  lemma ReadyUntouched(s: Sys, r: Sys, i: nat, st: ThreadState)
    requires ReadyQueue(s) && i < |s.state| && s.state[i] != Ready && st != Ready
    requires r.ready == s.ready && r.state == s.state[i := st]
    ensures ReadyQueue(r)
  {
  }

  lemma ReadyExtended(s: Sys, r: Sys, w: seq<nat>)
    requires ReadyQueue(s) && NoDup(w) && forall k | 0 <= k < |w| :: w[k] < |s.state| && s.state[w[k]] == Waiting
    requires r.ready == s.ready + w && r.state == SetAll(s.state, w, Ready)
    ensures ReadyQueue(r)
  {
    assert forall i :: i in r.ready <==> i in s.ready || i in w;
  }

  /** From any state between a state change and the switch, selecting a thread restores the
      invariant: that thread is RUNNING, everybody else keeps its list. */
  lemma DispatchKeeps(s: Sys, k: nat)
    requires Queues(s) && Conserved(s) && s.state[s.tp] != Running && k < |s.ready|
    ensures Inv(Dispatch(s, k))
  {
    hide WaitList, Workers, ReadyQueue, Remove;
    var r := Dispatch(s, k);
    HeadIsReady(s, k);
    ReadyRemoved(s, r, k);
    ReadyBounds(r);
    WorkersUpdate(s.state, s.ready[k], Running);
    SameWaiters(s, r);
  }

  lemma HeadIsReady(s: Sys, k: nat)
    requires ReadyQueue(s) && k < |s.ready|
    ensures s.ready[k] < |s.state| && s.state[s.ready[k]] == Ready
  {
  }

  lemma ReadyBounds(s: Sys)
    requires ReadyQueue(s)
    ensures forall k | 0 <= k < |s.ready| :: s.ready[k] < |s.state|
  {
  }

  /** A change of states that neither makes nor unmakes a waiter leaves the wait lists sound. */
  lemma SameWaiters(s: Sys, r: Sys)
    requires Queues(s) && r.waits == s.waits && r.on == s.on && |r.state| == |s.state|
    requires forall i | 0 <= i < |s.state| :: s.state[i] == Waiting <==> r.state[i] == Waiting
    ensures forall c | 0 <= c < |r.waits| :: WaitList(r, c)
  {
    hide ReadyQueue;
    forall c | 0 <= c < |r.waits| ensures WaitList(r, c) {
      assert WaitList(s, c);
    }
  }

  lemma RequeueKeeps(s: Sys)
    requires Inv(s)
    ensures Queues(Requeue(s)) && Conserved(Requeue(s)) && Requeue(s).state[s.tp] == Ready
  {
    hide WaitList, Workers, ReadyQueue;
    var r := Requeue(s);
    WorkersUpdate(s.state, s.tp, Ready);
    ReadyAppended(s, r, s.tp);
    SameWaiters(s, r);
  }

  /** Main never runs the trampoline that calls thread_exit, so tp is a worker here. */
  lemma LeaveKeeps(s: Sys)
    requires Inv(s) && s.tp != 0
    ensures Queues(Leave(s)) && Conserved(Leave(s)) && Leave(s).state[s.tp] == Exited
    ensures Leave(s).live == s.live - 1
  {
    hide WaitList, Workers, ReadyQueue;
    WorkersUpdate(s.state, s.tp, Exited);
    WorkersBelowSlots(s.state);
    ReadyUntouched(s, Leave(s), s.tp, Exited);
    SameWaiters(s, Leave(s));
  }

  lemma SleepKeeps(s: Sys, c: nat)
    requires Inv(s) && c < |s.waits|
    ensures Queues(Sleep(s, c)) && Conserved(Sleep(s, c)) && Sleep(s, c).state[s.tp] == Waiting
  {
    hide WaitList, Workers, ReadyQueue;
    var r := Sleep(s, c);
    WorkersUpdate(s.state, s.tp, Waiting);
    ReadyUntouched(s, r, s.tp, Waiting);
    forall d | 0 <= d < |r.waits| ensures WaitList(r, d) {
      assert WaitList(s, d);
      if d == c {
        WaiterAdded(s, r, c);
      } else {
        WaiterElsewhere(s, r, c, d);
      }
    }
  }

  lemma WaiterAdded(s: Sys, r: Sys, c: nat)
    requires s.tp < |s.state| == |s.on| && s.state[s.tp] != Waiting && c < |s.waits|
    requires WaitList(s, c) && r == Sleep(s, c)
    ensures WaitList(r, c)
  {
    assert forall i :: i in r.waits[c] <==> i in s.waits[c] || i == s.tp;
  }

  lemma WaiterElsewhere(s: Sys, r: Sys, c: nat, d: nat)
    requires s.tp < |s.state| == |s.on| && s.state[s.tp] != Waiting && c < |s.waits| && r == Sleep(s, c)
    requires d < |s.waits| && d != c && WaitList(s, d)
    ensures WaitList(r, d)
  {
  }

  lemma BroadcastKeeps(s: Sys, c: nat)
    requires Inv(s) && c < |s.waits|
    ensures Inv(Broadcast(s, c))
  {
    hide WaitList, Workers, ReadyQueue;
    assert WaitList(s, c);
    Listed(s, c);
    var r := Broadcast(s, c);
    WakingKeepsWorkers(s.state, s.waits[c]);
    ReadyExtended(s, r, s.waits[c]);
    ReadyBounds(r);
    forall d | 0 <= d < |r.waits| ensures WaitList(r, d) {
      assert WaitList(s, d);
      WaitersLeft(s, r, c, d);
    }
  }

  lemma Listed(s: Sys, c: nat)
    requires c < |s.waits| && |s.on| == |s.state| && WaitList(s, c)
    ensures NoDup(s.waits[c])
    ensures forall k | 0 <= k < |s.waits[c]| :: s.waits[c][k] < |s.state| && s.state[s.waits[c][k]] == Waiting
  {
  }

  lemma WaitersLeft(s: Sys, r: Sys, c: nat, d: nat)
    requires c < |s.waits| && d < |s.waits| && |s.on| == |s.state| && WaitList(s, c) && WaitList(s, d)
    requires forall k | 0 <= k < |s.waits[c]| :: s.waits[c][k] < |s.state|
    requires r == Broadcast(s, c)
    ensures WaitList(r, d)
  {
  }

  lemma SpawnKeeps(s: Sys)
    requires Inv(s) && Spawn(s).Some?
    ensures Inv(Spawn(s).value)
  {
    hide WaitList, Workers, ReadyQueue;
    var i := FreeSlot(s.state, 1);
    var r := Occupy(s, i);
    WorkersUpdate(s.state, i, Ready);
    WorkersBelowSlots(r.state);
    ReadyAppended(s, r, i);
    SameWaiters(s, r);
  }

  /** A wait keeps the invariant; it stops the machine only when nobody is READY. */
  lemma WaitKeeps(s: Sys, c: nat, pick: nat)
    requires Inv(s) && c < |s.waits|
    ensures Wait(s, c, pick).Halted? <==> s.ready == []
    ensures s.ready != [] ==> Wait(s, c, pick).Switched? && Inv(Wait(s, c, pick).sys)
  {
    SleepKeeps(s, c);
    if s.ready != [] {
      var w := Sleep(s, c);
      DispatchKeeps(w, if pick < |w.ready| then pick else 0);
    }
  }

  /** A yield keeps the invariant and always switches: `schedule` never takes its "still RUNNING"
      return. */
  lemma YieldKeeps(s: Sys, pick: nat)
    requires Inv(s)
    ensures Yield(s, pick).Switched? && Inv(Yield(s, pick).sys)
  {
    RequeueKeeps(s);
    var q := Requeue(s);
    assert q.ready != [];
    DispatchKeeps(q, if pick < |q.ready| then pick else 0);
  }

  lemma ExitKeeps(s: Sys, pick: nat)
    requires Inv(s) && s.tp != 0
    ensures Exit(s, pick).Halted? <==> s.ready == []
    ensures s.ready != [] ==> Exit(s, pick).Switched? && Inv(Exit(s, pick).sys)
    ensures s.ready != [] ==> Exit(s, pick).sys.live == s.live - 1
  {
    LeaveKeeps(s);
    if s.ready != [] {
      var w := Leave(s);
      DispatchKeeps(w, if pick < |w.ready| then pick else 0);
    }
  }

  // ------------------------------------------------------------------ who runs next

  /** The old running thread is now in state st unless it was picked again; the new one was READY. */
  ghost predicate Moved(s: Sys, k: Sys, st: ThreadState) {
    && Inv(k) && |k.state| == |s.state| == |s.dispatched| == |k.dispatched| && |k.waits| == |s.waits|
    && s.tp < |s.state| && k.tp < |k.state|
    && (forall i | 0 <= i < |k.state| ::
          k.state[i] == if i == k.tp then Running else if i == s.tp then st else s.state[i])
    && (if k.tp == s.tp then st == Ready else s.state[k.tp] == Ready)
    && k.dispatched == s.dispatched[k.tp := s.dispatched[k.tp] + 1]
  }

  /** Switching after the running thread changed from s to its state in w. */
  lemma MovedCounts(s: Sys, k: Sys, st: ThreadState)
    requires Moved(s, k, st)
    ensures k.tp < |s.dispatched| == |s.state| && k.dispatched == s.dispatched[k.tp := s.dispatched[k.tp] + 1]
  {
  }

  lemma SelectMoves(s: Sys, w: Sys, st: ThreadState, pick: nat)
    requires Inv(s) && |s.state| == |s.dispatched| && s.state[s.tp] == Running
    requires Bounded(w) && w.ready != [] && w.tp == s.tp
    requires w.state == s.state[s.tp := st] && w.dispatched == s.dispatched && |w.waits| == |s.waits|
    requires forall j | 0 <= j < |w.ready| :: s.state[w.ready[j]] == Ready || (w.ready[j] == s.tp && st == Ready)
    requires Select(w, pick).Switched? && Inv(Select(w, pick).sys)
    ensures Moved(s, Select(w, pick).sys, st) && Select(w, pick).sys.live == w.live
  {
    hide Inv;
  }

  lemma RunningFacts(s: Sys)
    requires Inv(s)
    ensures NoDup(s.ready) && forall i | 0 <= i < |s.state| && s.state[i] == Running :: i == s.tp
    ensures forall i | 0 <= i < |s.state| && s.state[i] == Ready :: i in s.ready
    ensures s.tp < |s.state| == |s.dispatched| == |s.on| && s.state[s.tp] == Running
    ensures Bounded(s) && forall j | 0 <= j < |s.ready| :: s.state[s.ready[j]] == Ready
  {
  }

  lemma YieldMoves(s: Sys, pick: nat)
    requires Inv(s)
    ensures Yield(s, pick).Switched?
    ensures Moved(s, Yield(s, pick).sys, Ready) && Yield(s, pick).sys.live == s.live
  {
    hide Inv, Moved;
    YieldKeeps(s, pick);
    RunningFacts(s);
    SelectMoves(s, Requeue(s), Ready, pick);
  }

  lemma ExitMoves(s: Sys, pick: nat)
    requires Inv(s) && s.tp != 0 && s.ready != []
    ensures Exit(s, pick).Switched?
    ensures Moved(s, Exit(s, pick).sys, Exited) && Exit(s, pick).sys.live == s.live - 1
  {
    hide Inv, Moved;
    ExitKeeps(s, pick);
    RunningFacts(s);
    SelectMoves(s, Leave(s), Exited, pick);
  }

  lemma WaitMoves(s: Sys, pick: nat)
    requires Inv(s) && |s.waits| == 1 && s.ready != []
    ensures Wait(s, 0, pick).Switched?
    ensures Moved(s, Wait(s, 0, pick).sys, Waiting) && Wait(s, 0, pick).sys.live == s.live
  {
    hide Inv, Moved;
    WaitKeeps(s, 0, pick);
    RunningFacts(s);
    SelectMoves(s, Sleep(s, 0), Waiting, pick);
  }

  lemma BroadcastEffect(s: Sys)
    requires Inv(s) && |s.waits| == 1
    ensures var b := Broadcast(s, 0);
            Inv(b) && |b.waits| == 1 && |b.state| == |s.state| && b.tp == s.tp && b.live == s.live
    ensures forall i | 0 <= i < |s.state| ::
              Broadcast(s, 0).state[i] == if s.state[i] == Waiting then Ready else s.state[i]
  {
    BroadcastKeeps(s, 0);
    assert WaitList(s, 0);
  }

  lemma YieldRotates(s: Sys)
    requires Bounded(s)
    ensures Yield(s, 0).Switched?
    ensures var k := Yield(s, 0).sys; [k.tp] + k.ready == s.ready + [s.tp]
  {
    var q := s.ready + [s.tp];
    assert q == [q[0]] + Remove(q, 0);
  }

  lemma ExitDrops(s: Sys)
    requires Bounded(s) && s.ready != []
    ensures Exit(s, 0).Switched?
    ensures var k := Exit(s, 0).sys; [k.tp] + k.ready == s.ready
  {
    assert s.ready == [s.ready[0]] + Remove(s.ready, 0);
  }

  lemma WaitDrops(s: Sys, c: nat)
    requires Bounded(s) && s.ready != [] && c < |s.waits|
    ensures Wait(s, c, 0).Switched?
    ensures var k := Wait(s, c, 0).sys; [k.tp] + k.ready == s.ready
  {
    assert s.ready == [s.ready[0]] + Remove(s.ready, 0);
  }

  // ------------------------------------------------------------------ recycling

  /** live_workers is zero exactly when no worker is live. */
  lemma LiveIsZero(state: seq<ThreadState>)
    requires |state| > 0
    ensures Workers(state) == 0 <==> forall i | 1 <= i < |state| :: IsLive(state[i]) == 0
  {
    if Workers(state) == 0 {
      forall i | 1 <= i < |state| ensures IsLive(state[i]) == 0 {
        SumAtLeast(IsLive, state[1..], i - 1);
      }
    } else if forall i | 1 <= i < |state| :: IsLive(state[i]) == 0 {
      SumConstant(IsLive, state[1..], 0);
    }
  }

  lemma EmptyUnless(state: seq<ThreadState>, q: seq<nat>, st: ThreadState)
    requires forall k | 0 <= k < |q| :: q[k] < |state| && state[q[k]] == st
    ensures q == [] || exists i :: 0 <= i < |state| && state[i] == st
  {
    assert |q| > 0 ==> state[q[0]] == st;
  }

  /** If main runs and no worker is live, all lists are empty. */
  lemma NobodyListed(s: Sys)
    requires Queues(s) && s.tp == 0 && |s.state| > 0 && s.state[0] == Running
    requires forall i | 1 <= i < |s.state| :: IsLive(s.state[i]) == 0
    ensures s.ready == [] && forall c | 0 <= c < |s.waits| :: s.waits[c] == []
  {
    hide WaitList;
    EmptyUnless(s.state, s.ready, Ready);
    forall c | 0 <= c < |s.waits| ensures s.waits[c] == [] {
      assert WaitList(s, c);
      Listed(s, c);
      EmptyUnless(s.state, s.waits[c], Waiting);
    }
  }

  /** When wait_workers has seen live_workers fall to zero, nobody but main is in any list, so
      recycle_workers frees no linked thread and leaves a sound, empty scheduler. */
  lemma RecyclingIsSafe(s: Sys)
    requires Inv(s) && s.tp == 0
    ensures s.live == 0 <==> forall i | 1 <= i < |s.state| :: IsLive(s.state[i]) == 0
    ensures s.live == 0 ==> s.ready == [] && forall c | 0 <= c < |s.waits| :: s.waits[c] == []
    ensures s.live == 0 ==> Inv(Recycle(s)) && Recycle(s).live == 0
  {
    hide WaitList, Workers, ReadyQueue;
    LiveIsZero(s.state);
    if s.live == 0 {
      NobodyListed(s);
      RecycledIsSound(s);
    }
  }

  lemma RecycledIsSound(s: Sys)
    requires Bounded(s) && 0 < |s.state| <= U64 && s.tp == 0 && s.state[0] == Running && s.live == 0
    requires s.ready == [] && forall c | 0 <= c < |s.waits| :: s.waits[c] == []
    ensures Inv(Recycle(s))
  {
    hide Workers;
    LiveIsZero(Recycle(s).state);
  }

  // ------------------------------------------------------------------ bounded waiting

  /** What the running thread may do to the scheduler. */
  datatype Operation = DoYield | DoExit | DoWait(c: nat) | DoBroadcast(c: nat) | DoSpawn

  function Completed(o: Outcome): Option<Sys> {
    if o.Switched? then Some(o.sys) else None
  }

  /** One operation under first-in first-out dispatch; None when the machine stops or the
      operation is not the running thread's to make. A failed spawn changes nothing. */
  ghost function Perform(s: Sys, op: Operation): (r: Option<Sys>)
    requires Inv(s)
    ensures r.Some? ==> Inv(r.value)
  {
    match op
    case DoYield => YieldKeeps(s, 0); Completed(Yield(s, 0))
    case DoExit => if s.tp == 0 then None else ExitKeeps(s, 0); Completed(Exit(s, 0))
    case DoWait(c) =>
      if c < |s.waits| then WaitKeeps(s, c, 0); Completed(Wait(s, c, 0)) else None
    case DoBroadcast(c) =>
      if c < |s.waits| then BroadcastKeeps(s, c); assert WaitList(s, c); Some(Broadcast(s, c))
      else None
    case DoSpawn => if Spawn(s).Some? then SpawnKeeps(s); Spawn(s) else Some(s)
  }

  /** A run: the states before and after each operation. */
  ghost predicate IsRun(ts: seq<Sys>, ops: seq<Operation>) {
    && |ts| == |ops| + 1
    && Inv(ts[0])
    && forall j | 0 <= j < |ops| :: Inv(ts[j]) && Perform(ts[j], ops[j]) == Some(ts[j + 1])
  }

  predicate Switches(op: Operation) {
    op.DoYield? || op.DoExit? || op.DoWait?
  }

  function SwitchWeight(op: Operation): nat {
    if Switches(op) then 1 else 0
  }

  /** The thread i stands at position k, not dispatched since its count was d. */
  ghost predicate Queued(s: Sys, i: nat, k: nat, d: nat) {
    && k < |s.ready| && s.ready[k] == i
    && i < |s.state| == |s.dispatched| && s.state[i] == Ready && s.dispatched[i] == d
  }

  ghost predicate JustDispatched(s: Sys, i: nat, d: nat) {
    s.tp == i && i < |s.dispatched| && s.dispatched[i] == d + 1
  }

  /** First in, first out. */
  lemma HeadSelected(w: Sys)
    requires Bounded(w) && w.ready != []
    ensures Select(w, 0).Switched?
    ensures var t := Select(w, 0).sys;
            && t.tp == w.ready[0] && t.ready == w.ready[1..]
            && t.dispatched == w.dispatched[t.tp := w.dispatched[t.tp] + 1]
  {
    assert Remove(w.ready, 0) == w.ready[1..];
  }

  /** A switch from w, whose queue begins like that of s, moves the queued threads of s. */
  lemma SwitchMovesQueue(s: Sys, w: Sys, i: nat, k: nat, d: nat)
    requires Inv(s) && Queued(s, i, k, d) && Bounded(w) && s.ready <= w.ready && w.dispatched == s.dispatched
    requires Select(w, 0).Switched? && Inv(Select(w, 0).sys)
    ensures var t := Select(w, 0).sys; if k == 0 then JustDispatched(t, i, d) else Queued(t, i, k - 1, d)
  {
    hide Inv, Select;
    HeadSelected(w);
    RunningFacts(s);
    RunningFacts(Select(w, 0).sys);
    if k > 0 {
      assert s.ready[0] != i && w.ready[0] == s.ready[0] && w.ready[k] == i;
    }
  }

  /** Every switch moves a queued thread one place forward; nothing else moves it. */
  lemma QueueMoves(s: Sys, op: Operation, i: nat, k: nat, d: nat)
    requires Inv(s) && Queued(s, i, k, d) && Perform(s, op).Some?
    ensures !Switches(op) ==> Queued(Perform(s, op).value, i, k, d)
    ensures Switches(op) && k > 0 ==> Queued(Perform(s, op).value, i, k - 1, d)
    ensures Switches(op) && k == 0 ==> JustDispatched(Perform(s, op).value, i, d)
  {
    hide Inv, Queued, JustDispatched, Select;
    RunningFacts(s);
    match op
    case DoYield =>
      YieldKeeps(s, 0);
      SwitchMovesQueue(s, Requeue(s), i, k, d);
    case DoExit =>
      SwitchMovesQueue(s, Leave(s), i, k, d);
    case DoWait(c) =>
      SwitchMovesQueue(s, Sleep(s, c), i, k, d);
    case _ =>
      OthersKeepQueue(s, op, i, k, d);
  }

  /** Broadcast and spawn add to the end of the queue. */
  lemma OthersKeepQueue(s: Sys, op: Operation, i: nat, k: nat, d: nat)
    requires Inv(s) && Queued(s, i, k, d) && Perform(s, op).Some? && !Switches(op)
    ensures Queued(Perform(s, op).value, i, k, d)
  {
    var t := Perform(s, op).value;
    assert t.ready[k] == i;
    assert ReadyQueue(t);
  }

  /** Bounded waiting: the thread at position k of the ready queue is dispatched by the (k+1)-th
      switch and by none before it, whatever yields, exits, waits, broadcasts and spawns the
      running threads make meanwhile. */
  lemma {:induction false} BoundedWaiting(ts: seq<Sys>, ops: seq<Operation>, i: nat, k: nat, d: nat, j: nat)
    requires IsRun(ts, ops) && Queued(ts[0], i, k, d)
    requires j <= |ops| && Sum(SwitchWeight, ops[..j]) <= k
    ensures Queued(ts[j], i, k - Sum(SwitchWeight, ops[..j]), d)
    ensures j < |ops| && Switches(ops[j]) && Sum(SwitchWeight, ops[..j]) == k ==>
              JustDispatched(ts[j + 1], i, d)
  {
    hide Inv, Perform;
    if j > 0 {
      assert ops[..j] == ops[..j - 1] + [ops[j - 1]];
      SumAppend(SwitchWeight, ops[..j - 1], ops[j - 1]);
      BoundedWaiting(ts, ops, i, k, d, j - 1);
      assert Perform(ts[j - 1], ops[j - 1]) == Some(ts[j - 1 + 1]);
      QueueMoves(ts[j - 1], ops[j - 1], i, k - Sum(SwitchWeight, ops[..j - 1]), d);
    }
    if j < |ops| {
      assert Perform(ts[j], ops[j]) == Some(ts[j + 1]);
      QueueMoves(ts[j], ops[j], i, k - Sum(SwitchWeight, ops[..j]), d);
    }
  }
}
