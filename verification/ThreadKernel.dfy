/** The thread table, the intrusive ready and wait lists and the scheduler of labs 17 and 18.
    Every operation is proved to do to the linked structure what module Scheduler says. */
module ThreadKernel {
  import opened Util
  import opened Scheduler

  /** The two kernels differ in two places: lab 17 counts switches and clears the popped link. */
  datatype Lab = Lab17 | Lab18

  const STACK_SIZE: nat := 4096

  /** The part of a thread that does not change after thread_spawn. */
  datatype Preparation = Preparation(
    id: nat, stackLow: nat, stackHigh: nat, sp: nat, ra: nat, startFn: nat, startArg: nat)

  class Thread {
    const slot: nat
    var id: nat
    var state: ThreadState
    var readyNext: Thread?
    var waitNext: Thread?
    var stackLow: nat
    var stackHigh: nat
    var contextSp: nat
    var contextRa: nat
    var startFn: nat
    var startArg: nat

    constructor (slot: nat, state: ThreadState)
      ensures this.slot == slot && this.state == state
    {
      this.slot, this.state := slot, state;
      readyNext, waitNext := null, null;
      id, stackLow, stackHigh, contextSp, contextRa, startFn, startArg := 0, 0, 0, 0, 0, 0, 0;
    }

    /** What was prepared for the first dispatch. */
    function Prepared(): Preparation
      reads `id, `stackLow, `stackHigh, `contextSp, `contextRa, `startFn, `startArg
    {
      Preparation(id, stackLow, stackHigh, contextSp, contextRa, startFn, startArg)
    }
  }

  /** ready_head and ready_tail. `items` are the linked threads from head to tail; the links of
      threads outside the list may hold anything. */
  class ReadyList {
    var head: Thread?
    var tail: Thread?
    ghost var items: seq<Thread>

    ghost predicate Valid()
      reads this, items`readyNext
    {
      && NoDup(items)
      && (items == [] ==> head == null && tail == null)
      && (items != [] ==> head == items[0] && tail == items[|items| - 1] && tail.readyNext == null)
      && (forall k | 0 <= k < |items| - 1 :: items[k].readyNext == items[k + 1])
    }

    constructor ()
      ensures Valid() && items == []
    {
      head, tail, items := null, null, [];
    }

    /** push (lab 18), ready_push (lab 17). */
    method Push(t: Thread)
      requires Valid() && t !in items
      modifies this, items`readyNext, t`readyNext
      ensures Valid() && items == old(items) + [t]
    {
      t.readyNext := null;
      if tail != null {
        tail.readyNext := t;
      } else {
        head := t;
      }
      tail := t;
      items := items + [t];
    }

    /** pop of lab 18 leaves the popped link stale; ready_pop of lab 17 clears it. */
    method Pop(lab: Lab) returns (t: Thread?)
      requires Valid()
      modifies this, items`readyNext
      ensures Valid()
      ensures old(items) == [] ==> t == null && items == []
      ensures old(items) != [] ==> [t] + items == old(items)
    {
      t := head;
      if t == null {
        return;
      }
      head := t.readyNext;
      if head == null {
        tail := null;
      }
      if lab.Lab17? {
        t.readyNext := null;
      }
      items := items[1..];
    }
  }

  /** struct condition: `items` are the waiting threads from wait_head to wait_tail. */
  class Condition {
    ghost const number: nat
    var waitHead: Thread?
    var waitTail: Thread?
    ghost var items: seq<Thread>

    ghost predicate Valid()
      reads this, items`waitNext
    {
      && NoDup(items)
      && (items == [] ==> waitHead == null && waitTail == null)
      && (items != [] ==> waitHead == items[0] && waitTail == items[|items| - 1] && waitTail.waitNext == null)
      && (forall k | 0 <= k < |items| - 1 :: items[k].waitNext == items[k + 1])
    }

    constructor (ghost number: nat)
      ensures Valid() && items == [] && this.number == number
    {
      this.number := number;
      waitHead, waitTail, items := null, null, [];
    }

    /** condition_init. */
    method Init()
      modifies this
      ensures Valid() && items == []
    {
      waitHead, waitTail, items := null, null, [];
    }

    /** The list half of condition_wait. */
    method Append(t: Thread)
      requires Valid() && t !in items
      modifies this, items`waitNext, t`waitNext
      ensures Valid() && items == old(items) + [t]
    {
      t.waitNext := null;
      if waitTail != null {
        waitTail.waitNext := t;
      } else {
        waitHead := t;
      }
      waitTail := t;
      items := items + [t];
    }

    /** One round of the broadcast loop. */
    static method Wake(t: Thread, ready: ReadyList)
      requires ready.Valid() && t !in ready.items
      modifies t`waitNext, t`state, t`readyNext, ready, ready.items`readyNext
      ensures ready.Valid() && ready.items == old(ready.items) + [t] && t.state == Ready
    {
      t.waitNext := null;
      t.state := Ready;
      ready.Push(t);
    }

    /** condition_broadcast: the loop relinks each node into the ready list while it walks. */
    method Broadcast(ready: ReadyList)
      requires Valid() && ready.Valid()
      requires forall t | t in items :: t !in ready.items
      modifies this, items`state, items`waitNext, items`readyNext, ready, ready.items`readyNext
      ensures Valid() && items == []
      ensures ready.Valid() && ready.items == old(ready.items) + old(items)
      ensures forall t | t in old(items) :: t.state == Ready
    {
      hide ReadyList.Valid, Valid, NoDup;
      Chain();
      ghost var w := items;
      ghost var r := ready.items;
      ghost var k := 0;
      var t := waitHead;
      while t != null
        invariant 0 <= k <= |w| && items == w
        invariant t == if k < |w| then w[k] else null
        invariant ready.Valid() && ready.items == r + w[..k]
        invariant forall j | k <= j < |w| - 1 :: w[j].waitNext == w[j + 1]
        invariant k < |w| ==> w[|w| - 1].waitNext == null
        invariant forall j | 0 <= j < k :: w[j].state == Ready
        decreases |w| - k
      {
        var n := t.waitNext;
        LaterDiffer(r, w, k);
        Wake(t, ready);
        assert w[..k + 1] == w[..k] + [w[k]];
        t := n;
        k := k + 1;
      }
      waitHead, waitTail, items := null, null, [];
      EmptyIsValid();
    }

    /** The k-th waiter is new to the ready list, and none of the later ones. */
    static lemma LaterDiffer(r: seq<Thread>, w: seq<Thread>, k: nat)
      requires NoDup(w) && k < |w| && forall t | t in w :: t !in r
      ensures w[k] !in r + w[..k] && forall j | k < j < |w| :: w[j] != w[k]
    {
      assert w[k] in w && w[k] !in w[..k];
    }

    /** The links between the waiting threads. */
    lemma Chain()
      requires Valid()
      ensures NoDup(items) && waitHead == if items == [] then null else items[0]
      ensures forall j | 0 <= j < |items| - 1 :: items[j].waitNext == items[j + 1]
      ensures items != [] ==> items[|items| - 1].waitNext == null
    {
    }

    lemma EmptyIsValid()
      requires items == [] && waitHead == null && waitTail == null
      ensures Valid()
    {
    }
  }

  /** How a statement of a program on the kernel ends: the program goes on, main finds no worker left,
      or the machine halts. */
  datatype StepEnd = Ran | WorkersDone | MachineHalted

  /** How a call that may switch ends: `_swtch` ran, the call returned at once, or the machine
      stopped with "no runnable thread". */
  datatype End = DidSwitch | DidReturn | DidHalt

  function FreshSys(slots: nat, conditions: nat): Sys
    requires slots > 0
  {
    Sys([Running] + seq(slots - 1, _ => Unused), [], seq(conditions, _ => []),
        seq(slots, _ => 0), 0, 0, seq(slots, _ => 0))
  }

  lemma FreshInv(slots: nat, conditions: nat)
    requires 0 < slots <= U64
    ensures Inv(FreshSys(slots, conditions))
  {
    SumConstant(IsLive, FreshSys(slots, conditions).state[1..], 0);
  }

  class Kernel {
    const lab: Lab
    const threads: seq<Thread>
    const conditions: seq<Condition>
    const ready: ReadyList
    /** Addresses of the stacks array and of the trampoline thread_setup. */
    const stacks: nat
    const threadSetup: nat
    var liveWorkers: Word
    var switchCount: Word
    var tp: Thread
    ghost var view: Sys

    ghost predicate Lists(items: seq<Thread>, q: seq<nat>) {
      && |items| == |q|
      && (forall k | 0 <= k < |q| :: q[k] < |threads| && items[k] == threads[q[k]])
    }

    ghost predicate Table() {
      && 0 < |threads|
      && (forall i {:trigger threads[i]} | 0 <= i < |threads| :: threads[i].slot == i)
      && (forall c {:trigger conditions[c]} | 0 <= c < |conditions| :: conditions[c].number == c)
    }

    ghost predicate States(state: seq<ThreadState>)
      reads threads`state
    {
      && |threads| == |state|
      && (forall i {:trigger threads[i]} {:trigger state[i]} | 0 <= i < |threads| :: threads[i].state == state[i])
    }

    ghost predicate WaitLists(waits: seq<seq<nat>>)
      reads conditions, threads`waitNext
    {
      && |conditions| == |waits|
      && (forall c {:trigger conditions[c]} {:trigger waits[c]} | 0 <= c < |conditions| ::
            Lists(conditions[c].items, waits[c]) && conditions[c].Valid())
    }

    ghost predicate ReadyQueueIs(q: seq<nat>)
      reads ready, threads`readyNext
    {
      Lists(ready.items, q) && ready.Valid()
    }

    ghost predicate Counters(live: nat, dispatched: seq<nat>)
      reads `liveWorkers, `switchCount
    {
      && liveWorkers == live
      && (lab.Lab17? ==> switchCount == Sum(Identity, dispatched) % U64)
    }

    /** The linked structure represents `view`. */
    ghost predicate Repr()
      reads this, ready, conditions, threads`state, threads`readyNext, threads`waitNext
    {
      && Table() && Bounded(view) && |threads| == |view.state|
      && tp == threads[view.tp]
      && States(view.state) && WaitLists(view.waits) && ReadyQueueIs(view.ready)
      && Counters(view.live, view.dispatched)
    }

    /** Zeroed tables with main running: the first lines of lab17_main and lab18_main. */
    constructor (lab: Lab, slots: nat, conditionCount: nat, stacks: nat, threadSetup: nat)
      requires 0 < slots <= U64
      ensures Repr() && view == FreshSys(slots, conditionCount)
      ensures this.lab == lab && this.stacks == stacks && this.threadSetup == threadSetup
      ensures fresh(ready) && fresh(threads) && fresh(conditions)
    {
      var table := NewThreads(slots);
      var conds := NewConditions(conditionCount);
      this.lab, this.stacks, this.threadSetup := lab, stacks, threadSetup;
      threads, conditions := table, conds;
      ready := new ReadyList();
      liveWorkers, switchCount, tp := 0, 0, table[0];
      view := FreshSys(slots, conditionCount);
      new;
      SumConstant(Identity, view.dispatched, 0);
    }

    /** A slot is linked in the ready list exactly when its number is queued. */
    lemma ListedIffQueued(items: seq<Thread>, q: seq<nat>, t: Thread)
      requires Table() && Lists(items, q) && t.slot < |threads| && t == threads[t.slot]
      ensures t in items <==> t.slot in q
    {
      if t in items {
        var k :| 0 <= k < |items| && items[k] == t;
        assert q[k] == t.slot;
      }
      if t.slot in q {
        var k :| 0 <= k < |q| && q[k] == t.slot;
        assert items[k] == t;
      }
    }

    /** One assignment to a thread's state field. */
    method SetState(t: Thread, st: ThreadState)
      requires Repr() && t.slot < |threads| && t == threads[t.slot]
      modifies `view, t`state
      ensures Repr() && view == old(view).(state := old(view).state[t.slot := st])
    {
      hide WaitLists, ReadyQueueIs, Counters;
      t.state := st;
      view := view.(state := view.state[t.slot := st]);
    }

    /** push, ready_push. */
    method Push(t: Thread)
      requires Repr() && t.slot < |threads| && t == threads[t.slot] && t.slot !in view.ready
      modifies `view, ready, threads`readyNext
      ensures Repr() && view == old(view).(ready := old(view).ready + [t.slot])
    {
      hide WaitLists, Counters, States;
      ListedIffQueued(ready.items, view.ready, t);
      ready.Push(t);
      view := view.(ready := view.ready + [t.slot]);
    }

    /** Unlink the head of the ready list. */
    method PopReady() returns (t: Thread?)
      requires Repr()
      modifies `view, ready, ready.items`readyNext
      ensures Repr()
      ensures old(view).ready == [] ==> t == null && view == old(view)
      ensures old(view).ready != [] ==>
                && t == threads[old(view).ready[0]]
                && view == old(view).(ready := Remove(old(view).ready, 0))
    {
      hide WaitLists, Counters, States, ReadyList.Valid, Remove;
      t := ready.Pop(lab);
      if t != null {
        assert t == threads[view.ready[0]];
        FirstRemoved(view.ready);
        view := view.(ready := Remove(view.ready, 0));
      }
    }

    /** Count the switch and give t the processor; `_swtch` sets tp. */
    method SwitchTo(t: Thread)
      requires Repr() && t.slot < |threads| && t == threads[t.slot]
      modifies `view, `switchCount, `tp
      ensures Repr()
      ensures view == old(view).(tp := t.slot,
              dispatched := old(view).dispatched[t.slot := old(view).dispatched[t.slot] + 1])
    {
      hide WaitLists, ReadyQueueIs, States;
      ghost var n := t.slot;
      ghost var d := view.dispatched[n := view.dispatched[n] + 1];
      if lab.Lab17? {
        switchCount := (switchCount + 1) % U64;
      }
      assert Counters(view.live, d) by {
        SumUpdate(Identity, view.dispatched, n, view.dispatched[n] + 1);
        IncrementWraps(Sum(Identity, view.dispatched));
      }
      tp := t;
      view := view.(tp := n, dispatched := d);
    }

    /** The second half of schedule: pop the head of the ready list and switch to it. */
    method SwitchToNext() returns (end: End)
      requires Repr()
      modifies this, ready, threads`state, threads`readyNext
      ensures Repr()
      ensures match Select(old(view), 0)
              case Switched(s) => end == DidSwitch && view == s
              case Returned(s) => end == DidReturn && view == s
              case Halted => end == DidHalt && view == old(view)
    {
      var next := PopReady();
      if next == null {
        return if tp.state == Running then DidReturn else DidHalt;
      }
      SetState(next, Running);
      SwitchTo(next);
      end := DidSwitch;
    }

    /** schedule: requeue the running thread if asked, then switch to the head of the ready list. */
    method Schedule(requeue: bool) returns (end: End)
      requires Repr() && (requeue ==> view.tp !in view.ready)
      modifies this, ready, threads`state, threads`readyNext
      ensures Repr()
      ensures match Scheduler.Schedule(old(view), requeue, 0)
              case Switched(s) => end == DidSwitch && view == s
              case Returned(s) => end == DidReturn && view == s
              case Halted => end == DidHalt && view == old(view)
    {
      if requeue {
        SetState(tp, Ready);
        Push(tp);
      }
      end := SwitchToNext();
    }

    /** The running thread, which is not queued. */
    lemma Current()
      requires Repr() && Inv(view)
      ensures tp.slot == view.tp < |threads| && tp == threads[tp.slot] && view.tp !in view.ready
      ensures Bounded(view)
    {
      RunningFacts(view);
    }

    /** thread_yield. The "still RUNNING" return of schedule is never taken. */
    method ThreadYield() returns (end: End)
      requires Repr() && Inv(view)
      modifies this, ready, threads`state, threads`readyNext
      ensures Repr() && Inv(view) && end == DidSwitch
      ensures Yield(old(view), 0) == Switched(view)
    {
      hide Repr, Inv;
      YieldKeeps(view, 0);
      Current();
      end := Schedule(true);
    }

    /** thread_exit. It stops the machine exactly when nobody is READY. */
    method ThreadExit() returns (end: End)
      requires Repr() && Inv(view) && view.tp != 0
      modifies this, ready, threads`state, threads`readyNext
      ensures Repr()
      ensures end == DidHalt <==> old(view).ready == []
      ensures end != DidHalt ==> end == DidSwitch && Inv(view) && Exit(old(view), 0) == Switched(view)
    {
      hide Repr, Inv, Scheduler.Schedule, Bounded;
      ExitKeeps(view, 0);
      Current();
      SetState(tp, Exited);
      LeaveLive();
      end := Schedule(false);
    }

    /** live_workers--. */
    method LeaveLive()
      requires Repr()
      modifies `view, `liveWorkers
      ensures Repr() && view == old(view).(live := (old(view).live + U64 - 1) % U64)
    {
      liveWorkers := (liveWorkers + U64 - 1) % U64;
      view := view.(live := (view.live + U64 - 1) % U64);
    }

    /** No thread of condition c is linked in another condition. */
    ghost predicate Apart(c: nat)
      requires c < |conditions|
      reads conditions
    {
      forall d, t | 0 <= d < |conditions| && d != c && t in conditions[d].items :: t !in conditions[c].items
    }

    /** The list half of condition_wait on a thread that no condition lists yet. */
    method Enlist(c: nat, t: Thread)
      requires Repr() && c < |conditions| && t.slot < |threads| && t == threads[t.slot]
      requires Apart(c) && forall d | 0 <= d < |conditions| :: t !in conditions[d].items
      modifies `view, conditions[c], conditions[c].items`waitNext, t`waitNext
      ensures Repr()
      ensures view == old(view).(waits := old(view).waits[c := old(view).waits[c] + [t.slot]],
                                 on := old(view).on[t.slot := c])
    {
      hide ReadyQueueIs, States, Counters, Condition.Valid;
      conditions[c].Append(t);
      ghost var waits := view.waits[c := view.waits[c] + [t.slot]];
      forall d | 0 <= d < |conditions| ensures Lists(conditions[d].items, waits[d]) && conditions[d].Valid() {
        if d != c {
          assert conditions[d] != conditions[c] && old(conditions[d].Valid());
          forall x | x in conditions[d].items ensures x.waitNext == old(x.waitNext) {
            assert x !in old(conditions[c].items) && x != t;
          }
        }
      }
      view := view.(waits := waits, on := view.on[t.slot := c]);
    }

    /** Nobody waits twice, and neither the running nor a queued thread waits. */
    lemma WaitersAreApart(c: nat)
      requires Repr() && Inv(view) && c < |conditions|
      ensures Apart(c)
      ensures forall t | t in conditions[c].items :: t !in ready.items && t != tp
    {
      assert WaitList(view, c);
      forall t | t in conditions[c].items ensures t !in ready.items && t != tp {
        ListedIffQueued(conditions[c].items, view.waits[c], t);
        ListedIffQueued(ready.items, view.ready, t);
      }
      forall d, t | 0 <= d < |conditions| && d != c && t in conditions[d].items ensures t !in conditions[c].items {
        assert WaitList(view, d);
        ListedIffQueued(conditions[d].items, view.waits[d], t);
        ListedIffQueued(conditions[c].items, view.waits[c], t);
      }
    }

    /** condition_wait. */
    method ConditionWait(c: nat) returns (end: End)
      requires Repr() && Inv(view) && c < |conditions|
      modifies this, ready, conditions[c], threads`state, threads`readyNext, threads`waitNext
      ensures Repr()
      ensures end == DidHalt <==> old(view).ready == []
      ensures end != DidHalt ==> end == DidSwitch && Inv(view) && Wait(old(view), c, 0) == Switched(view)
    {
      WaitKeeps(view, c, 0);
      forall d | 0 <= d < |conditions| ensures Apart(d) && tp !in conditions[d].items {
        WaitersAreApart(d);
      }
      assert tp.slot == view.tp < |threads| && tp == threads[tp.slot];
      hide Repr, Inv;
      SetState(tp, Waiting);
      Enlist(c, tp);
      end := Schedule(false);
    }

    /** condition_broadcast: the ready list becomes the old one followed by the waiters. */
    method ConditionBroadcast(c: nat)
      requires Repr() && Inv(view) && c < |conditions|
      modifies `view, ready, conditions[c], threads`state, threads`readyNext, threads`waitNext
      ensures Repr() && Inv(view) && view == Broadcast(old(view), c)
    {
      BroadcastKeeps(view, c);
      WaitersAreApart(c);
      assert WaitList(view, c);
      hide Inv, Queues, Counters, WaitList, ReadyQueue;
      Wake(c);
    }

    /** The broadcast loop against the table: the listed threads become READY, no other changes. */
    method Wake(c: nat)
      requires Repr() && c < |conditions|
      requires forall t | t in conditions[c].items :: t !in ready.items
      requires forall k | 0 <= k < |view.waits[c]| :: view.waits[c][k] < |view.state|
      requires Apart(c)
      modifies `view, ready, conditions[c], threads`state, threads`readyNext, threads`waitNext
      ensures Repr() && view == Broadcast(old(view), c)
    {
      hide Counters, Condition.Valid, ReadyList.Valid, NoDup, Scheduler.Broadcast;
      ghost var w := conditions[c].items;
      ghost var s := view;
      BroadcastShape(s, c);
      forall i | 0 <= i < |threads| ensures threads[i] in w <==> i in s.waits[c] {
        ListedIffQueued(w, s.waits[c], threads[i]);
      }
      conditions[c].Broadcast(ready);
      assert States(Broadcast(s, c).state);
      assert ReadyQueueIs(Broadcast(s, c).ready);
      forall d | 0 <= d < |conditions|
        ensures Lists(conditions[d].items, Broadcast(s, c).waits[d]) && conditions[d].Valid()
      {
        if d != c {
          assert conditions[d] != conditions[c] && old(conditions[d].Valid());
          forall x | x in conditions[d].items ensures x.waitNext == old(x.waitNext) {
            assert x !in w;
          }
        }
      }
      view := Broadcast(s, c);
    }

    /** condition_init. */
    method ConditionInit(c: nat)
      requires Repr() && c < |conditions|
      modifies `view, conditions[c]
      ensures Repr() && view == old(view).(waits := old(view).waits[c := []])
    {
      hide ReadyQueueIs, States, Counters, Condition.Valid;
      conditions[c].Init();
      forall d | 0 <= d < |conditions|
        ensures Lists(conditions[d].items, view.waits[c := []][d]) && conditions[d].Valid()
      {
        if d != c {
          assert conditions[d] != conditions[c] && old(conditions[d].Valid());
        }
      }
      view := view.(waits := view.waits[c := []]);
    }

    /** thread_spawn's search for the first unused slot above main. */
    method FindUnused() returns (i: nat)
      requires Repr()
      ensures i == FreeSlot(view.state, 1) <= |threads|
    {
      hide WaitLists, ReadyQueueIs, Counters;
      i := 1;
      while i < |threads| && threads[i].state != Unused
        invariant 1 <= i <= |threads|
        invariant FreeSlot(view.state, 1) == FreeSlot(view.state, i)
      {
        i := i + 1;
      }
    }

    /** What thread_spawn prepares in slot i: a 16-byte aligned sp at the top of the slot's own stack,
        the trampoline as return address, and the function to call. */
    function PreparedFor(i: nat, fn: nat, arg: nat): Preparation {
      var low, high := stacks + STACK_SIZE * i, stacks + STACK_SIZE * (i + 1);
      Preparation(i, low, high, high - high % 16, threadSetup, fn, arg)
    }

    /** thread_spawn: fill the first unused slot, or return -1 when there is none; what is prepared in
        the other slots stays. */
    method ThreadSpawn(fn: nat, arg: nat) returns (i: int)
      requires Repr() && Inv(view)
      modifies this, ready, threads
      ensures forall j | 0 <= j < |threads| && j != i :: threads[j].Prepared() == old(threads[j].Prepared())
      ensures Repr() && Inv(view)
      ensures i == -1 <==> Spawn(old(view)) == None
      ensures i == -1 ==> view == old(view)
      ensures i != -1 ==> Spawn(old(view)) == Some(view) && 0 <= i == FreeSlot(old(view).state, 1) < |threads|
      ensures i != -1 ==> threads[i].Prepared() == PreparedFor(i, fn, arg)
      ensures i != -1 ==>
                var t := threads[i]; var top := stacks + 4096 * (i + 1);
                && t.id == i && t.stackLow == stacks + 4096 * i && t.stackHigh == top
                && t.contextSp == top - top % 16 && t.contextRa == threadSetup
                && t.startFn == fn && t.startArg == arg
    {
      hide Inv, Repr, FreeSlot;
      i := FindUnused();
      Sizes();
      if i == |threads| {
        return -1;
      }
      SpawnKeeps(view);
      Start(i, fn, arg);
    }

    lemma Sizes()
      requires Repr() && Inv(view)
      ensures 0 < |threads| == |view.state|
      ensures forall j | 0 <= j < |threads| && view.state[j] == Unused :: j !in view.ready
    {
      RunningFacts(view);
    }

    /** The assignments of thread_spawn to its slot i. */
    method Start(i: nat, fn: nat, arg: nat)
      requires Repr() && i < |threads| == |view.state| && i !in view.ready
      modifies this, ready, threads
      ensures Repr() && view == Occupy(old(view), i) && threads[i].Prepared() == PreparedFor(i, fn, arg)
      ensures forall j | 0 <= j < |threads| && j != i :: threads[j].Prepared() == old(threads[j].Prepared())
    {
      hide Repr;
      SlotsDiffer();
      SlotAt(i);
      SetState(threads[i], Ready);
      Push(threads[i]);
      JoinLive();
      Prepare(threads[i], i, fn, arg);
    }

    lemma SlotsDiffer()
      requires Repr()
      ensures forall j, k | 0 <= j < k < |threads| :: threads[j] != threads[k]
    {
      assert forall j | 0 <= j < |threads| :: threads[j].slot == j;
    }

    lemma SlotAt(i: nat)
      requires Repr() && i < |threads|
      ensures threads[i].slot == i
    {
    }

    method Prepare(t: Thread, i: nat, fn: nat, arg: nat)
      requires i < |threads| && t == threads[i]
      modifies t`id, t`stackLow, t`stackHigh, t`contextSp, t`contextRa, t`startFn, t`startArg
      ensures threads[i].Prepared() == PreparedFor(i, fn, arg)
    {
      t.id := i;
      t.stackLow := stacks + STACK_SIZE * i;
      t.stackHigh := stacks + STACK_SIZE * (i + 1);
      t.contextSp := t.stackHigh - t.stackHigh % 16;
      t.contextRa := threadSetup;
      t.startFn, t.startArg := fn, arg;
    }

    /** live_workers++. */
    method JoinLive()
      requires Repr()
      modifies `view, `liveWorkers
      ensures Repr() && view == old(view).(live := (old(view).live + 1) % U64)
    {
      liveWorkers := (liveWorkers + 1) % U64;
      view := view.(live := (view.live + 1) % U64);
    }

    /** recycle_workers. */
    method RecycleWorkers()
      requires Repr()
      modifies `view, threads`state
      ensures Repr() && view == Recycle(old(view))
    {
      hide WaitLists, ReadyQueueIs, Counters;
      var i := 1;
      while i < |threads|
        invariant 1 <= i <= |threads| && Repr()
        invariant forall j | 0 <= j < |threads| ::
                    view.state[j] == if 1 <= j < i then Unused else old(view).state[j]
        invariant view == old(view).(state := view.state)
      {
        SetState(threads[i], Unused);
        i := i + 1;
      }
      assert view.state == Recycle(old(view)).state;
    }
  }

  method NewThreads(slots: nat) returns (table: seq<Thread>)
    requires slots > 0
    ensures |table| == slots && fresh(table)
    ensures forall i {:trigger table[i]} | 0 <= i < |table| ::
              table[i].slot == i && table[i].state == if i == 0 then Running else Unused
  {
    var main := new Thread(0, Running);
    table := [main];
    while |table| < slots
      invariant 1 <= |table| <= slots && fresh(table)
      invariant forall i {:trigger table[i]} | 0 <= i < |table| ::
                  table[i].slot == i && table[i].state == if i == 0 then Running else Unused
    {
      var t := new Thread(|table|, Unused);
      table := table + [t];
    }
  }

  method NewConditions(count: nat) returns (conds: seq<Condition>)
    ensures |conds| == count && fresh(conds)
    ensures forall c {:trigger conds[c]} | 0 <= c < |conds| ::
              conds[c].number == c && conds[c].Valid() && conds[c].items == []
  {
    conds := [];
    while |conds| < count
      invariant |conds| <= count && fresh(conds)
      invariant forall c {:trigger conds[c]} | 0 <= c < |conds| ::
                  conds[c].number == c && conds[c].Valid() && conds[c].items == []
    {
      var c := new Condition(|conds|);
      conds := conds + [c];
    }
  }
}
