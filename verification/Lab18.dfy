/** lab18_main on the linked kernel structures: each statement of the workers is executed on the
    mutable state and proved to do what module Workers says. */
module Lab18 {
  import opened Util
  import opened Scheduler
  import opened ThreadKernel
  import W = Workers
  import LockProgram
  import RaceProgram

  /** The globals of lab 18 besides the scheduler's, and where each thread is in its code. */
  class Machine {
    const kernel: Kernel
    var pc: seq<W.Pc>
    var v: seq<nat>
    var owner: Thread?
    var sharedCounter: nat

    ghost function View(): W.Prog
      reads this, kernel
    {
      W.Prog(kernel.view, pc, v, if owner == null then None else Some(owner.slot), sharedCounter)
    }

    /** The table sizes agree and the owner is an entry of the table. */
    ghost predicate Coupled()
      reads this, kernel
    {
      && |kernel.threads| == |pc| == |v| == |kernel.view.state|
      && kernel.tp.slot == kernel.view.tp < |pc| && kernel.tp == kernel.threads[kernel.tp.slot]
      && |kernel.conditions| == |kernel.view.waits| == 1 && kernel.lab == Lab18
      && (owner != null ==> owner.slot < |pc| && owner == kernel.threads[owner.slot])
    }

    ghost predicate Valid()
      reads this, kernel, kernel.ready, kernel.conditions, kernel.threads
    {
      kernel.Repr() && W.Good(View()) && Coupled()
    }

    constructor (slots: nat, stacks: nat, threadSetup: nat)
      requires 0 < slots <= U64
      ensures Valid() && fresh(kernel) && fresh(kernel.ready) && fresh(kernel.conditions) && fresh(kernel.threads)
      ensures kernel.view == FreshSys(slots, 1) && owner == null && sharedCounter == 0
      ensures forall i | 1 <= i < |pc| :: pc[i] == W.Idle
    {
      kernel := new Kernel(Lab18, slots, 1, stacks, threadSetup);
      pc := [W.MainLoop] + seq(slots - 1, _ => W.Idle);
      v := seq(slots, _ => 0);
      owner, sharedCounter := null, 0;
      new;
      FreshIsGood(View(), slots);
    }

    /** The worker reads the counter. */
    method LoadCounter() returns (end: StepEnd)
      requires Valid() && (pc[kernel.tp.slot] == W.Load || pc[kernel.tp.slot] == W.LockedLoad)
      modifies `pc, `v
      ensures Valid() && W.Step(old(View()), 0) == Next(View()) && end == Ran
    {
      hide W.Good, W.Sized, W.Step, Kernel.Repr, Inv, Bounded;
      W.SilentStepKeeps(View(), 0);
      W.PcFacts(View());
      W.LoadStep(View(), 0);
      var t := kernel.tp.slot;
      v := v[t := sharedCounter];
      pc := pc[t := if pc[t] == W.Load then W.Yield else W.LockedYield];
      end := Ran;
    }

    /** The worker writes the counter. */
    method StoreCounter() returns (end: StepEnd)
      requires Valid() && (pc[kernel.tp.slot] == W.Store || pc[kernel.tp.slot] == W.LockedStore)
      modifies `pc, `sharedCounter
      ensures Valid() && W.Step(old(View()), 0) == Next(View()) && end == Ran
    {
      hide W.Good, W.Sized, W.Step, Kernel.Repr, Inv, Bounded;
      W.SilentStepKeeps(View(), 0);
      W.PcFacts(View());
      W.StoreStep(View(), 0);
      var t := kernel.tp.slot;
      sharedCounter := (v[t] + 1) % U64;
      pc := pc[t := if pc[t] == W.Store then W.Exit else W.Release];
      end := Ran;
    }

    /** lock_acquire finds the lock free. */
    method TakeLock() returns (end: StepEnd)
      requires Valid() && pc[kernel.tp.slot] == W.Acquire && owner == null
      modifies `pc, `owner
      ensures Valid() && W.Step(old(View()), 0) == Next(View()) && end == Ran
    {
      hide W.Good, W.Sized, Kernel.Repr, Inv, Scheduler.Yield, Scheduler.Exit, Wait, Broadcast, Bounded;
      W.SilentStepKeeps(View(), 0);
      W.PcFacts(View());
      var t := kernel.tp.slot;
      owner := kernel.tp;
      pc := pc[t := W.LockedLoad];
      end := Ran;
    }

    /** thread_yield with the caller's next program point; main has none. */
    method YieldAt() returns (end: StepEnd)
      requires Valid() && (pc[kernel.tp.slot] == W.Yield || pc[kernel.tp.slot] == W.LockedYield ||
                           (pc[kernel.tp.slot] == W.MainLoop && kernel.liveWorkers != 0))
      modifies this, kernel, kernel.ready, kernel.threads
      ensures Valid() && W.Step(old(View()), 0) == Next(View()) && end == Ran
      ensures kernel.tp != old(kernel.tp)
      ensures [kernel.view.tp] + kernel.view.ready == old(kernel.view.ready) + [old(kernel.view.tp)]
    {
      hide W.Good, Kernel.Repr, Inv, Scheduler.Yield, Scheduler.Exit, Wait, Broadcast, Bounded;
      ghost var p := View();
      Facts();
      W.SwitchingStepKeeps(p, 0);
      W.YieldGoesBehind(p);
      var t := kernel.tp.slot;
      if pc[t] == W.Yield {
        pc := pc[t := W.Store];
      } else if pc[t] == W.LockedYield {
        pc := pc[t := W.LockedStore];
      }
      var _ := kernel.ThreadYield();
      AfterCall();
      end := Ran;
    }

    /** condition_wait on the lock, from inside the acquire loop. */
    method WaitForLock() returns (end: StepEnd)
      requires Valid() && pc[kernel.tp.slot] == W.Acquire && owner != null
      modifies this, kernel, kernel.ready, kernel.conditions, kernel.threads
      ensures Valid() && W.Step(old(View()), 0) == Next(View()) && end == Ran
      ensures old(kernel.tp).state == Waiting && kernel.tp != old(kernel.tp)
      ensures kernel.view.waits[0] == old(kernel.view.waits[0]) + [old(kernel.view.tp)]
      ensures [kernel.view.tp] + kernel.view.ready == old(kernel.view.ready)
    {
      hide W.Good, Kernel.Repr, Inv, Scheduler.Yield, Scheduler.Exit, Wait, Broadcast, Bounded;
      ghost var p := View();
      Facts();
      W.PcFacts(p);
      W.SwitchingStepKeeps(p, 0);
      W.BlockedWorkerSleeps(p, 0);
      var _ := kernel.ConditionWait(0);
      AfterCall();
      end := Ran;
    }

    /** lock_release. */
    method ReleaseLock() returns (end: StepEnd)
      requires Valid() && pc[kernel.tp.slot] == W.Release
      modifies this, kernel, kernel.ready, kernel.conditions, kernel.threads
      ensures Valid() && W.Step(old(View()), 0) == Next(View()) && end == Ran
    {
      hide W.Good, Kernel.Repr, Inv, Scheduler.Yield, Scheduler.Exit, Wait, Bounded;
      ghost var p := View();
      Facts();
      W.ReleaseKeeps(p);
      var t := kernel.tp.slot;
      if owner != kernel.tp {
        return MachineHalted;
      }
      owner := null;
      kernel.ConditionBroadcast(0);
      pc := pc[t := W.Exit];
      AfterCall();
      end := Ran;
    }

    /** thread_exit. */
    method Leave() returns (end: StepEnd)
      requires Valid() && pc[kernel.tp.slot] == W.Exit
      modifies this, kernel, kernel.ready, kernel.threads
      ensures Valid() && W.Step(old(View()), 0) == Next(View()) && end == Ran
    {
      hide W.Good, Kernel.Repr, Inv, Scheduler.Yield, Scheduler.Exit, Wait, Broadcast, Bounded;
      ghost var p := View();
      Facts();
      W.PcFacts(p);
      W.SwitchingStepKeeps(p, 0);
      pc := pc[kernel.tp.slot := W.Done];
      var _ := kernel.ThreadExit();
      AfterCall();
      end := Ran;
    }

    lemma Facts()
      requires Valid()
      ensures Inv(kernel.view) && W.Sized(View()) && kernel.liveWorkers == kernel.view.live
      ensures pc[kernel.tp.slot] == W.MainLoop <==> kernel.view.tp == 0
    {
      W.PcFacts(View());
    }

    /** What every kernel call leaves of the table. */
    lemma AfterCall()
      requires kernel.Repr()
      ensures |kernel.threads| == |kernel.view.state| && |kernel.conditions| == |kernel.view.waits|
      ensures kernel.tp.slot == kernel.view.tp < |kernel.threads| && kernel.tp == kernel.threads[kernel.tp.slot]
      ensures forall i | 0 <= i < |kernel.threads| :: kernel.threads[i].state == kernel.view.state[i]
    {
    }

    /** Execute the running thread's next statement. */
    method Step() returns (end: StepEnd)
      requires Valid()
      modifies this, kernel, kernel.ready, kernel.conditions, kernel.threads
      ensures Valid()
      ensures match W.Step(old(View()), 0)
              case Next(q) => end == Ran && View() == q
              case Finished(q) => end == WorkersDone && View() == q
              case Stopped => false
    {
      hide W.Good, Kernel.Repr, Inv, Scheduler.Yield, Scheduler.Exit, Wait, Broadcast, Bounded;
      W.PcFacts(View());
      Facts();
      var t := kernel.tp.slot;
      if pc[t] == W.MainLoop && kernel.liveWorkers == 0 {
        end := WorkersDone;
      } else if pc[t] == W.MainLoop || pc[t] == W.Yield || pc[t] == W.LockedYield {
        end := YieldAt();
      } else if pc[t] == W.Acquire && owner != null {
        end := WaitForLock();
      } else if pc[t] == W.Release {
        end := ReleaseLock();
      } else if pc[t] == W.Exit {
        end := Leave();
      } else if pc[t] == W.Acquire {
        end := TakeLock();
      } else if pc[t] == W.Load || pc[t] == W.LockedLoad {
        end := LoadCounter();
      } else {
        end := StoreCounter();
      }
    }

    /** thread_spawn of a worker whose code begins at `start`. */
    method SpawnWorker(start: W.Pc, fn: nat) returns (i: int)
      requires Valid() && (start == W.Load || start == W.Acquire) && Spawn(kernel.view).Some?
      modifies this, kernel, kernel.ready, kernel.threads
      ensures Valid() && 1 <= i < |pc| && old(pc)[i] == W.Idle
      ensures forall j | 1 <= j < i :: old(pc)[j] != W.Idle
      ensures pc == old(pc)[i := start] && owner == old(owner) && sharedCounter == old(sharedCounter)
      ensures kernel.threads[i].Prepared() == kernel.PreparedFor(i, fn, 0)
      ensures forall j | 0 <= j < |pc| && j != i :: kernel.threads[j].Prepared() == old(kernel.threads[j].Prepared())
    {
      hide W.Good, Kernel.Repr, Inv;
      ghost var p := View();
      Facts();
      SpawnIsGood(p, start);
      i := kernel.ThreadSpawn(fn, 0);
      AfterCall();
      pc := pc[i := start];
    }

    /** thread_spawn, n times. */
    method SpawnWorkers(n: nat, start: W.Pc, fn: nat)
      requires Valid() && (start == W.Load || start == W.Acquire) && n < |pc|
      requires forall i | 1 <= i < |pc| :: pc[i] == W.Idle
      modifies this, kernel, kernel.ready, kernel.threads
      ensures Valid() && |pc| == old(|pc|) && W.Spawned(View()) == n
      ensures owner == old(owner) && sharedCounter == old(sharedCounter)
      ensures forall i | 1 <= i < |pc| :: pc[i] == if i <= n then start else W.Idle
      ensures forall i | 1 <= i <= n :: kernel.threads[i].Prepared() == kernel.PreparedFor(i, fn, 0)
    {
      hide W.Good, Kernel.Repr, Inv;
      var j := 0;
      while j < n
        invariant j <= n && Valid() && |pc| == old(|pc|)
        invariant owner == old(owner) && sharedCounter == old(sharedCounter)
        invariant forall i | 1 <= i < |pc| :: pc[i] == if i <= j then start else W.Idle
        invariant forall i | 1 <= i <= j :: kernel.threads[i].Prepared() == kernel.PreparedFor(i, fn, 0)
      {
        IdleSlotIsFree(View(), j + 1);
        var _ := SpawnWorker(start, fn);
        j := j + 1;
      }
      W.GoodSizes(View());
      CountSpawned(pc, n, start);
    }

    /** wait_workers, with everything that the other threads do meanwhile. */
    method WaitWorkers() returns (ghost steps: nat)
      requires Valid()
      modifies this, kernel, kernel.ready, kernel.conditions, kernel.threads
      ensures Valid() && W.Run(old(View()), W.Fifo(steps)) == Finished(View())
    {
      hide W.Good, Kernel.Repr, Inv, W.Step, W.Sized;
      ghost var p := View();
      var end := Ran;
      steps := 0;
      while end == Ran
        invariant Valid() && end != MachineHalted
        invariant W.Run(p, W.Fifo(steps)) == if end == Ran then Next(View()) else Finished(View())
        decreases end == Ran, W.Work(View()), W.Distance(View())
      {
        ghost var q := View();
        W.StepKeeps(q, 0);
        if !W.Blocked(q) {
          W.FreeStep(q, 0);
        } else if W.Step(q, 0).Next? {
          W.BlockedStepProgress(q);
        }
        W.RunAppend(p, W.Fifo(steps), [0]);
        assert W.Fifo(steps) + [0] == W.Fifo(steps + 1);
        OneStep(q);
        end := Step();
        steps := steps + 1;
      }
    }

    /** recycle_workers between the two parts, with the fresh counter and lock of part B. */
    method Recycle()
      requires Valid() && W.Over(View()) && owner == null && kernel.view.live == 0
      modifies this, kernel, kernel.conditions, kernel.threads
      ensures Valid() && |pc| == old(|pc|) && owner == null && sharedCounter == 0
      ensures kernel.tp == old(kernel.tp) && forall i | 1 <= i < |pc| :: pc[i] == W.Idle
    {
      hide W.Good, Kernel.Repr, Inv;
      ghost var p := View();
      Facts();
      RecycledIsGood(p);
      kernel.RecycleWorkers();
      pc := [pc[0]] + seq(|pc| - 1, _ => W.Idle);
      sharedCounter := 0;
      kernel.ConditionInit(0);
      AfterCall();
    }
  }

  datatype Verdict = Pass | RaceNotReproduced | LockBroken

  /** lab18_main's parts A and B with n workers each: neither failure branch is ever taken. The two
      counters are those that the two programs, run under the kernel's scheduler, end with. */
  method Main18(slots: nat, n: nat, stacks: nat, threadSetup: nat, unsafeFn: nat, safeFn: nat)
    returns (verdict: Verdict, counterA: nat, counterB: nat,
             ghost a: W.Prog, ghost b: W.Prog, ghost stepsA: nat, ghost stepsB: nat)
    requires 1 <= n < slots <= U64
    ensures verdict == Pass && counterA == 1 && counterB == n
    ensures RaceProgram.Start(a, n) && LockProgram.Start(b, n)
    ensures Ended(a, stepsA, counterA) && Ended(b, stepsB, counterB)
  {
    hide W.Good, Kernel.Repr, Inv, W.Sized;
    var m := new Machine(slots, stacks, threadSetup);
    m.SpawnWorkers(n, W.Load, unsafeFn);
    a := m.View();
    stepsA := m.WaitWorkers();
    RaceProgram.StartIsFifo(a, n);
    RaceProgram.FifoResult(a, n, 0, stepsA);
    verdict, counterA, counterB, b, stepsB := Pass, m.sharedCounter, 0, a, 0;
    if m.sharedCounter != 1 {
      verdict := RaceNotReproduced;
      return;
    }
    W.RunKeeps(a, W.Fifo(stepsA));
    RaceKeepsOwner(a, n, W.Fifo(stepsA));
    m.Recycle();
    m.SpawnWorkers(n, W.Acquire, safeFn);
    b := m.View();
    stepsB := m.WaitWorkers();
    LockProgram.StartHolds(b, n);
    LockProgram.LockSafety(b, n, W.Fifo(stepsB));
    counterB := m.sharedCounter;
    if m.sharedCounter != n {
      verdict := LockBroken;
    }
  }

  /** The program ends after that many steps with that counter. */
  predicate Ended(p: W.Prog, steps: nat, counter: nat) {
    W.Run(p, W.Fifo(steps)).Finished? && W.Run(p, W.Fifo(steps)).p.counter == counter
  }

  lemma {:induction false} RaceKeepsOwner(p: W.Prog, n: nat, picks: seq<nat>)
    requires RaceProgram.Unsafe(p, n) && W.Run(p, picks) != Stopped
    ensures W.Run(p, picks).p.owner == None
    ensures W.Run(p, picks).Finished? ==> W.Run(p, picks).p.k.live == 0
    decreases |picks|
  {
    hide W.Good, W.Step, W.Sized, RaceProgram.Unsafe;
    RaceProgram.UnsafeFacts(p, n);
    if picks != [] {
      RaceProgram.StepKeepsUnsafe(p, n, picks[0]);
      W.StepKeeps(p, picks[0]);
      if W.Step(p, picks[0]).Next? {
        RaceKeepsOwner(W.Step(p, picks[0]).p, n, picks[1..]);
      }
    }
  }

  lemma RecycledIsGood(p: W.Prog)
    requires W.Good(p) && W.Over(p) && p.owner == None && p.k.live == 0 && |p.k.state| > 0 && |p.k.waits| == 1
    ensures Scheduler.Recycle(p.k).waits[0 := []] == Scheduler.Recycle(p.k).waits
    ensures W.Good(p.(k := Scheduler.Recycle(p.k), pc := [p.pc[0]] + seq(|p.pc| - 1, _ => W.Idle), counter := 0))
  {
    hide Inv;
    RunningFacts(p.k);
    Recycled(p.k);
  }

  lemma Recycled(s: Sys)
    requires Inv(s) && s.tp == 0 && s.live == 0 && |s.waits| == 1
    ensures |s.state| > 0 && Inv(Scheduler.Recycle(s)) && s.waits[0] == []
  {
    RecyclingIsSafe(s);
  }

  lemma OneStep(q: W.Prog)
    requires W.Sized(q)
    ensures W.Run(q, [0]) == W.Step(q, 0)
  {
  }

  lemma CountSpawned(pc: seq<W.Pc>, n: nat, start: W.Pc)
    requires n < |pc| && pc[0] == W.MainLoop && W.IsWorker(start) == 1
    requires forall i | 1 <= i < |pc| :: pc[i] == if i <= n then start else W.Idle
    ensures Sum(W.IsWorker, pc) == n
    decreases n
  {
    if n == 0 {
      SumConstant(W.IsWorker, pc, 0);
    } else {
      var before := pc[n := W.Idle];
      CountSpawned(before, n - 1, start);
      SumUpdate(W.IsWorker, before, n, start);
      assert before[n := start] == pc;
    }
  }

  /** A slot without code is unused, so the next spawn succeeds. */
  lemma IdleSlotIsFree(p: W.Prog, i: nat)
    requires W.Good(p) && 1 <= i < |p.pc| && p.pc[i] == W.Idle
    ensures |p.k.state| > 0 && Spawn(p.k).Some?
  {
    hide Inv;
  }

  lemma SpawnIsGood(p: W.Prog, start: W.Pc)
    requires W.Good(p) && |p.k.state| > 0 && Spawn(p.k).Some? && (start == W.Load || start == W.Acquire)
    ensures var i := FreeSlot(p.k.state, 1);
            && 1 <= i < |p.pc| && p.pc[i] == W.Idle && (forall j | 1 <= j < i :: p.pc[j] != W.Idle)
            && W.Good(p.(k := Spawn(p.k).value, pc := p.pc[i := start]))
  {
    hide Inv, FreeSlot, W.Shape, W.Locking;
    FreeSlotIsIdle(p);
    var i := FreeSlot(p.k.state, 1);
    SpawnKeepsInv(p.k);
    OccupyKeepsShape(p, i, start);
    OccupyKeepsLocking(p, i, start);
  }

  lemma FreeSlotIsIdle(p: W.Prog)
    requires W.Shape(p) && |p.k.state| > 0 && Spawn(p.k).Some?
    ensures var i := FreeSlot(p.k.state, 1);
            && 1 <= i < |p.pc| && p.pc[i] == W.Idle && (forall j | 1 <= j < i :: p.pc[j] != W.Idle)
            && |p.pc| == |p.k.state| && p.k.state[i] == Unused && Inv(p.k)
  {
    hide Inv;
  }

  lemma OccupyKeepsShape(p: W.Prog, i: nat, start: W.Pc)
    requires W.Shape(p) && 1 <= i < |p.k.state| && p.k.state[i] == Unused && (start == W.Load || start == W.Acquire)
    requires Inv(Occupy(p.k, i))
    ensures W.Shape(p.(k := Occupy(p.k, i), pc := p.pc[i := start]))
  {
    hide Inv;
  }

  lemma OccupyKeepsLocking(p: W.Prog, i: nat, start: W.Pc)
    requires W.Locking(p) && 1 <= i < |p.k.state| == |p.pc| && p.pc[i] == W.Idle
    requires start == W.Load || start == W.Acquire
    ensures W.Locking(p.(k := Occupy(p.k, i), pc := p.pc[i := start]))
  {
  }

  lemma SpawnKeepsInv(s: Sys)
    requires Inv(s) && Spawn(s).Some?
    ensures Inv(Spawn(s).value)
  {
    SpawnKeeps(s);
  }

  lemma FreshIsGood(p: W.Prog, slots: nat)
    requires 0 < slots <= U64 && p.k == FreshSys(slots, 1) && p.owner == None
    requires p.pc == [W.MainLoop] + seq(slots - 1, _ => W.Idle) && |p.v| == slots
    ensures W.Good(p)
  {
    FreshInv(slots, 1);
    hide Inv;
  }
}
