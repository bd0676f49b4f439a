/** lab17_main on the linked kernel structures. */
module Lab17Main {
  import opened Util
  import opened Scheduler
  import opened ThreadKernel
  import L = Lifecycle

  /** The globals of lab 17 besides the scheduler's, and the `rounds` local of each worker. */
  class Machine {
    const kernel: Kernel
    const waiter: nat
    var left: seq<nat>
    var eventReady: bool

    ghost function View(): L.Prog
      reads this, kernel
    {
      L.Prog(kernel.view, left, eventReady, waiter)
    }

    ghost predicate Coupled()
      reads this, kernel
    {
      && |kernel.threads| == |left| == |kernel.view.state| && 0 < waiter < |left|
      && kernel.tp.slot == kernel.view.tp < |left| && kernel.tp == kernel.threads[kernel.tp.slot]
      && |kernel.conditions| == |kernel.view.waits| == 1 && kernel.lab == Lab17
    }

    ghost predicate Valid()
      reads this, kernel, kernel.ready, kernel.conditions, kernel.threads
    {
      kernel.Repr() && L.Good(View()) && Coupled()
    }

    constructor (slots: nat, waiter: nat, stacks: nat, threadSetup: nat)
      requires 0 < waiter < slots <= U64
      ensures Valid() && fresh(kernel) && fresh(kernel.ready) && fresh(kernel.conditions) && fresh(kernel.threads)
      ensures kernel.view == FreshSys(slots, 1) && !eventReady && |left| == slots && this.waiter == waiter
    {
      kernel := new Kernel(Lab17, slots, 1, stacks, threadSetup);
      left := seq(slots, _ => 0);
      eventReady := false;
      this.waiter := waiter;
      new;
      FreshIsGood(View(), slots);
    }

    /** What every kernel call leaves of the table, and what its fields say. */
    lemma AfterCall()
      requires kernel.Repr()
      ensures |kernel.threads| == |kernel.view.state| && |kernel.conditions| == |kernel.view.waits|
      ensures kernel.tp.slot == kernel.view.tp < |kernel.threads| && kernel.tp == kernel.threads[kernel.tp.slot]
      ensures kernel.liveWorkers == kernel.view.live
      ensures forall i | 0 <= i < |kernel.threads| :: kernel.threads[i].state == kernel.view.state[i]
    {
    }

    /** Main's loop body: signal the event once the waiter sleeps, then yield. */
    method MainTurn() returns (end: StepEnd)
      requires Valid() && kernel.tp.slot == 0 && kernel.liveWorkers != 0
      modifies this, kernel, kernel.ready, kernel.conditions, kernel.threads
      ensures Valid() && L.Step(old(View())) == Next(View()) && end == Ran
    {
      hide L.Good, Kernel.Repr, Inv, Yield, Broadcast;
      AfterCall();
      ghost var p := View();
      ghost var q := L.MainSwitch(p);
      L.SignalFacts(p);
      GoodInv(p);
      GoodInv(L.Signal(p));
      if !eventReady && kernel.threads[waiter].state == Waiting {
        eventReady := true;
        kernel.ConditionBroadcast(0);
      }
      assert View() == L.Signal(p);
      var _ := kernel.ThreadYield();
      AfterCall();
      assert Resume(Yield(L.Signal(p).k, 0), k => L.Signal(p).(k := k)) == Next(View());
      end := Ran;
    }

    /** A worker's loop head or the waiter's. */
    method ThreadTurn() returns (end: StepEnd)
      requires Valid() && kernel.tp.slot != 0
      modifies this, kernel, kernel.ready, kernel.conditions, kernel.threads
      ensures Valid() && L.Step(old(View())) == Next(View()) && end == Ran
    {
      hide L.Good, Kernel.Repr, Inv, Yield, Exit, Wait, Broadcast, L.Switch;
      ghost var p := View();
      L.GoodFacts(p);
      ghost var st, requeue := L.WorkerSwitch(p);
      GoodInv(p);
      var t := kernel.tp.slot;
      if t == waiter && !eventReady {
        var _ := kernel.ConditionWait(0);
      } else if t == waiter || left[t] == 0 {
        var _ := kernel.ThreadExit();
      } else {
        left := left[t := left[t] - 1];
        var _ := kernel.ThreadYield();
      }
      AfterCall();
      end := Ran;
    }

    /** Run the current thread up to its next switch. */
    method Step() returns (end: StepEnd)
      requires Valid()
      modifies this, kernel, kernel.ready, kernel.conditions, kernel.threads
      ensures Valid() && L.Sized(old(View()))
      ensures match L.Step(old(View()))
              case Next(q) => end == Ran && View() == q
              case Finished(q) => end == WorkersDone && View() == q
              case Stopped => false
    {
      hide L.Good, Kernel.Repr, Inv, Yield, Exit, Wait, Broadcast, L.Switch;
      AfterCall();
      L.GoodFacts(View());
      if kernel.tp.slot != 0 {
        end := ThreadTurn();
      } else if kernel.liveWorkers == 0 {
        end := WorkersDone;
      } else {
        end := MainTurn();
      }
    }

    /** Slots 1 to j are spawned and nothing has run. */
    ghost predicate Spawned(j: nat)
      reads this, kernel
    {
      var k := kernel.view;
      && k.tp == 0 && !eventReady && k.ready == L.Slots(j) && j < |k.state| && |k.dispatched| == |k.state|
      && (forall i | 1 <= i < |k.state| :: k.state[i] == if i <= j then Ready else Unused)
      && (forall i | 0 <= i < |k.state| :: k.dispatched[i] == 0)
    }

    /** thread_spawn of the thread for slot j + 1, with its rounds as argument. */
    method SpawnNext(ghost j: nat, fn: nat, rounds: nat)
      requires Valid() && Spawned(j) && j + 1 < |left|
      modifies this, kernel, kernel.ready, kernel.threads
      ensures Valid() && Spawned(j + 1) && left == old(left)[j + 1 := rounds]
      ensures kernel.threads[j + 1].Prepared() == kernel.PreparedFor(j + 1, fn, rounds)
      ensures forall i | 0 <= i <= j :: kernel.threads[i].Prepared() == old(kernel.threads[i].Prepared())
    {
      hide L.Good, Kernel.Repr, Inv;
      ghost var p := View();
      GoodInv(p);
      SpawnIsGood(p, j, rounds);
      var i := kernel.ThreadSpawn(fn, rounds);
      AfterCall();
      left := left[i := rounds];
    }

    /** The spawns of lab17_main: the workers in order, then the waiter. */
    method SpawnAll(rounds: seq<nat>, workerFn: nat, waiterFn: nat)
      requires Valid() && Spawned(0) && waiter == |rounds| + 1
      modifies this, kernel, kernel.ready, kernel.threads
      ensures Valid() && L.Start(View(), rounds)
      ensures forall i | 1 <= i <= |rounds| ::
                kernel.threads[i].Prepared() == kernel.PreparedFor(i, workerFn, rounds[i - 1])
      ensures kernel.threads[waiter].Prepared() == kernel.PreparedFor(waiter, waiterFn, 0)
    {
      hide L.Good, Kernel.Repr;
      var j := 0;
      while j < |rounds|
        invariant j <= |rounds| && Valid() && Spawned(j)
        invariant forall i | 1 <= i <= j :: left[i] == rounds[i - 1]
        invariant forall i | 1 <= i <= j ::
                    kernel.threads[i].Prepared() == kernel.PreparedFor(i, workerFn, rounds[i - 1])
      {
        SpawnNext(j, workerFn, rounds[j]);
        j := j + 1;
      }
      SpawnNext(j, waiterFn, 0);
      L.GoodFacts(View());
    }

    /** The loop of lab17_main, with everything that the other threads do meanwhile. */
    method RunAll(ghost rounds: seq<nat>)
      requires Valid() && L.Start(View(), rounds)
      modifies this, kernel, kernel.ready, kernel.conditions, kernel.threads
      ensures Valid() && kernel.switchCount == L.SwitchTotal(rounds) % U64
    {
      hide L.Good, Kernel.Repr, Inv, L.Step, L.Sized, L.Start;
      ghost var p := View();
      ghost var n := L.ExactSwitchCount(p, rounds);
      ghost var m := n;
      var end := Ran;
      while end == Ran
        invariant Valid() && end != MachineHalted
        invariant L.Run(p, n) == if end == Ran then L.Run(View(), m) else Finished(View())
        decreases end == Ran, m
      {
        ghost var q := View();
        end := Step();
        m := if m > 0 then m - 1 else 0;
      }
      CountedSwitches();
    }

    lemma CountedSwitches()
      requires kernel.Repr() && kernel.lab == Lab17
      ensures kernel.switchCount == Sum(Identity, kernel.view.dispatched) % U64
    {
    }
  }

  datatype Verdict = Pass | TooFewSwitches

  /** lab17_main with any workers: it ends, with exactly the predicted count. */
  method Main17(slots: nat, rounds: seq<nat>, stacks: nat, threadSetup: nat, workerFn: nat, waiterFn: nat)
    returns (switchCount: nat, verdict: Verdict)
    requires |rounds| + 1 < slots <= U64
    ensures switchCount == L.SwitchTotal(rounds) % U64
    ensures verdict == Pass <==> switchCount >= 10
    ensures rounds == [3, 2, 1] ==> switchCount == 15 && verdict == Pass
  {
    hide L.Good, Kernel.Repr, Inv;
    var m := new Machine(slots, |rounds| + 1, stacks, threadSetup);
    m.SpawnAll(rounds, workerFn, waiterFn);
    m.RunAll(rounds);
    L.LabInstance();
    switchCount := m.kernel.switchCount;
    verdict := if switchCount < 10 then TooFewSwitches else Pass;
  }

  lemma SpawnIsGood(p: L.Prog, j: nat, rounds: nat)
    requires L.Good(p) && p.k.tp == 0 && p.k.ready == L.Slots(j) && j + 1 < |p.k.state|
    requires forall i | 1 <= i < |p.k.state| :: p.k.state[i] == if i <= j then Ready else Unused
    ensures Spawn(p.k) == Some(Occupy(p.k, j + 1)) && FreeSlot(p.k.state, 1) == j + 1
    ensures L.Good(p.(k := Occupy(p.k, j + 1), left := p.left[j + 1 := rounds]))
    ensures Occupy(p.k, j + 1).ready == L.Slots(j + 1)
  {
    hide Inv;
    SpawnInv(p.k);
    assert p.k.state[j + 1] == Unused;
  }

  lemma SpawnInv(s: Sys)
    requires Inv(s)
    ensures |s.state| > 0 && (Spawn(s).Some? ==> Inv(Spawn(s).value))
  {
    if Spawn(s).Some? {
      SpawnKeeps(s);
    }
  }

  lemma GoodInv(p: L.Prog)
    requires L.Good(p)
    ensures Inv(p.k) && (p.k.tp != 0 ==> p.k.ready != [])
  {
    L.GoodStates(p);
    if p.k.tp != 0 {
      assert 0 in p.k.ready;
    }
  }

  lemma FreshIsGood(p: L.Prog, slots: nat)
    requires 0 < slots <= U64 && p.k == FreshSys(slots, 1) && |p.left| == slots && 0 < p.waiter < slots
    ensures L.Good(p)
  {
    FreshInv(slots, 1);
    hide Inv;
  }
}
