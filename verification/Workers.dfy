/** The threads of lab 18 as a machine that executes one C statement group at a time: main in
    wait_workers, and any number of unsafe_worker and safe_worker threads. */
module Workers {
  import opened Util
  import opened Scheduler

  /** Where a thread is in its code. A worker that returns runs thread_exit from the trampoline. */
  datatype Pc =
    | MainLoop                 // while (live_workers) thread_yield();
    | Load | Yield | Store     // unsafe_worker: v = counter; thread_yield(); counter = v + 1;
    | Acquire                  // lock_acquire: while (owner) condition_wait(); owner = current();
    | LockedLoad | LockedYield | LockedStore
    | Release                  // lock_release: check owner; owner = 0; condition_broadcast();
    | Exit                     // thread_exit()
    | Done                     // exited
    | Idle                     // the slot was never spawned

  /** Condition 0 is counter_lock.released. */
  datatype Prog = Prog(k: Sys, pc: seq<Pc>, v: seq<nat>, owner: Option<nat>, counter: nat)

  predicate Sized(p: Prog) {
    && Bounded(p.k) && |p.pc| == |p.v| == |p.k.state| && |p.k.waits| == 1
    && forall j | 0 <= j < |p.k.waits[0]| :: p.k.waits[0][j] < |p.k.state|
  }

  function Goto(p: Prog, pc: Pc): Prog
    requires p.k.tp < |p.pc|
  {
    p.(pc := p.pc[p.k.tp := pc])
  }

  /** Execute the running thread's next statement; `pick` says which queue position the scheduler
      serves if that statement switches. The kernel serves position 0. */
  function Step(p: Prog, pick: nat): Result<Prog>
    requires Sized(p)
  {
    var t := p.k.tp;
    match p.pc[t]
    case MainLoop => if p.k.live == 0 then Finished(p) else Resume(Scheduler.Yield(p.k, pick), k => p.(k := k))
    case Load => Next(Goto(p.(v := p.v[t := p.counter]), Yield))
    case Yield => Resume(Scheduler.Yield(p.k, pick), k => Goto(p, Store).(k := k))
    case Store => Next(Goto(p.(counter := (p.v[t] + 1) % U64), Exit))
    case Acquire =>
      if p.owner.Some? then Resume(Wait(p.k, 0, pick), k => p.(k := k))
      else Next(Goto(p.(owner := Some(t)), LockedLoad))
    case LockedLoad => Next(Goto(p.(v := p.v[t := p.counter]), LockedYield))
    case LockedYield => Resume(Scheduler.Yield(p.k, pick), k => Goto(p, LockedStore).(k := k))
    case LockedStore => Next(Goto(p.(counter := (p.v[t] + 1) % U64), Release))
    case Release =>
      if p.owner != Some(t) then Stopped
      else Next(Goto(p.(owner := None, k := Broadcast(p.k, 0)), Exit))
    case Exit => Resume(Scheduler.Exit(p.k, pick), k => Goto(p, Done).(k := k))
    case Done => Stopped
    case Idle => Stopped
  }

  // ------------------------------------------------------------------ invariant

  /** Between taking the lock and giving it back. */
  predicate Critical(pc: Pc) {
    pc == LockedLoad || pc == LockedYield || pc == LockedStore || pc == Release
  }

  /** What every mix of safe and unsafe workers keeps, under every scheduling choice. */
  ghost predicate Shape(p: Prog) {
    && Inv(p.k) && |p.pc| == |p.v| == |p.k.state| && |p.k.waits| == 1
    && p.pc[0] == MainLoop && (p.k.state[0] == Ready || p.k.state[0] == Running)
    && (forall i | 1 <= i < |p.pc| ::
          && p.pc[i] != MainLoop
          && (p.pc[i] == Idle <==> p.k.state[i] == Unused)
          && (p.pc[i] == Done <==> p.k.state[i] == Exited)
          && (p.k.state[i] == Waiting ==> p.pc[i] == Acquire))
  }

  /** The owner is exactly the one thread in the critical section; nobody waits without one. */
  ghost predicate Locking(p: Prog) {
    && (p.owner.Some? ==> 1 <= p.owner.value < |p.pc|)
    && (forall i | 0 <= i < |p.pc| :: Critical(p.pc[i]) <==> p.owner == Some(i))
    && (p.owner == None ==> forall i | 0 <= i < |p.k.state| :: p.k.state[i] != Waiting)
  }

  ghost predicate Good(p: Prog) {
    Shape(p) && Locking(p)
  }

  lemma GoodIsSized(p: Prog)
    requires Good(p)
    ensures Sized(p)
  {
    assert WaitList(p.k, 0);
  }

  /** A worker that waits has somebody to wake it: the owner, who is READY or RUNNING. */
  lemma NoLostWakeup(p: Prog)
    requires Good(p) && p.k.waits[0] != []
    ensures p.owner.Some? && 1 <= p.owner.value < |p.k.state|
    ensures p.k.state[p.owner.value] == Ready || p.k.state[p.owner.value] == Running
    ensures forall j | 0 <= j < |p.k.waits[0]| :: p.pc[p.k.waits[0][j]] == Acquire
  {
    assert WaitList(p.k, 0);
    assert p.k.state[p.k.waits[0][0]] == Waiting;
  }

  /** Main is READY whenever a worker runs, so the ready queue is not empty then. */
  lemma MainIsQueued(p: Prog)
    requires Good(p) && p.k.tp != 0
    ensures p.k.ready != []
  {
    assert 0 in p.k.ready;
  }

  // ------------------------------------------------------------------ every step keeps it

  lemma SwitchingStepIsGood(p: Prog, pc: Pc, k: Sys, st: ThreadState)
    requires Good(p) && Moved(p.k, k, st) && p.k.tp < |p.pc|
    requires p.k.tp == 0 ==> pc == MainLoop && st == Ready
    requires p.k.tp != 0 ==> pc != MainLoop && pc != Idle && (pc == Done <==> st == Exited)
    requires st == Waiting ==> pc == Acquire && p.owner.Some?
    requires st == Ready || st == Waiting || st == Exited
    requires Critical(pc) <==> Critical(p.pc[p.k.tp])
    ensures Good(Goto(p, pc).(k := k))
  {
    hide Inv;
  }

  predicate Switching(p: Prog)
    requires p.k.tp < |p.pc|
  {
    var pc := p.pc[p.k.tp];
    pc == MainLoop || pc == Yield || pc == LockedYield || pc == Exit || (pc == Acquire && p.owner.Some?)
  }

  lemma PcFacts(p: Prog)
    requires Good(p)
    ensures var pc := p.pc[p.k.tp];
            && Inv(p.k) && Sized(p)
            && (pc == MainLoop <==> p.k.tp == 0)
            && pc != Done && pc != Idle
            && (Critical(pc) <==> p.owner == Some(p.k.tp))
    ensures p.k.tp != 0 ==> p.k.ready != []
  {
    GoodIsSized(p);
    RunningFacts(p.k);
    if p.k.tp != 0 {
      MainIsQueued(p);
    }
    hide Inv;
  }

  lemma SwitchingStepKeeps(p: Prog, pick: nat)
    requires Good(p) && Switching(p)
    ensures Sized(p) && Step(p, pick) != Stopped
    ensures Step(p, pick).Next? ==> Good(Step(p, pick).p)
    ensures Step(p, pick) == Finished(p) <==> p.k.tp == 0 && p.k.live == 0
    ensures Step(p, pick).Finished? ==> Step(p, pick) == Finished(p)
  {
    hide Inv, Good, Moved, Scheduler.Yield, Scheduler.Exit, Wait;
    PcFacts(p);
    var pc := p.pc[p.k.tp];
    if pc == Exit {
      ExitMoves(p.k, pick);
      SwitchingStepIsGood(p, Done, Scheduler.Exit(p.k, pick).sys, Exited);
    } else if pc == Acquire {
      assert Goto(p, Acquire) == p;
      WaitMoves(p.k, pick);
      SwitchingStepIsGood(p, Acquire, Wait(p.k, 0, pick).sys, Waiting);
    } else {
      YieldMoves(p.k, pick);
      var to := if pc == MainLoop then MainLoop else if pc == Yield then Store else LockedStore;
      assert pc == MainLoop ==> Goto(p, MainLoop) == p;
      SwitchingStepIsGood(p, to, Scheduler.Yield(p.k, pick).sys, Ready);
    }
  }

  lemma ReleaseKeeps(p: Prog)
    requires Good(p) && p.pc[p.k.tp] == Release
    ensures Sized(p) && p.owner == Some(p.k.tp)
    ensures Good(Goto(p.(owner := None, k := Broadcast(p.k, 0)), Exit))
  {
    hide Inv, Broadcast;
    PcFacts(p);
    BroadcastEffect(p.k);
  }

  lemma SilentStepKeeps(p: Prog, pick: nat)
    requires Good(p) && !Switching(p) && p.pc[p.k.tp] != Release
    ensures Sized(p) && Step(p, pick).Next? && Good(Step(p, pick).p) && p.k.tp != 0
  {
    hide Inv;
    PcFacts(p);
  }

  lemma StoreStep(p: Prog, pick: nat)
    requires Sized(p) && (p.pc[p.k.tp] == Store || p.pc[p.k.tp] == LockedStore)
    ensures Step(p, pick) ==
            Next(p.(counter := (p.v[p.k.tp] + 1) % U64,
                    pc := p.pc[p.k.tp := if p.pc[p.k.tp] == Store then Exit else Release]))
  {
  }

  lemma LoadStep(p: Prog, pick: nat)
    requires Sized(p) && (p.pc[p.k.tp] == Load || p.pc[p.k.tp] == LockedLoad)
    ensures Step(p, pick) ==
            Next(p.(v := p.v[p.k.tp := p.counter],
                    pc := p.pc[p.k.tp := if p.pc[p.k.tp] == Load then Yield else LockedYield]))
  {
  }

  /** No step of any worker, under any choice of next thread, reaches a halt ("no runnable thread",
      "non-owner release", or code after thread_exit), and every step keeps the invariant. */
  lemma StepKeeps(p: Prog, pick: nat)
    requires Good(p)
    ensures Sized(p) && Step(p, pick) != Stopped
    ensures Step(p, pick).Next? ==> Good(Step(p, pick).p)
    ensures Step(p, pick) == Finished(p) <==> p.k.tp == 0 && p.k.live == 0
    ensures Step(p, pick).Finished? ==> Step(p, pick) == Finished(p)
  {
    hide Inv, Good;
    PcFacts(p);
    if Switching(p) {
      SwitchingStepKeeps(p, pick);
    } else if p.pc[p.k.tp] == Release {
      ReleaseKeeps(p);
    } else {
      SilentStepKeeps(p, pick);
    }
  }

  // ------------------------------------------------------------------ what the statements do

  /** The queue with the running thread in front of it: who runs now and in which order the others will. */
  function Line(p: Prog): seq<nat> {
    [p.k.tp] + p.k.ready
  }

  /** lock_acquire on a taken lock: whatever the scheduler picks, the thread falls asleep at the end of the
      lock's wait list, leaves the queue, and another one runs. */
  lemma BlockedWorkerSleeps(p: Prog, pick: nat)
    requires Good(p) && p.pc[p.k.tp] == Acquire && p.owner.Some?
    ensures Sized(p) && Step(p, pick).Next? && Step(p, 0).Next?
    ensures var q := Step(p, pick).p; var t := p.k.tp;
            && q.k.waits == [p.k.waits[0] + [t]] && t < |q.k.state| && q.k.state[t] == Waiting
            && q.k.tp != t && t !in q.k.ready && q.pc == p.pc && q.owner == p.owner
    ensures Line(Step(p, 0).p) == p.k.ready
  {
    hide Inv, Good, Moved, Wait;
    PcFacts(p);
    GoodLists(p);
    WaitMoves(p.k, pick);
    WaitDrops(p.k, 0);
    SleeperIsListed(p.k, pick);
  }

  lemma GoodLists(p: Prog)
    requires Good(p)
    ensures |p.k.waits| == 1 && p.k.tp < |p.pc|
  {
  }

  lemma SleeperIsListed(s: Sys, pick: nat)
    requires Inv(s) && |s.waits| == 1 && s.ready != []
    ensures Wait(s, 0, pick).Switched?
    ensures var k := Wait(s, 0, pick).sys;
            && k.waits == [s.waits[0] + [s.tp]] && k.tp != s.tp && s.tp < |k.state|
            && k.state[s.tp] == Waiting && s.tp !in k.ready
  {
    hide Wait, Inv;
    WaitMoves(s, pick);
    RunningFacts(s);
    RunningFacts(Wait(s, 0, pick).sys);
    SleepLists(s, pick);
  }

  lemma SleepLists(s: Sys, pick: nat)
    requires Bounded(s) && |s.waits| == 1 && s.ready != []
    ensures Wait(s, 0, pick).Switched? && Wait(s, 0, pick).sys.waits == [s.waits[0] + [s.tp]]
  {
  }

  /** The yields of main and of the workers, also inside the critical section: under the kernel's own choice
      the thread goes to the end of the queue and its head runs. */
  lemma YieldGoesBehind(p: Prog)
    requires Good(p) && (p.pc[p.k.tp] == Yield || p.pc[p.k.tp] == LockedYield || (p.k.tp == 0 && p.k.live != 0))
    ensures Sized(p) && Step(p, 0).Next?
    ensures var q := Step(p, 0).p;
            Line(q) == p.k.ready + [p.k.tp] && q.k.tp != p.k.tp && q.k.waits == p.k.waits && q.owner == p.owner
  {
    hide Inv, Good, Scheduler.Yield;
    PcFacts(p);
    RunningFacts(p.k);
    YieldRotates(p.k);
    if p.k.tp == 0 {
      MainHasCompany(p);
    }
    assert (p.k.ready + [p.k.tp])[0] == p.k.ready[0];
    YieldLists(p.k);
  }

  lemma YieldLists(s: Sys)
    requires Bounded(s)
    ensures Scheduler.Yield(s, 0).Switched? && Scheduler.Yield(s, 0).sys.waits == s.waits
  {
  }

  /** While a worker is live and main runs, somebody is queued: whoever waits has an owner to wait for. */
  lemma MainHasCompany(p: Prog)
    requires Good(p) && p.k.tp == 0 && p.k.live != 0
    ensures p.k.ready != []
  {
    RecyclingIsSafe(p.k);
    if p.owner.Some? {
      assert Critical(p.pc[p.owner.value]);
      assert p.owner.value in p.k.ready;
    }
  }

  /** thread_exit of a worker: it is gone from the queue, and its head runs. */
  lemma ExitLeaves(p: Prog)
    requires Good(p) && p.pc[p.k.tp] == Exit
    ensures Sized(p) && Step(p, 0).Next?
    ensures var q := Step(p, 0).p; Line(q) == p.k.ready && q.k.waits == p.k.waits && q.owner == p.owner
  {
    hide Inv, Good, Scheduler.Exit;
    PcFacts(p);
    ExitDrops(p.k);
    ExitLists(p.k);
  }

  lemma ExitLists(s: Sys)
    requires Bounded(s) && s.ready != []
    ensures Scheduler.Exit(s, 0).Switched? && Scheduler.Exit(s, 0).sys.waits == s.waits
  {
  }

  /** lock_release: the lock is free, and all who wait for it are queued behind the others; the releaser
      runs on. */
  lemma ReleaseWakes(p: Prog, pick: nat)
    requires Good(p) && p.pc[p.k.tp] == Release
    ensures Sized(p) && Step(p, pick).Next?
    ensures var q := Step(p, pick).p;
            && q.owner == None && q.k.tp == p.k.tp && q.k.ready == p.k.ready + p.k.waits[0] && q.k.waits == [[]]
            && q.k.dispatched == p.k.dispatched
  {
    hide Inv, Good;
    PcFacts(p);
    GoodLists(p);
    BroadcastShape(p.k, 0);
  }

  /** All other statements leave the scheduler alone. */
  lemma OthersStay(p: Prog, pick: nat)
    requires Good(p) && !Switching(p) && p.pc[p.k.tp] != Release
    ensures Sized(p) && Step(p, pick).Next? && Step(p, pick).p.k == p.k
  {
    hide Inv, Good;
    PcFacts(p);
    SilentStepKeeps(p, pick);
  }

  /** When the machine stops: code runs on after thread_exit or in a slot without code, a thread releases a
      lock that it does not own, or a thread that cannot go on finds the queue empty. (A yield queues its
      own thread first.) StepKeeps shows that none of these is reachable. */
  lemma StopsIff(p: Prog, pick: nat)
    requires Sized(p)
    ensures Step(p, pick) == Stopped <==>
            var pc := p.pc[p.k.tp];
            || pc == Done || pc == Idle || (pc == Release && p.owner != Some(p.k.tp))
            || (p.k.ready == [] && (pc == Exit || (pc == Acquire && p.owner.Some?)))
  {
  }

  // ------------------------------------------------------------------ runs

  /** The program executed for at most |picks| steps, with one scheduling choice for each. */
  function Run(p: Prog, picks: seq<nat>): Result<Prog>
    decreases |picks|
  {
    if picks == [] then Next(p)
    else if !Sized(p) then Stopped
    else
      match Step(p, picks[0])
      case Next(q) => Run(q, picks[1..])
      case Finished(q) => Finished(q)
      case Stopped => Stopped
  }

  /** The kernel's own choice: always the head of the ready queue. */
  function Fifo(n: nat): (r: seq<nat>)
    ensures |r| == n && forall i | 0 <= i < n :: r[i] == 0
  {
    seq(n, _ => 0)
  }

  /** No run deadlocks or halts, whatever the scheduling choices. */
  lemma {:induction false} RunKeeps(p: Prog, picks: seq<nat>)
    requires Good(p)
    ensures Run(p, picks) != Stopped && Good(Run(p, picks).p)
    ensures Run(p, picks).Finished? ==> Over(Run(p, picks).p)
    decreases |picks|
  {
    hide Good, Step, Sized, Over;
    if picks != [] {
      StepKeeps(p, picks[0]);
      if Step(p, picks[0]).Next? {
        RunKeeps(Step(p, picks[0]).p, picks[1..]);
      } else {
        FinishedIsOver(p);
      }
    }
  }

  lemma {:induction false} RunAppend(p: Prog, a: seq<nat>, b: seq<nat>)
    requires Run(p, a).Next?
    ensures Run(p, a + b) == Run(Run(p, a).p, b)
    decreases |a|
  {
    hide Step, Sized;
    if a == [] {
      assert a + b == b;
    } else {
      assert (a + b)[1..] == a[1..] + b;
      RunAppend(Step(p, a[0]).p, a[1..], b);
    }
  }

  /** Main has seen live_workers at zero. */
  ghost predicate Over(p: Prog) {
    && p.k.tp == 0 && p.k.ready == []
    && forall i | 1 <= i < |p.pc| :: p.pc[i] == Done || p.pc[i] == Idle
  }

  lemma FinishedIsOver(p: Prog)
    requires Good(p) && p.k.tp == 0 && p.k.live == 0
    ensures Over(p)
  {
    RecyclingIsSafe(p.k);
    hide Inv;
    forall i | 1 <= i < |p.pc| ensures p.pc[i] == Done || p.pc[i] == Idle {
      assert IsLive(p.k.state[i]) == 0;
    }
  }

  // ------------------------------------------------------------------ termination under FIFO

  function Rank(pc: Pc): nat {
    match pc
    case MainLoop => 0
    case Idle => 0
    case Done => 0
    case Exit => 1
    case Store => 2
    case Yield => 3
    case Load => 4
    case Release => 2
    case LockedStore => 3
    case LockedYield => 4
    case LockedLoad => 5
    case Acquire => 6
  }

  /** The statements the workers still have to execute. */
  function Work(p: Prog): nat {
    Sum(Rank, p.pc)
  }

  /** The running thread is main, or a worker that finds the lock taken. */
  predicate Blocked(p: Prog)
    requires p.k.tp < |p.pc|
  {
    p.pc[p.k.tp] == MainLoop || (p.pc[p.k.tp] == Acquire && p.owner.Some?)
  }

  function Position(q: seq<nat>, i: nat): nat {
    if q == [] || q[0] == i then 0 else 1 + Position(q[1..], i)
  }

  /** How many switches lie before the next thread that can execute a statement of its own: the
      owner's place in the queue, or the head of the queue when the lock is free. */
  function Distance(p: Prog): nat
    requires p.k.tp < |p.pc|
  {
    if !Blocked(p) then 0
    else if p.owner.Some? then 1 + Position(p.k.ready, p.owner.value)
    else 1
  }

  lemma {:induction false} PositionShifts(q: seq<nat>, tail: seq<nat>, i: nat)
    requires i in q
    ensures Position(q, i) < |q| && q[Position(q, i)] == i
    ensures Position(q + tail, i) == Position(q, i)
  {
    if q[0] != i {
      assert (q + tail)[1..] == q[1..] + tail;
      PositionShifts(q[1..], tail, i);
    }
  }

  /** Who is in the queue when the running thread is blocked. */
  lemma BlockedQueue(p: Prog)
    requires Good(p) && Sized(p) && Blocked(p) && (p.k.tp == 0 ==> p.k.live != 0)
    ensures p.k.ready != [] && p.k.ready[0] != p.k.tp
    ensures p.owner.Some? ==> p.owner.value in p.k.ready
    ensures p.owner == None ==> p.k.ready[0] != 0 && p.pc[p.k.ready[0]] != MainLoop
  {
    hide Sized;
    RunningFacts(p.k);
    if p.owner.Some? {
      assert Critical(p.pc[p.owner.value]);
      assert p.k.state[p.owner.value] == Ready;
    } else {
      RecyclingIsSafe(p.k);
    }
  }

  /** What its switch does to the queue. */
  lemma BlockedSwitch(p: Prog)
    requires Sized(p) && Blocked(p) && Step(p, 0).Next? && p.k.ready != []
    ensures Step(p, 0).p.k.tp == p.k.ready[0] && p.k.ready[1..] <= Step(p, 0).p.k.ready
    ensures Step(p, 0).p.pc == p.pc && Step(p, 0).p.owner == p.owner
  {
    assert Remove(p.k.ready + [p.k.tp], 0) == p.k.ready[1..] + [p.k.tp];
    assert Remove(p.k.ready, 0) == p.k.ready[1..];
  }

  lemma LiveIfNext(p: Prog)
    requires Sized(p) && p.pc[p.k.tp] == MainLoop && Step(p, 0).Next?
    ensures p.k.live != 0
  {
  }

  /** Where a blocked running thread leaves the queue. */
  lemma BlockedStep(p: Prog)
    requires Good(p) && Sized(p) && Blocked(p) && Step(p, 0).Next?
    ensures p.k.ready != [] && Step(p, 0).p.k.tp == p.k.ready[0]
    ensures p.k.ready[0] != p.k.tp
    ensures p.k.ready[1..] <= Step(p, 0).p.k.ready
    ensures Step(p, 0).p.pc == p.pc && Step(p, 0).p.owner == p.owner
    ensures p.owner.Some? ==> p.owner.value in p.k.ready
    ensures p.owner == None ==> p.k.ready[0] != 0 && p.pc[p.k.ready[0]] != MainLoop
  {
    hide Good, Step, Sized;
    PcFacts(p);
    if p.k.tp == 0 {
      LiveIfNext(p);
    }
    BlockedQueue(p);
    BlockedSwitch(p);
  }

  /** The control flow of one thread. */
  function Successor(pc: Pc, blocked: bool): Pc {
    if blocked then pc
    else
      match pc
      case Load => Yield
      case Yield => Store
      case Store => Exit
      case Acquire => LockedLoad
      case LockedLoad => LockedYield
      case LockedYield => LockedStore
      case LockedStore => Release
      case Release => Exit
      case Exit => Done
      case _ => pc
  }

  /** A step moves the running thread along its code and nobody else. */
  lemma StepMovesPc(p: Prog, pick: nat)
    requires Sized(p) && Step(p, pick).Next?
    ensures Step(p, pick).p.pc == p.pc[p.k.tp := Successor(p.pc[p.k.tp], Blocked(p))]
  {
    assert p.pc[p.k.tp := p.pc[p.k.tp]] == p.pc;
    match p.pc[p.k.tp] {
      case MainLoop =>
      case Load =>
      case Yield =>
      case Store =>
      case Acquire =>
      case LockedLoad =>
      case LockedYield =>
      case LockedStore =>
      case Release =>
      case Exit =>
      case Done =>
      case Idle =>
    }
  }

  /** What a step does to the counter, to the locals and to the lock. */
  lemma StepMovesData(p: Prog, pick: nat)
    requires Sized(p) && Step(p, pick).Next?
    ensures var q := Step(p, pick).p;
            var t := p.k.tp;
            && q.v == (if p.pc[t] == Load || p.pc[t] == LockedLoad then p.v[t := p.counter] else p.v)
            && q.counter == (if p.pc[t] == Store || p.pc[t] == LockedStore then (p.v[t] + 1) % U64 else p.counter)
            && q.owner == (if p.pc[t] == Acquire && !Blocked(p) then Some(t)
                           else if p.pc[t] == Release then None else p.owner)
  {
    match p.pc[p.k.tp] {
      case MainLoop =>
      case Load =>
      case Yield =>
      case Store =>
      case Acquire =>
      case LockedLoad =>
      case LockedYield =>
      case LockedStore =>
      case Release =>
      case Exit =>
      case Done =>
      case Idle =>
    }
  }

  /** A thread that is not blocked executes a statement: less work remains. */
  lemma FreeStep(p: Prog, pick: nat)
    requires Good(p) && Sized(p) && !Blocked(p)
    ensures Step(p, pick).Next? && Work(Step(p, pick).p) < Work(p)
  {
    hide Inv, Good, Step;
    PcFacts(p);
    StepKeeps(p, pick);
    StepMovesPc(p, pick);
    var t := p.k.tp;
    SumUpdate(Rank, p.pc, t, Successor(p.pc[t], false));
  }

  /** A blocked thread changes no program point but brings the next unblocked one forward. */
  lemma BlockedStepProgress(p: Prog)
    requires Good(p) && Sized(p) && Blocked(p) && Step(p, 0).Next?
    ensures Good(Step(p, 0).p) && Sized(Step(p, 0).p)
    ensures Work(Step(p, 0).p) == Work(p) && Distance(Step(p, 0).p) < Distance(p)
  {
    hide Inv, Good, Step, Sized;
    BlockedStep(p);
    StepKeeps(p, 0);
    var q := Step(p, 0).p;
    PcFacts(q);
    StepKeeps(q, 0);
    if p.owner.Some? {
      var o := p.owner.value;
      var r := p.k.ready;
      if r[0] != o {
        PositionShifts(r[1..], q.k.ready[|r| - 1..], o);
        PrefixAndRest(r[1..], q.k.ready);
      }
    }
  }

  lemma PrefixAndRest(a: seq<nat>, b: seq<nat>)
    requires a <= b
    ensures b == a + b[|a|..]
  {
  }

  /** Under FIFO scheduling every mix of safe and unsafe workers finishes: the lexicographic
      measure (remaining statements, distance of the next unblocked thread) falls at every step. */
  lemma {:induction false} Terminates(p: Prog) returns (n: nat)
    requires Good(p) && Sized(p)
    ensures Run(p, Fifo(n)).Finished?
    decreases Work(p), Distance(p)
  {
    hide Inv, Good, Step;
    StepKeeps(p, 0);
    if Step(p, 0).Finished? {
      n := 1;
      assert Run(p, Fifo(1)) == Step(p, 0);
    } else {
      var q := Step(p, 0).p;
      StepKeeps(q, 0);
      PcFacts(p);
      if Blocked(p) {
        BlockedStepProgress(p);
      } else {
        FreeStep(p, 0);
      }
      var m := Terminates(q);
      n := m + 1;
      assert Fifo(n)[1..] == Fifo(m);
    }
  }

  // ------------------------------------------------------------------ counting stores

  /** The thread has executed its `shared_counter = v + 1`. */
  function HasStored(pc: Pc): nat {
    if pc == Release || pc == Exit || pc == Done then 1 else 0
  }

  function IsWorker(pc: Pc): nat {
    if pc == MainLoop || pc == Idle then 0 else 1
  }

  /** How many workers were spawned. */
  function Spawned(p: Prog): nat {
    Sum(IsWorker, p.pc)
  }

  lemma StoresFit(pc: seq<Pc>)
    requires 0 < |pc| <= U64 && pc[0] == MainLoop
    ensures Sum(HasStored, pc) < |pc|
  {
    SumAtMost(HasStored, pc[1..], 1);
  }

  lemma GoodSizes(p: Prog)
    requires Good(p)
    ensures p.k.tp < |p.pc| == |p.v| == |p.k.state| <= U64 && p.pc[0] == MainLoop
  {
    PcFacts(p);
  }
}
