/** Lab 18 part B, switch by switch: in which order the kernel dispatches main and n safe workers. */
module LockSchedule {
  import opened Util
  import opened Scheduler
  import opened Workers
  import LockProgram

  /** Under the kernel's own choice n steps lead from p to q; `log` are the threads that are dispatched on
      the way. */
  ghost predicate Ran(p: Prog, n: nat, q: Prog, log: seq<nat>)
    decreases n
  {
    if n == 0 then q == p && log == []
    else
      && Sized(p) && Step(p, 0).Next?
      && var s := Step(p, 0).p;
         if Switching(p) then log != [] && log[0] == s.k.tp && Ran(s, n - 1, q, log[1..])
         else Ran(s, n - 1, q, log)
  }

  lemma {:induction false} RanThen(p: Prog, m: nat, q: Prog, a: seq<nat>, n: nat, r: Prog, b: seq<nat>)
    requires Ran(p, m, q, a) && Ran(q, n, r, b)
    ensures Ran(p, m + n, r, a + b)
    decreases m
  {
    hide Step, Switching;
    if m == 0 {
      assert a + b == b;
    } else if Switching(p) {
      assert (a + b)[1..] == a[1..] + b;
      RanThen(Step(p, 0).p, m - 1, q, a[1..], n, r, b);
    } else {
      RanThen(Step(p, 0).p, m - 1, q, a, n, r, b);
    }
  }

  lemma {:induction false} RanIsRun(p: Prog, n: nat, q: Prog, log: seq<nat>)
    requires Ran(p, n, q, log)
    ensures Run(p, Fifo(n)) == Next(q)
    decreases n
  {
    hide Step;
    if n > 0 {
      assert Fifo(n)[1..] == Fifo(n - 1);
      RanIsRun(Step(p, 0).p, n - 1, q, if Switching(p) then log[1..] else log);
    }
  }

  /** One step behind a run. */
  lemma SwitchBehind(p: Prog, n: nat, q: Prog, log: seq<nat>)
    requires Ran(p, n, q, log) && Sized(q) && Step(q, 0).Next? && Switching(q)
    ensures Ran(p, n + 1, Step(q, 0).p, log + [Step(q, 0).p.k.tp])
  {
    hide Step, Sized;
    var s := Step(q, 0).p;
    assert [s.k.tp][1..] == [];
    assert Ran(s, 0, s, []);
    assert Ran(q, 1, s, [s.k.tp]);
    RanThen(p, n, q, log, 1, s, [s.k.tp]);
  }

  lemma StepBehind(p: Prog, n: nat, q: Prog, log: seq<nat>)
    requires Ran(p, n, q, log) && Sized(q) && Step(q, 0).Next? && !Switching(q)
    ensures Ran(p, n + 1, Step(q, 0).p, log)
  {
    hide Step, Sized;
    var s := Step(q, 0).p;
    assert Ran(s, 0, s, []);
    assert Ran(q, 1, s, []);
    RanThen(p, n, q, log, 1, s, []);
    assert log + [] == log;
  }

  // ------------------------------------------------------------------ the queue is the order of the dispatches

  lemma SwitchTakesHead(p: Prog)
    requires Good(p) && Sized(p) && Step(p, 0).Next? && Switching(p)
    ensures var s := Step(p, 0).p; Good(s) && p.k.ready != [] && s.k.tp == p.k.ready[0] && p.k.ready[1..] <= s.k.ready
  {
    hide Inv, Good, Step, Sized;
    Placed(p);
    PcFacts(p);
    StepKeeps(p, 0);
    var s := Step(p, 0).p;
    var behind := if p.pc[p.k.tp] == Acquire || p.pc[p.k.tp] == Exit then [] else [p.k.tp];
    if p.pc[p.k.tp] == Acquire {
      BlockedWorkerSleeps(p, 0);
    } else if p.pc[p.k.tp] == Exit {
      ExitLeaves(p);
    } else {
      YieldGoesBehind(p);
      if p.k.tp == 0 {
        MainHasCompany(p);
      }
    }
    assert Line(s) == p.k.ready + behind;
    assert s.k.tp == Line(s)[0] && s.k.ready == Line(s)[1..];
  }

  lemma OtherStepKeepsQueue(p: Prog)
    requires Good(p) && Sized(p) && Step(p, 0).Next? && !Switching(p)
    ensures Good(Step(p, 0).p) && p.k.ready <= Step(p, 0).p.k.ready
  {
    hide Inv, Good, Step, Sized;
    StepKeeps(p, 0);
    Placed(p);
    if p.pc[p.k.tp] == Release {
      ReleaseWakes(p, 0);
    } else {
      OthersStay(p, 0);
    }
  }

  /** Threads are dispatched in the order of the queue. */
  lemma {:induction false} QueueOrder(p: Prog, w: seq<nat>, n: nat, q: Prog, log: seq<nat>)
    requires Good(p) && w <= p.k.ready && Ran(p, n, q, log)
    ensures Good(q)
    ensures if |log| <= |w| then log <= w && w[|log|..] <= q.k.ready else w <= log
    decreases n
  {
    hide Good, Step, Sized, Switching;
    if n > 0 {
      Placed(p);
      var s := Step(p, 0).p;
      if Switching(p) {
        SwitchTakesHead(p);
        if w == [] {
          QueueOrder(s, [], n - 1, q, log[1..]);
        } else {
          QueueOrder(s, w[1..], n - 1, q, log[1..]);
          assert log == [log[0]] + log[1..] && w == [w[0]] + w[1..];
        }
      } else {
        OtherStepKeepsQueue(p);
        QueueOrder(s, w, n - 1, q, log);
      }
    }
  }

  lemma LastOfSuffix(w: seq<nat>, k: nat)
    ensures k < |w| ==> w[|w| - 1] in w[k..]
  {
    if k < |w| {
      assert w[k..][|w| - 1 - k] == w[|w| - 1];
    }
  }

  lemma Placed(p: Prog)
    requires Good(p)
    ensures p.k.tp < |p.pc|
  {
  }

  /** A worker that yields between its load and its store gets the processor back only after every thread
      that was queued then has run: the dispatches begin with that queue, and with the worker behind it. */
  lemma OthersRunMeanwhile(p: Prog, n: nat, q: Prog, log: seq<nat>)
    requires Good(p) && p.k.tp < |p.pc| && p.pc[p.k.tp] == LockedYield
    requires Ran(p, n, q, log) && n > 0 && q.k.tp == p.k.tp
    ensures p.k.ready != [] && p.k.tp !in p.k.ready && p.k.ready + [p.k.tp] <= log
  {
    hide Good, Step, Sized, Inv;
    PcFacts(p);
    RunningFacts(p.k);
    YieldGoesBehind(p);
    SwitchTakesHead(p);
    var s := Step(p, 0).p;
    assert Line(s)[1..] == s.k.ready && Line(s)[0] == s.k.tp;
    QueueOrder(s, s.k.ready, n - 1, q, log[1..]);
    LastOfSuffix(s.k.ready, |log| - 1);
    PcFacts(q);
    RunningFacts(q.k);
    assert log == [log[0]] + log[1..];
  }

  // ------------------------------------------------------------------ one worker's turn at the lock

  /** The line, the waiters and the lock. */
  ghost predicate At(p: Prog, line: seq<nat>, sleepers: seq<nat>, owner: Option<nat>, pc: seq<Pc>) {
    Good(p) && Line(p) == line && p.k.waits == [sleepers] && p.owner == owner && p.pc == pc
  }

  ghost predicate AllAt(pc: seq<Pc>, q: seq<nat>, at: Pc) {
    forall k | 0 <= k < |q| :: q[k] < |pc| && pc[q[k]] == at
  }

  lemma LineFacts(p: Prog, line: seq<nat>)
    requires Good(p) && Line(p) == line
    ensures line != [] && p.k.tp == line[0] && p.k.ready == line[1..] && p.k.tp < |p.pc|
    ensures p.pc[p.k.tp] == MainLoop <==> p.k.tp == 0
  {
    hide Inv;
    PcFacts(p);
  }

  /** The three kinds of steps. */
  lemma YieldAt(p: Prog, line: seq<nat>, z: seq<nat>, o: Option<nat>, pc: seq<Pc>) returns (q: Prog)
    requires At(p, line, z, o, pc) && |line| > 1 && (p.k.tp == 0 || p.pc[p.k.tp] == LockedYield)
    ensures Sized(p) && Step(p, 0) == Next(q) && Switching(p) && line[0] < |pc|
    ensures At(q, line[1..] + [line[0]], z, o, if line[0] == 0 then pc else pc[line[0] := LockedStore])
    ensures q.k.tp == line[1]
  {
    hide Good, Step, Sized, Inv;
    LineFacts(p, line);
    PcFacts(p);
    if p.k.tp == 0 {
      CompanyIsLive(p);
    }
    YieldGoesBehind(p);
    StepKeeps(p, 0);
    q := Step(p, 0).p;
    StepMovesPc(p, 0);
    assert p.k.tp == 0 ==> p.pc[0 := p.pc[0]] == p.pc;
    assert Line(q)[0] == (line[1..] + [line[0]])[0];
  }

  lemma CompanyIsLive(p: Prog)
    requires Good(p) && p.k.tp == 0 && p.k.ready != []
    ensures p.k.live != 0
  {
    RecyclingIsSafe(p.k);
  }

  lemma SleepAt(p: Prog, line: seq<nat>, z: seq<nat>, x: nat, pc: seq<Pc>) returns (q: Prog)
    requires At(p, line, z, Some(x), pc) && p.k.tp < |pc| && pc[p.k.tp] == Acquire
    ensures Sized(p) && Step(p, 0) == Next(q) && Switching(p)
    ensures |line| > 1 && At(q, line[1..], z + [line[0]], Some(x), pc) && q.k.tp == line[1]
  {
    hide Good, Step, Sized, Inv;
    LineFacts(p, line);
    BlockedWorkerSleeps(p, 0);
    StepKeeps(p, 0);
    q := Step(p, 0).p;
    assert Line(q)[0] == line[1..][0];
  }

  /** From main's call of thread_yield to the yield of the head worker, inside its critical section. */
  lemma TakesLock(p: Prog, w: seq<nat>, pc: seq<Pc>) returns (q: Prog)
    requires At(p, [0] + w, [], None, pc) && w != [] && AllAt(pc, w, Acquire)
    ensures w[0] < |pc| && Ran(p, 4, q, [w[0], (w[1..] + [0])[0]])
    ensures At(q, w[1..] + [0] + [w[0]], [], Some(w[0]), pc[w[0] := LockedStore])
  {
    hide Step, Sized, Good, Ran, Switching;
    var x := w[0];
    Nothing(p);
    var s1 := YieldAt(p, [0] + w, [], None, pc);
    assert ([0] + w)[1..] == w;
    SwitchBehind(p, 0, p, []);
    LineFacts(s1, w + [0]);
    var s2 := TakeAt(s1, w + [0], pc);
    StepBehind(p, 1, s1, [] + [x]);
    var s3 := LoadAt(s2, w + [0], x, pc[x := LockedLoad]);
    StepBehind(p, 2, s2, [] + [x]);
    var pc3 := pc[x := LockedLoad][x := LockedYield];
    q := YieldAt(s3, w + [0], [], Some(x), pc3);
    SwitchBehind(p, 3, s3, [] + [x]);
    assert pc3[x := LockedStore] == pc[x := LockedStore];
    assert (w + [0])[1..] == w[1..] + [0] && (w + [0])[1] == (w[1..] + [0])[0];
    assert [] + [x] + [(w + [0])[1]] == [x, (w[1..] + [0])[0]];
  }

  lemma Nothing(p: Prog)
    ensures Ran(p, 0, p, [])
  {
  }

  lemma TakeAt(p: Prog, line: seq<nat>, pc: seq<Pc>) returns (q: Prog)
    requires At(p, line, [], None, pc) && p.k.tp < |pc| && pc[p.k.tp] == Acquire
    ensures Sized(p) && Step(p, 0) == Next(q) && !Switching(p) && q.k.tp == p.k.tp
    ensures At(q, line, [], Some(p.k.tp), pc[p.k.tp := LockedLoad])
  {
    hide Good, Step, Sized, Inv;
    OthersStay(p, 0);
    StepKeeps(p, 0);
    q := Step(p, 0).p;
    StepMovesPc(p, 0);
    StepMovesData(p, 0);
  }

  lemma LoadAt(p: Prog, line: seq<nat>, x: nat, pc: seq<Pc>) returns (q: Prog)
    requires At(p, line, [], Some(x), pc) && p.k.tp < |pc| && pc[p.k.tp] == LockedLoad
    ensures Sized(p) && Step(p, 0) == Next(q) && !Switching(p) && q.k.tp == p.k.tp
    ensures At(q, line, [], Some(x), pc[p.k.tp := LockedYield])
  {
    hide Good, Step, Sized, Inv;
    OthersStay(p, 0);
    StepKeeps(p, 0);
    q := Step(p, 0).p;
    StepMovesPc(p, 0);
    StepMovesData(p, 0);
  }

  /** Every other worker finds the lock taken and falls asleep, one after the other, until main runs. */
  lemma {:induction false} AllSleep(p: Prog, r: seq<nat>, z: seq<nat>, x: nat, pc: seq<Pc>) returns (q: Prog)
    requires At(p, r + [0] + [x], z, Some(x), pc) && AllAt(pc, r, Acquire)
    ensures Ran(p, |r|, q, (r + [0])[1..])
    ensures At(q, [0, x], z + r, Some(x), pc)
    decreases |r|
  {
    hide Step, Sized, Good, Ran, Switching;
    Nothing(p);
    if r == [] {
      q := p;
      assert z + r == z && r + [0] + [x] == [0, x] && (r + [0])[1..] == [];
    } else {
      var line := r + [0] + [x];
      LineFacts(p, line);
      var s := SleepAt(p, line, z, x, pc);
      SwitchBehind(p, 0, p, []);
      assert line[1..] == r[1..] + [0] + [x] && line[1] == (r + [0])[1];
      q := AllSleep(s, r[1..], z + [r[0]], x, pc);
      RanThen(p, 1, s, [] + [line[1]], |r| - 1, q, (r[1..] + [0])[1..]);
      assert z + [r[0]] + r[1..] == z + r;
      assert [] + [line[1]] + (r[1..] + [0])[1..] == (r + [0])[1..];
    }
  }

  /** Main yields; the owner stores, releases the lock, which wakes the sleepers, and exits. */
  lemma GivesLock(p: Prog, r: seq<nat>, x: nat, pc: seq<Pc>) returns (q: Prog)
    requires At(p, [0, x], r, Some(x), pc) && x < |pc| && pc[x] == LockedStore
    ensures Ran(p, 4, q, [x, 0]) && At(q, [0] + r, [], None, pc[x := Done])
  {
    hide Step, Sized, Good, Ran, Switching;
    Nothing(p);
    var s1 := YieldAt(p, [0, x], r, Some(x), pc);
    assert [0, x][1..] + [0] == [x, 0];
    SwitchBehind(p, 0, p, []);
    var s2 := StoreAt(s1, [x, 0], r, x, pc);
    StepBehind(p, 1, s1, [] + [x]);
    var s3 := ReleaseAt(s2, [x, 0], r, x, pc[x := Release]);
    StepBehind(p, 2, s2, [] + [x]);
    assert pc[x := Release][x := Exit] == pc[x := Exit];
    q := ExitAt(s3, [x, 0] + r, [], None, pc[x := Exit]);
    SwitchBehind(p, 3, s3, [] + [x]);
    assert ([x, 0] + r)[1..] == [0] + r && pc[x := Exit][x := Done] == pc[x := Done];
    assert [] + [x] + [0] == [x, 0];
  }

  lemma StoreAt(p: Prog, line: seq<nat>, z: seq<nat>, x: nat, pc: seq<Pc>) returns (q: Prog)
    requires At(p, line, z, Some(x), pc) && p.k.tp < |pc| && pc[p.k.tp] == LockedStore
    ensures Sized(p) && Step(p, 0) == Next(q) && !Switching(p) && q.k.tp == p.k.tp
    ensures At(q, line, z, Some(x), pc[p.k.tp := Release])
  {
    hide Good, Step, Sized, Inv;
    OthersStay(p, 0);
    StepKeeps(p, 0);
    q := Step(p, 0).p;
    StepMovesPc(p, 0);
    StepMovesData(p, 0);
  }

  lemma ReleaseAt(p: Prog, line: seq<nat>, z: seq<nat>, x: nat, pc: seq<Pc>) returns (q: Prog)
    requires At(p, line, z, Some(x), pc) && p.k.tp < |pc| && pc[p.k.tp] == Release
    ensures Sized(p) && Step(p, 0) == Next(q) && !Switching(p) && q.k.tp == p.k.tp
    ensures At(q, line + z, [], None, pc[p.k.tp := Exit])
  {
    hide Good, Step, Sized, Inv;
    ReleaseWakes(p, 0);
    StepKeeps(p, 0);
    q := Step(p, 0).p;
    StepMovesPc(p, 0);
    assert [p.k.tp] + (p.k.ready + z) == [p.k.tp] + p.k.ready + z;
  }

  lemma ExitAt(p: Prog, line: seq<nat>, z: seq<nat>, o: Option<nat>, pc: seq<Pc>) returns (q: Prog)
    requires At(p, line, z, o, pc) && p.k.tp < |pc| && pc[p.k.tp] == Exit
    ensures Sized(p) && Step(p, 0) == Next(q) && Switching(p)
    ensures |line| > 1 && At(q, line[1..], z, o, pc[p.k.tp := Done]) && q.k.tp == line[1]
  {
    hide Good, Step, Sized, Inv;
    LineFacts(p, line);
    ExitLeaves(p);
    StepKeeps(p, 0);
    q := Step(p, 0).p;
    StepMovesPc(p, 0);
    assert Line(q)[0] == line[1..][0];
  }

  // ------------------------------------------------------------------ the whole program

  /** The dispatches of one worker's turn: the worker takes the lock and yields; each other worker falls
      asleep; main yields; the worker stores, releases and exits; main runs again. */
  function Turn(w: seq<nat>): seq<nat>
    requires w != []
  {
    [w[0]] + (w[1..] + [0]) + [w[0], 0]
  }

  function Schedule(w: seq<nat>): seq<nat> {
    if w == [] then [] else Turn(w) + Schedule(w[1..])
  }

  lemma OneTurn(p: Prog, w: seq<nat>, pc: seq<Pc>) returns (q: Prog)
    requires At(p, [0] + w, [], None, pc) && w != [] && AllAt(pc, w, Acquire) && NoDup(w)
    ensures w[0] < |pc| && Ran(p, |w| + 7, q, Turn(w)) && At(q, [0] + w[1..], [], None, pc[w[0] := Done])
  {
    hide Ran, At;
    var x, r := w[0], w[1..];
    var a := TakesLock(p, w, pc);
    var pc1 := pc[x := LockedStore];
    var b := AllSleep(a, r, [], x, pc1);
    assert [] + r == r;
    q := GivesLock(b, r, x, pc1);
    assert pc1[x := Done] == pc[x := Done];
    var first := [x, (r + [0])[0]];
    RanThen(p, 4, a, first, |r|, b, (r + [0])[1..]);
    RanThen(p, 4 + |r|, b, first + (r + [0])[1..], 4, q, [x, 0]);
    assert first + (r + [0])[1..] == [x] + (r + [0]);
  }

  lemma {:induction false} AllTurns(p: Prog, w: seq<nat>, pc: seq<Pc>) returns (n: nat, q: Prog)
    requires At(p, [0] + w, [], None, pc) && AllAt(pc, w, Acquire) && NoDup(w)
    ensures 2 * n == |w| * (|w| + 15) && Ran(p, n, q, Schedule(w)) && q.k.tp == 0 && q.k.ready == [] && Good(q)
    decreases |w|
  {
    hide Ran, Turn, Good;
    if w == [] {
      n, q := 0, p;
      Nothing(p);
      LineFacts(p, [0] + w);
    } else {
      var s := OneTurn(p, w, pc);
      var m;
      m, q := AllTurns(s, w[1..], pc[w[0] := Done]);
      RanThen(p, |w| + 7, s, Turn(w), m, q, Schedule(w[1..]));
      n := |w| + 7 + m;
      StepsAddUp(|w|, m);
    }
  }

  lemma StepsAddUp(k: nat, m: nat)
    requires k > 0 && 2 * m == (k - 1) * (k - 1 + 15)
    ensures 2 * (k + 7 + m) == k * (k + 15)
  {
  }

  /** Part B, dispatch by dispatch: from the state in which main has spawned n safe workers, the kernel
      dispatches in exactly this order; then main finds that no worker is left, and the counter is n. */
  lemma ExactSchedule(p: Prog, n: nat) returns (steps: nat, q: Prog)
    requires LockProgram.Start(p, n) && p.k.tp == 0
    ensures |p.k.ready| == n && 2 * steps == n * (n + 15)
    ensures Ran(p, steps, q, Schedule(p.k.ready))
    ensures Sized(q) && Step(q, 0) == Finished(q) && q.counter == n
  {
    hide Ran, Schedule, Good, Step, Sized;
    var w := p.k.ready;
    AtStart(p, n);
    steps, q := AllTurns(p, w, p.pc);
    StepKeeps(q, 0);
    EmptyIsOver(q);
    RanIsRun(p, steps, q, Schedule(w));
    CounterAtEnd(p, n, steps, q);
  }

  lemma EmptyIsOver(q: Prog)
    requires Good(q) && q.k.tp == 0 && q.k.ready == []
    ensures q.k.live == 0
  {
    if q.k.live != 0 {
      MainHasCompany(q);
    }
  }

  lemma CounterAtEnd(p: Prog, n: nat, steps: nat, q: Prog)
    requires LockProgram.Start(p, n) && Run(p, Fifo(steps)) == Next(q)
    requires Good(q) && q.k.tp == 0 && q.k.live == 0
    ensures q.counter == n
  {
    hide Run, Inv, Step, Sized, Good;
    LockProgram.StartHolds(p, n);
    LockProgram.LockSafety(p, n, Fifo(steps));
    FinishedIsOver(q);
    LockProgram.EveryStoreCounts(q, n);
  }

  /** Before the first switch the n workers stand in the queue, at their lock_acquire. */
  lemma AtStart(p: Prog, n: nat)
    requires LockProgram.Start(p, n) && p.k.tp == 0
    ensures |p.k.ready| == n && At(p, [0] + p.k.ready, [], None, p.pc)
    ensures AllAt(p.pc, p.k.ready, Acquire) && NoDup(p.k.ready)
  {
    hide Inv;
    RunningFacts(p.k);
    NobodySleeps(p);
    forall i | 0 <= i < |p.pc| ensures IsWorker(p.pc[i]) == 1 <==> i in p.k.ready {
      if i in p.k.ready {
        assert p.k.state[i] == Ready;
      }
    }
    CountListed(p.pc, p.k.ready);
  }

  lemma NobodySleeps(p: Prog)
    requires Good(p) && p.owner == None
    ensures p.k.waits == [[]]
  {
    assert WaitList(p.k, 0);
    if p.k.waits[0] != [] {
      NoLostWakeup(p);
    }
  }

  lemma {:induction false} CountListed(pc: seq<Pc>, q: seq<nat>)
    requires NoDup(q) && forall i | 0 <= i < |pc| :: IsWorker(pc[i]) == 1 <==> i in q
    requires forall k | 0 <= k < |q| :: q[k] < |pc|
    ensures Sum(IsWorker, pc) == |q|
    decreases |q|
  {
    if q == [] {
      SumConstant(IsWorker, pc, 0);
    } else {
      SumUpdate(IsWorker, pc, q[0], Idle);
      assert q[0] in q && q[0] !in q[1..];
      CountListed(pc[q[0] := Idle], q[1..]);
    }
  }

  // ------------------------------------------------------------------ how often each thread runs

  function Count(q: seq<nat>, i: nat): nat {
    if q == [] then 0 else (if q[0] == i then 1 else 0) + Count(q[1..], i)
  }

  lemma {:induction false} CountAppend(a: seq<nat>, b: seq<nat>, i: nat)
    ensures Count(a + b, i) == Count(a, i) + Count(b, i)
  {
    if a == [] {
      assert a + b == b;
    } else {
      assert (a + b)[1..] == a[1..] + b;
      CountAppend(a[1..], b, i);
    }
  }

  lemma {:induction false} CountOnce(q: seq<nat>, i: nat)
    requires NoDup(q)
    ensures Count(q, i) == if i in q then 1 else 0
  {
    if q != [] {
      CountOnce(q[1..], i);
      assert q[0] !in q[1..];
    }
  }

  lemma TurnCount(w: seq<nat>, i: nat)
    requires w != [] && NoDup(w) && 0 !in w
    ensures |Turn(w)| == |w| + 3
    ensures Count(Turn(w), i) == if i == 0 || i == w[0] then 2 else if i in w then 1 else 0
  {
    hide Count;
    CountAppend([w[0]] + (w[1..] + [0]), [w[0], 0], i);
    CountAppend([w[0]], w[1..] + [0], i);
    CountAppend(w[1..], [0], i);
    CountOnce([w[0]], i);
    CountOnce(w[1..], i);
    CountOnce([0], i);
    CountOnce([w[0], 0], i);
    assert w[0] in w && w[0] !in w[1..] && (i in w <==> i == w[0] || i in w[1..]);
  }

  lemma {:induction false} ScheduleLength(w: seq<nat>)
    requires NoDup(w) && 0 !in w
    ensures 2 * |Schedule(w)| == |w| * (|w| + 7)
    decreases |w|
  {
    hide Turn;
    if w != [] {
      ScheduleLength(w[1..]);
      TurnCount(w, 0);
      SwitchesAddUp(|w|, |Schedule(w[1..])|);
    }
  }

  lemma SwitchesAddUp(k: nat, m: nat)
    requires k > 0 && 2 * m == (k - 1) * (k - 1 + 7)
    ensures 2 * (k + 3 + m) == k * (k + 7)
  {
  }

  lemma ScheduleStep(w: seq<nat>, i: nat)
    requires w != [] && NoDup(w) && 0 !in w
    ensures Count(Schedule(w), i) ==
            Count(Schedule(w[1..]), i) + if i == 0 || i == w[0] then 2 else if i in w then 1 else 0
  {
    hide Turn, Count, NoDup;
    CountAppend(Turn(w), Schedule(w[1..]), i);
    TurnCount(w, i);
  }

  lemma {:induction false} OthersNeverRun(w: seq<nat>, i: nat)
    requires NoDup(w) && 0 !in w && i != 0 && i !in w
    ensures Count(Schedule(w), i) == 0
    decreases |w|
  {
    if w != [] {
      OthersNeverRun(w[1..], i);
      ScheduleStep(w, i);
    }
  }

  /** There are n(n + 7)/2 switches; the k-th worker of the queue is dispatched k + 2 times, counting from
      0: once for each turn in which it finds the lock taken, and twice in its own; main 2n times. */
  lemma {:induction false} ScheduleCounts(w: seq<nat>, k: nat)
    requires NoDup(w) && 0 !in w
    ensures 2 * |Schedule(w)| == |w| * (|w| + 7)
    ensures Count(Schedule(w), 0) == 2 * |w|
    ensures k < |w| ==> Count(Schedule(w), w[k]) == k + 2
    decreases |w|
  {
    hide Turn, Count, Schedule, NoDup;
    ScheduleLength(w);
    if w == [] {
      NoSchedule();
    } else {
      HeadIsNew(w);
      ScheduleCounts(w[1..], if k == 0 then 0 else k - 1);
      ScheduleStep(w, 0);
      if k == 0 {
        OthersNeverRun(w[1..], w[0]);
        ScheduleStep(w, w[0]);
      } else if k < |w| {
        assert w[k] == w[1..][k - 1] && w[k] in w[1..];
        ScheduleStep(w, w[k]);
      }
    }
  }

  lemma NoSchedule()
    ensures Count(Schedule([]), 0) == 0
  {
  }

  lemma HeadIsNew(w: seq<nat>)
    requires w != [] && NoDup(w) && 0 !in w
    ensures NoDup(w[1..]) && 0 !in w[1..] && w[0] !in w[1..] && w[0] != 0
  {
    assert w[0] in w;
  }
}
