/** Lab 18 part A: what the shared counter can be when the workers do not lock. */
module RaceProgram {
  import opened Util
  import opened Scheduler
  import opened Workers

  predicate UnsafePc(pc: Pc) {
    pc == Load || pc == Yield || pc == Store || pc == Exit || pc == Done || pc == Idle
  }

  /** Between its load and its store. */
  predicate Holding(pc: Pc) {
    pc == Yield || pc == Store
  }

  ghost predicate Start(p: Prog, n: nat) {
    && Good(p) && p.owner == None && p.counter == 0 && Spawned(p) == n
    && forall i | 1 <= i < |p.pc| :: p.pc[i] == Load || p.pc[i] == Idle
  }

  ghost predicate Unsafe(p: Prog, n: nat) {
    && Good(p) && p.owner == None && Spawned(p) == n
    && forall i | 1 <= i < |p.pc| :: UnsafePc(p.pc[i])
  }

  /** No thread loaded, and the counter never shows, more than the number of stores. */
  ghost predicate Between(pc: seq<Pc>, v: seq<nat>, counter: nat) {
    && |v| == |pc|
    && (forall i | 0 <= i < |pc| && Holding(pc[i]) :: v[i] <= Sum(HasStored, pc))
    && counter <= Sum(HasStored, pc)
    && (Sum(HasStored, pc) > 0 ==> counter > 0)
  }

  lemma UnsafeFacts(p: Prog, n: nat)
    requires Unsafe(p, n)
    ensures Good(p) && p.owner == None && p.k.tp < |p.pc| == |p.v| == |p.k.state| <= U64 && p.pc[0] == MainLoop
    ensures forall i | 1 <= i < |p.pc| :: UnsafePc(p.pc[i])
  {
    GoodSizes(p);
  }

  lemma StepKeepsUnsafe(p: Prog, n: nat, pick: nat)
    requires Unsafe(p, n)
    ensures Sized(p) && (Step(p, pick).Next? ==> Unsafe(Step(p, pick).p, n))
  {
    hide Good, Step, Sized;
    StepKeeps(p, pick);
    if Step(p, pick).Next? {
      UnsafeFacts(p, n);
      StepMovesPc(p, pick);
      StepMovesData(p, pick);
      SumUpdate(IsWorker, p.pc, p.k.tp, Successor(p.pc[p.k.tp], Blocked(p)));
    }
  }

  lemma AdvanceKeepsBetween(pc: seq<Pc>, v: seq<nat>, counter: nat, t: nat)
    requires Between(pc, v, counter) && t < |pc| <= U64 && pc[0] == MainLoop
    requires t > 0 ==> UnsafePc(pc[t])
    ensures Between(pc[t := Successor(pc[t], false)],
                    if pc[t] == Load then v[t := counter] else v,
                    if pc[t] == Store then (v[t] + 1) % U64 else counter)
  {
    SumUpdate(HasStored, pc, t, Successor(pc[t], false));
    StoresFit(pc[t := Successor(pc[t], false)]);
  }

  lemma StepKeepsBetween(p: Prog, n: nat, pick: nat)
    requires Unsafe(p, n) && Between(p.pc, p.v, p.counter) && Sized(p) && Step(p, pick).Next?
    ensures var q := Step(p, pick).p; Between(q.pc, q.v, q.counter)
  {
    hide Good, Step, Sized, Between, Unsafe;
    UnsafeFacts(p, n);
    StepMovesPc(p, pick);
    StepMovesData(p, pick);
    AdvanceKeepsBetween(p.pc, p.v, p.counter, p.k.tp);
    assert Blocked(p) ==> Successor(p.pc[p.k.tp], false) == p.pc[p.k.tp];
  }

  /** Under every scheduling choice the run stays unhalted and ends with a counter between 1 and
      the number of workers. */
  lemma {:induction false} RaceBounds(p: Prog, n: nat, picks: seq<nat>)
    requires Unsafe(p, n) && Between(p.pc, p.v, p.counter)
    ensures Run(p, picks) != Stopped
    ensures Run(p, picks).Finished? && n > 0 ==> 1 <= Run(p, picks).p.counter <= n
    decreases |picks|
  {
    hide Good, Between, Unsafe, Step, Sized;
    if picks != [] {
      UnsafeFacts(p, n);
      StepKeeps(p, picks[0]);
      StepKeepsUnsafe(p, n, picks[0]);
      if Step(p, picks[0]).Next? {
        StepKeepsBetween(p, n, picks[0]);
        RaceBounds(Step(p, picks[0]).p, n, picks[1..]);
      } else {
        FinishedIsOver(p);
        OverBounds(p, n);
      }
    }
  }

  lemma OverBounds(p: Prog, n: nat)
    requires Unsafe(p, n) && Over(p) && Between(p.pc, p.v, p.counter)
    ensures n > 0 ==> 1 <= p.counter <= n
  {
    hide Inv;
    SumSame(HasStored, IsWorker, p.pc);
  }

  lemma StartIsBetween(p: Prog, n: nat)
    requires Start(p, n)
    ensures Unsafe(p, n) && Between(p.pc, p.v, p.counter)
  {
    hide Inv;
    SumConstant(HasStored, p.pc, 0);
  }

  /** Whichever READY thread the scheduler picks each time, no worker is stopped and the counter ends
      between 1 and n. */
  lemma AnyScheduleEndsBetween(p: Prog, n: nat, picks: seq<nat>)
    requires Start(p, n) && n > 0
    ensures Run(p, picks) != Stopped
    ensures Run(p, picks).Finished? ==> 1 <= Run(p, picks).p.counter <= n
  {
    hide Start, Unsafe, Between;
    StartIsBetween(p, n);
    RaceBounds(p, n, picks);
  }

  // ------------------------------------------------------------------ FIFO: every load comes first

  /** Whoever still has to load stands behind nobody who has loaded, except a thread that is just
      about to go to the back of the line or to leave it. */
  ghost predicate LoadersFirst(pc: seq<Pc>, line: seq<nat>) {
    && (forall a | 0 <= a < |line| :: line[a] < |pc|)
    && (forall a, b | 0 <= a < b < |line| && pc[line[b]] == Load ::
          || pc[line[a]] == Load || pc[line[a]] == MainLoop
          || (a == 0 && (pc[line[a]] == Yield || pc[line[a]] == Exit)))
  }

  /** From the time the counter showed `base` on, all loads read `base` and all stores write
      `base + 1`; nobody loads after the first of these stores. */
  ghost predicate Stale(pc: seq<Pc>, v: seq<nat>, counter: nat, base: nat) {
    && |v| == |pc|
    && (forall i | 0 <= i < |pc| && Holding(pc[i]) :: v[i] == base)
    && (counter == base || counter == base + 1)
    && (counter != base ==> forall i | 0 <= i < |pc| :: pc[i] != Load)
    && (counter == base ==> exists i :: 0 <= i < |pc| && (pc[i] == Load || Holding(pc[i])))
  }

  /** Under FIFO a switch sends the running thread to the back of the line, thread_exit drops it. */
  lemma LineAfter(p: Prog)
    requires Good(p) && Sized(p) && Step(p, 0).Next? && (p.k.tp == 0 || UnsafePc(p.pc[p.k.tp]))
    ensures var q := Step(p, 0).p;
            var pc := p.pc[p.k.tp];
            Line(q) == if pc == MainLoop || pc == Yield then Line(p)[1..] + [p.k.tp]
                       else if pc == Exit then Line(p)[1..] else Line(p)
  {
    hide Good, Scheduler.Yield, Scheduler.Exit, Wait;
    PcFacts(p);
    YieldRotates(p.k);
    if p.pc[p.k.tp] == Exit {
      ExitDrops(p.k);
    }
    assert Line(p)[1..] == p.k.ready;
  }

  lemma AdvanceKeepsStale(pc: seq<Pc>, v: seq<nat>, counter: nat, base: nat, line: seq<nat>)
    requires Stale(pc, v, counter, base) && base + 1 < U64
    requires LoadersFirst(pc, line) && line != [] && (line[0] == 0 || UnsafePc(pc[line[0]]))
    requires pc[0] == MainLoop
    requires forall i | 0 <= i < |pc| && pc[i] == Load :: i in line
    ensures var t := line[0];
            Stale(pc[t := Successor(pc[t], false)],
                  if pc[t] == Load then v[t := counter] else v,
                  if pc[t] == Store then (v[t] + 1) % U64 else counter, base)
  {
    var t := line[0];
    var next := pc[t := Successor(pc[t], false)];
    if pc[t] == Store {
      assert forall b | 0 <= b < |line| :: pc[line[b]] != Load;
    } else if pc[t] == Load {
      assert Holding(next[t]);
    } else if counter == base {
      var i :| 0 <= i < |pc| && (pc[i] == Load || Holding(pc[i]));
      assert next[i] == Load || Holding(next[i]);
    }
  }

  /** Moving the head of the line along its code, to the back, or out keeps the loaders first. */
  lemma AdvanceKeepsLine(pc: seq<Pc>, line: seq<nat>, next: seq<Pc>)
    requires LoadersFirst(pc, line) && NoDup(line) && line != [] && |next| == |pc|
    requires forall i | 0 <= i < |pc| && i != line[0] :: next[i] == pc[i]
    requires next[line[0]] != Load || pc[line[0]] == Load
    ensures next[line[0]] != Load ==> LoadersFirst(next, line[1..] + [line[0]]) && LoadersFirst(next, line[1..])
    ensures next[line[0]] == Yield || next[line[0]] == Exit || next[line[0]] == MainLoop ==> LoadersFirst(next, line)
  {
    var t := line[0];
    assert forall a | 1 <= a < |line| :: line[a] != t && next[line[a]] == pc[line[a]];
    var back := line[1..] + [t];
    assert forall a | 0 <= a < |line| - 1 :: back[a] == line[a + 1];
  }

  ghost predicate FifoInv(p: Prog, n: nat, base: nat) {
    Unsafe(p, n) && Stale(p.pc, p.v, p.counter, base) && LoadersFirst(p.pc, Line(p)) && base + 1 < U64
  }

  lemma LineFacts(p: Prog, n: nat)
    requires Unsafe(p, n)
    ensures NoDup(Line(p)) && forall i | 0 <= i < |p.pc| && p.pc[i] == Load :: i in Line(p)
  {
    assert p.k.state[p.k.tp] == Running;
    assert forall j | 0 <= j < |p.k.ready| :: p.k.state[p.k.ready[j]] == Ready;
    forall i | 0 <= i < |p.pc| && p.pc[i] == Load ensures i in Line(p) {
      assert p.k.state[i] == Ready || p.k.state[i] == Running;
    }
  }

  lemma StepKeepsStale(p: Prog, n: nat, base: nat)
    requires FifoInv(p, n, base) && Sized(p) && Step(p, 0).Next?
    ensures var q := Step(p, 0).p; Stale(q.pc, q.v, q.counter, base)
  {
    hide Good, Step, Sized, Unsafe, Stale, LoadersFirst;
    UnsafeFacts(p, n);
    StepMovesPc(p, 0);
    StepMovesData(p, 0);
    LineFacts(p, n);
    AdvanceKeepsStale(p.pc, p.v, p.counter, base, Line(p));
    assert Blocked(p) ==> Successor(p.pc[p.k.tp], false) == p.pc[p.k.tp];
  }

  lemma StepKeepsLine(p: Prog, n: nat, base: nat)
    requires FifoInv(p, n, base) && Sized(p) && Step(p, 0).Next?
    ensures var q := Step(p, 0).p; LoadersFirst(q.pc, Line(q))
  {
    hide Good, Step, Sized, Unsafe, Stale, LoadersFirst, NoDup;
    UnsafeFacts(p, n);
    StepMovesPc(p, 0);
    LineAfter(p);
    LineFacts(p, n);
    PcFacts(p);
    AdvanceKeepsLine(p.pc, Line(p), Step(p, 0).p.pc);
  }

  lemma StepKeepsFifo(p: Prog, n: nat, base: nat)
    requires FifoInv(p, n, base)
    ensures Sized(p) && (Step(p, 0).Next? ==> FifoInv(Step(p, 0).p, n, base))
  {
    hide Good, Step, Sized, Unsafe, Stale, LoadersFirst;
    StepKeepsUnsafe(p, n, 0);
    if Step(p, 0).Next? {
      StepKeepsStale(p, n, base);
      StepKeepsLine(p, n, base);
    }
  }

  lemma {:induction false} FifoResult(p: Prog, n: nat, base: nat, steps: nat)
    requires FifoInv(p, n, base)
    ensures Run(p, Fifo(steps)).Finished? ==> Run(p, Fifo(steps)).p.counter == base + 1
    decreases steps
  {
    hide Good, Step, Sized, FifoInv;
    if steps > 0 {
      StepKeepsFifo(p, n, base);
      FifoFacts(p, n, base);
      StepKeeps(p, 0);
      assert Fifo(steps)[1..] == Fifo(steps - 1);
      if Step(p, 0).Next? {
        FifoResult(Step(p, 0).p, n, base, steps - 1);
      } else {
        FinishedIsOver(p);
        OverIsStale(p, n, base);
      }
    }
  }

  lemma FifoFacts(p: Prog, n: nat, base: nat)
    requires FifoInv(p, n, base)
    ensures Good(p)
  {
  }

  lemma OverIsStale(p: Prog, n: nat, base: nat)
    requires FifoInv(p, n, base) && Over(p)
    ensures p.counter == base + 1
  {
    GoodSizes(p);
    hide Inv;
  }

  lemma StartIsFifo(p: Prog, n: nat)
    requires Start(p, n) && n > 0
    ensures FifoInv(p, n, 0)
  {
    hide Start, Unsafe, Stale, LoadersFirst;
    StartIsBetween(p, n);
    StartIsStale(p, n);
    StartIsInLine(p, n);
  }

  lemma StartIsStale(p: Prog, n: nat)
    requires Start(p, n) && n > 0
    ensures Stale(p.pc, p.v, p.counter, 0)
  {
    hide Good, Sized;
    GoodSizes(p);
    if forall i | 0 <= i < |p.pc| :: p.pc[i] != Load {
      SumConstant(IsWorker, p.pc, 0);
    }
  }

  lemma StartIsInLine(p: Prog, n: nat)
    requires Start(p, n)
    ensures LoadersFirst(p.pc, Line(p))
  {
    hide Good, Line;
    GoodSizes(p);
    LineBounded(p);
  }

  lemma LineBounded(p: Prog)
    requires Good(p)
    ensures forall a | 0 <= a < |Line(p)| :: Line(p)[a] < |p.pc| && p.pc[Line(p)[a]] != Idle && p.pc[Line(p)[a]] != Done
  {
    assert p.k.state[p.k.tp] == Running;
    assert forall j | 0 <= j < |p.k.ready| :: p.k.state[p.k.ready[j]] == Ready;
  }

  /** Part A ends, under the kernel's own FIFO scheduler, with the counter at exactly 1 for every
      positive number of workers: all but one increment is lost. */
  lemma LostUpdates(p: Prog, n: nat) returns (steps: nat)
    requires Start(p, n) && n > 0
    ensures Run(p, Fifo(steps)).Finished? && Run(p, Fifo(steps)).p.counter == 1
  {
    GoodIsSized(p);
    StartIsFifo(p, n);
    steps := Terminates(p);
    FifoResult(p, n, 0, steps);
  }

  // ------------------------------------------------------------------ every value in between

  /** The workers run one after the other: only the running thread is past its load. */
  ghost predicate Serial(pc: seq<Pc>, v: seq<nat>, counter: nat, t: nat) {
    && t < |pc| == |v| && counter == Sum(HasStored, pc)
    && (forall i | 0 <= i < |pc| && i != t :: !Holding(pc[i]) && pc[i] != Exit)
    && (Holding(pc[t]) ==> v[t] == counter)
  }

  /** Serve the yielding thread itself. */
  function Stay(p: Prog): nat
    requires p.k.tp < |p.pc|
  {
    if p.pc[p.k.tp] == Yield then |p.k.ready| else 0
  }

  lemma StayKeepsRunning(p: Prog)
    requires Good(p) && Sized(p) && p.pc[p.k.tp] == Yield
    ensures Step(p, Stay(p)).Next? && Step(p, Stay(p)).p.k.tp == p.k.tp
  {
    hide Good;
    assert (p.k.ready + [p.k.tp])[|p.k.ready|] == p.k.tp;
  }

  lemma SilentKeepsRunning(p: Prog, pick: nat)
    requires Sized(p) && Step(p, pick).Next? && (p.pc[p.k.tp] == Load || p.pc[p.k.tp] == Store)
    ensures Step(p, pick).p.k.tp == p.k.tp
  {
  }

  /** One statement of thread t, after which thread u runs. */
  lemma AdvanceKeepsSerial(pc: seq<Pc>, v: seq<nat>, counter: nat, t: nat, u: nat)
    requires Serial(pc, v, counter, t) && t < |pc| <= U64 && pc[0] == MainLoop && u < |pc|
    requires UnsafePc(pc[t]) || t == 0
    requires pc[t] == Load || pc[t] == Yield || pc[t] == Store ==> u == t
    ensures var c := if pc[t] == Store then (v[t] + 1) % U64 else counter;
            && c == (if pc[t] == Store then counter + 1 else counter)
            && Serial(pc[t := Successor(pc[t], false)], if pc[t] == Load then v[t := counter] else v, c, u)
  {
    SumUpdate(HasStored, pc, t, Successor(pc[t], false));
    StoresFit(pc[t := Successor(pc[t], false)]);
  }

  lemma SerialStep(p: Prog, n: nat)
    requires Unsafe(p, n) && Serial(p.pc, p.v, p.counter, p.k.tp) && Sized(p) && Step(p, Stay(p)).Next?
    ensures var q := Step(p, Stay(p)).p; Serial(q.pc, q.v, q.counter, q.k.tp)
    ensures var q := Step(p, Stay(p)).p; q.counter == if p.pc[p.k.tp] == Store then p.counter + 1 else p.counter
    ensures var q := Step(p, Stay(p)).p; q.counter > p.counter ==> q.pc[q.k.tp] == Exit
  {
    hide Good, Step, Sized, Unsafe, Serial;
    UnsafeFacts(p, n);
    var t := p.k.tp;
    var q := Step(p, Stay(p)).p;
    StepKeepsUnsafe(p, n, Stay(p));
    UnsafeFacts(q, n);
    StepMovesPc(p, Stay(p));
    StepMovesData(p, Stay(p));
    if p.pc[t] == Yield {
      StayKeepsRunning(p);
    } else if p.pc[t] == Load || p.pc[t] == Store {
      SilentKeepsRunning(p, Stay(p));
    }
    AdvanceKeepsSerial(p.pc, p.v, p.counter, t, q.k.tp);
    assert Blocked(p) ==> Successor(p.pc[t], false) == p.pc[t];
  }

  lemma SerialLine(p: Prog, n: nat)
    requires Unsafe(p, n) && Serial(p.pc, p.v, p.counter, p.k.tp) && !Holding(p.pc[p.k.tp])
    ensures LoadersFirst(p.pc, Line(p))
  {
    hide Good;
    UnsafeFacts(p, n);
    LineBounded(p);
    LineFacts(p, n);
    var line := Line(p);
    forall a | 0 <= a < |line|
      ensures p.pc[line[a]] == Load || p.pc[line[a]] == MainLoop || (a == 0 && p.pc[line[a]] == Exit)
    {
      if a > 0 {
        assert line[0] != line[a];
      }
    }
  }

  /** Between two serial workers the rest of the program looks like a fresh start. */
  lemma SerialIsFifo(p: Prog, n: nat)
    requires Unsafe(p, n) && Serial(p.pc, p.v, p.counter, p.k.tp) && !Holding(p.pc[p.k.tp]) && p.counter < n
    ensures FifoInv(p, n, p.counter)
  {
    hide Good, LoadersFirst;
    UnsafeFacts(p, n);
    SerialLine(p, n);
    SumAtMost(IsWorker, p.pc[1..], 1);
    if forall i | 0 <= i < |p.pc| :: p.pc[i] != Load {
      SumSame(HasStored, IsWorker, p.pc);
    }
  }

  /** Serve the workers one by one until the counter shows c. */
  lemma {:induction false} RunSerially(p: Prog, n: nat, c: nat) returns (picks: seq<nat>)
    requires Unsafe(p, n) && Serial(p.pc, p.v, p.counter, p.k.tp) && Sized(p)
    requires c < n && p.counter <= c && (p.counter == c ==> !Holding(p.pc[p.k.tp]))
    ensures Run(p, picks).Next? && FifoInv(Run(p, picks).p, n, c)
    decreases Work(p), Distance(p)
  {
    hide Good, Step, Sized, Unsafe, Serial, FifoInv;
    UnsafeFacts(p, n);
    if p.counter == c {
      SerialIsFifo(p, n);
      picks := [];
    } else {
      var k := Stay(p);
      StepKeeps(p, k);
      StepKeepsUnsafe(p, n, k);
      if Step(p, k).Finished? {
        FinishedIsOver(p);
        SerialOver(p, n);
      }
      var q := Step(p, k).p;
      SerialStep(p, n);
      StepKeepsUnsafe(q, n, 0);
      if Blocked(p) {
        BlockedStepProgress(p);
      } else {
        FreeStep(p, k);
      }
      var rest := RunSerially(q, n, c);
      picks := [k] + rest;
      assert picks[1..] == rest;
    }
  }

  lemma SerialOver(p: Prog, n: nat)
    requires Unsafe(p, n) && Over(p) && Serial(p.pc, p.v, p.counter, p.k.tp)
    ensures p.counter == n
  {
    hide Inv;
    SumSame(HasStored, IsWorker, p.pc);
  }

  lemma StartIsSerial(p: Prog, n: nat)
    requires Start(p, n)
    ensures Unsafe(p, n) && Serial(p.pc, p.v, p.counter, p.k.tp) && Sized(p) && !Holding(p.pc[p.k.tp])
  {
    hide Good, Sized, Inv;
    PcFacts(p);
    GoodSizes(p);
    SumConstant(HasStored, p.pc, 0);
  }

  /** The bounds of RaceBounds are exact: with suitable scheduling choices n unsafe workers can end
      with any counter from 1 to n. */
  lemma EveryCountHappens(p: Prog, n: nat, c: nat) returns (picks: seq<nat>)
    requires Start(p, n) && 1 <= c <= n
    ensures Run(p, picks).Finished? && Run(p, picks).p.counter == c
  {
    StartIsSerial(p, n);
    var first := RunSerially(p, n, c - 1);
    var q := Run(p, first).p;
    FifoFacts(q, n, c - 1);
    GoodIsSized(q);
    var steps := Terminates(q);
    FifoResult(q, n, c - 1, steps);
    RunAppend(p, first, Fifo(steps));
    picks := first + Fifo(steps);
  }
}
