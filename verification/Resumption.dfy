/** The scheduler and _swtch together: a thread that yields or waits continues, after a number of
    switches that its place in the queue fixes, with the registers it had. */
module Resumption {
  import opened Util
  import opened Memory
  import opened Riscv
  import opened Scheduler
  import opened ContextSwitch

  /** The context blocks of the table, a scheduler run, and the hart before each operation. */
  datatype Joint = Joint(blocks: seq<Word>, ts: seq<Sys>, ops: seq<Operation>, hs: seq<Hart>)

  /** What the hart's memory is when operation j has been made. */
  function MemAfter(r: Joint, j: nat): Mem
    requires j < |r.ops| == |r.hs|
  {
    if Switches(r.ops[j]) then Exec(SWTCH, r.hs[j]).mem else r.hs[j].mem
  }

  /** At a switch tp points to the thread that leaves and a0 to the one that comes. */
  ghost predicate Linked(r: Joint, j: nat)
    requires j < |r.ops| == |r.hs| && |r.ts| == |r.ops| + 1
  {
    && r.ts[j].tp < |r.blocks| && r.ts[j + 1].tp < |r.blocks|
    && r.hs[j].x[TP] == r.blocks[r.ts[j].tp] && r.hs[j].x[A0] == r.blocks[r.ts[j + 1].tp]
  }

  /** Threads may change all registers and all memory but the context blocks; thread_spawn writes the
      block of the slot it fills. */
  ghost predicate BlocksKept(r: Joint, j: nat)
    requires j + 1 < |r.ops| == |r.hs| && |r.ts| == |r.ops| + 1
  {
    forall u | 0 <= u < |r.blocks| == |r.ts[j].state| && r.ts[j].state[u] != Unused ::
      Context(r.hs[j + 1].mem, r.blocks[u]) == Context(MemAfter(r, j), r.blocks[u])
  }

  ghost predicate IsJoint(r: Joint) {
    && Scheduler.IsRun(r.ts, r.ops) && |r.hs| == |r.ops| && Apart(r.blocks)
    && (forall j | 0 <= j < |r.ts| :: |r.ts[j].state| == |r.blocks|)
    && (forall j | 0 <= j < |r.ops| && Switches(r.ops[j]) :: Linked(r, j))
    && (forall j | 0 <= j < |r.ops| - 1 :: BlocksKept(r, j))
  }

  lemma JointFacts(r: Joint, j: nat)
    requires IsJoint(r) && j < |r.ops|
    ensures |r.ts| == |r.ops| + 1 && |r.hs| == |r.ops| && Apart(r.blocks)
    ensures |r.ts[j].state| == |r.blocks| && |r.ts[j + 1].state| == |r.blocks|
    ensures Inv(r.ts[j]) && Perform(r.ts[j], r.ops[j]) == Some(r.ts[j + 1])
    ensures Switches(r.ops[j]) ==> Linked(r, j)
    ensures j + 1 < |r.ops| ==> BlocksKept(r, j)
  {
    hide Inv, Perform, Linked, BlocksKept, Apart;
  }

  /** How many switches operations 0 to j - 1 make. */
  function SwitchesBefore(r: Joint, j: nat): nat
    requires j <= |r.ops|
  {
    Sum(SwitchWeight, r.ops[..j])
  }

  lemma OneMoreOp(r: Joint, j: nat)
    requires j < |r.ops|
    ensures SwitchesBefore(r, j + 1) == SwitchesBefore(r, j) + SwitchWeight(r.ops[j])
    ensures SwitchesBefore(r, 0) == 0
  {
    assert r.ops[..j + 1] == r.ops[..j] + [r.ops[j]];
    SumAppend(SwitchWeight, r.ops[..j], r.ops[j]);
  }

  /** Where a yield puts the running thread. */
  lemma YieldQueues(s: Sys)
    requires Inv(s)
    ensures var i := s.tp; var t := Yield(s, 0).sys;
            && Yield(s, 0).Switched? && i < |s.dispatched|
            && (s.ready == [] ==> t.tp == i)
            && (s.ready != [] ==> t.tp != i && Queued(t, i, |s.ready| - 1, s.dispatched[i]))
  {
    hide Inv;
    RunningFacts(s);
    YieldMoves(s, 0);
    YieldRotates(s);
    var t := Yield(s, 0).sys;
    var i := s.tp;
    if s.ready != [] {
      assert ([t.tp] + t.ready)[0] == s.ready[0];
      assert ([t.tp] + t.ready)[|s.ready|] == i;
      assert t.ready[|s.ready| - 1] == i;
    }
  }

  lemma QueuedIsReady(s: Sys, i: nat, k: nat, d: nat)
    requires Inv(s) && Queued(s, i, k, d)
    ensures i < |s.state| && s.state[i] == Ready && s.tp != i
  {
  }

  // ------------------------------------------------------------------ the block of a thread that does not run

  /** A switch by another thread leaves the block of thread i alone. */
  lemma SwitchLeaves(r: Joint, j: nat, i: nat)
    requires IsJoint(r) && j < |r.ops| && i < |r.blocks| && r.ts[j].tp != i
    ensures |r.hs| == |r.ops| && Context(MemAfter(r, j), r.blocks[i]) == Context(r.hs[j].mem, r.blocks[i])
  {
    hide IsJoint, Exec, Context, Perform, Inv;
    JointFacts(r, j);
    if Switches(r.ops[j]) {
      TurnWritesOwnBlock(r.blocks, r.hs[j], r.ts[j].tp, r.ts[j + 1].tp, i);
    }
  }

  /** Nor do the threads that run until the next operation. */
  lemma BlockStaysOn(r: Joint, j: nat, i: nat)
    requires IsJoint(r) && j + 1 < |r.ops| && i < |r.blocks| && r.ts[j].tp != i
    requires i < |r.ts[j].state| && r.ts[j].state[i] != Unused
    ensures |r.hs| == |r.ops| && Context(r.hs[j + 1].mem, r.blocks[i]) == Context(r.hs[j].mem, r.blocks[i])
  {
    hide IsJoint, Exec, Context, Perform, Inv, MemAfter;
    JointFacts(r, j);
    SwitchLeaves(r, j, i);
  }

  /** The thread that gives up the processor leaves its registers in its block. */
  lemma OwnBlockSaved(r: Joint)
    requires IsJoint(r) && |r.ops| > 1 && Switches(r.ops[0])
    ensures |r.hs| == |r.ops| && |r.ts| == |r.ops| + 1 && r.ts[0].tp < |r.blocks|
    ensures Context(r.hs[1].mem, r.blocks[r.ts[0].tp]) == Values(r.hs[0].x, SAVED)
  {
    hide IsJoint, Exec, Context, Perform, Inv, Values;
    JointFacts(r, 0);
    RunningFacts(r.ts[0]);
    TurnWritesOwnBlock(r.blocks, r.hs[0], r.ts[0].tp, r.ts[1].tp, r.ts[0].tp);
  }

  // ------------------------------------------------------------------ in the ready queue

  /** Thread i stands at queue position k, and its block holds its registers. */
  ghost predicate Holds(r: Joint, j: nat, i: nat, k: nat, d: nat, saved: seq<Word>) {
    && j < |r.ops| == |r.hs| && |r.ts| == |r.ops| + 1 && i < |r.blocks|
    && Queued(r.ts[j], i, k, d) && Context(r.hs[j].mem, r.blocks[i]) == saved
  }

  lemma HoldsStep(r: Joint, j: nat, i: nat, k: nat, d: nat, saved: seq<Word>)
    requires IsJoint(r) && Holds(r, j, i, k, d, saved) && j + 1 < |r.ops|
    requires SwitchWeight(r.ops[j]) <= k
    ensures Holds(r, j + 1, i, k - SwitchWeight(r.ops[j]), d, saved)
  {
    hide IsJoint, Context, Perform, Inv, Queued;
    JointFacts(r, j);
    QueuedIsReady(r.ts[j], i, k, d);
    QueueMoves(r.ts[j], r.ops[j], i, k, d);
    BlockStaysOn(r, j, i);
  }

  /** Until its turn comes the thread stays queued, one place further with every switch, and its block
      keeps the registers of its call. */
  lemma {:induction false} StillWaiting(r: Joint, a: nat, j: nat, i: nat, k: nat, d: nat, saved: seq<Word>)
    requires IsJoint(r) && Holds(r, a, i, k, d, saved) && a <= j < |r.ops|
    requires SwitchesBefore(r, j) <= SwitchesBefore(r, a) + k
    ensures SwitchesBefore(r, a) <= SwitchesBefore(r, j)
    ensures Holds(r, j, i, k - (SwitchesBefore(r, j) - SwitchesBefore(r, a)), d, saved)
    decreases j
  {
    hide IsJoint, Holds, SwitchesBefore;
    if a < j {
      OneMoreOp(r, j - 1);
      StillWaiting(r, a, j - 1, i, k, d, saved);
      HoldsStep(r, j - 1, i, k - (SwitchesBefore(r, j - 1) - SwitchesBefore(r, a)), d, saved);
    }
  }

  /** At the head of the queue the next switch resumes it. */
  lemma HeadResumes(r: Joint, j: nat, i: nat, d: nat, saved: seq<Word>)
    requires IsJoint(r) && Holds(r, j, i, 0, d, saved) && Switches(r.ops[j])
    ensures r.ts[j + 1].tp == i && Values(Exec(SWTCH, r.hs[j]).x, SAVED) == saved
    ensures Exec(SWTCH, r.hs[j]).x[TP] == r.blocks[i]
  {
    hide IsJoint, Exec, Context, Perform, Inv, Values, Queued, SaveWords;
    JointFacts(r, j);
    QueuedIsReady(r.ts[j], i, 0, d);
    QueueMoves(r.ts[j], r.ops[j], i, 0, d);
    SwitchEffect(r.hs[j]);
    SwitchLeaves(r, j, i);
  }

  // ------------------------------------------------------------------ thread_yield

  lemma PerformYield(s: Sys)
    requires Inv(s)
    ensures Yield(s, 0).Switched? && Perform(s, DoYield) == Some(Yield(s, 0).sys)
  {
    hide Inv;
    YieldKeeps(s, 0);
  }

  /** thread_yield returns to its caller: with n threads queued at the call, the (n+1)-th switch, the
      caller's own included, dispatches the caller again; then ra, sp and s0 to s11 are those of the
      call and tp points to the caller, whatever the other threads do meanwhile. */
  lemma YieldReturns(r: Joint, j: nat)
    requires IsJoint(r) && j < |r.ops| && r.ops[0] == DoYield && |r.ts| == |r.ops| + 1 == |r.hs| + 1
    requires Switches(r.ops[j]) && SwitchesBefore(r, j) == |r.ts[0].ready|
    ensures r.ts[j + 1].tp == r.ts[0].tp
    ensures Values(Exec(SWTCH, r.hs[j]).x, SAVED) == Values(r.hs[0].x, SAVED)
    ensures Exec(SWTCH, r.hs[j]).x[TP] == r.hs[0].x[TP]
  {
    hide IsJoint, Exec, Context, Perform, Inv, Values, SwitchesBefore, Queued, SaveWords;
    var i := r.ts[0].tp;
    JointFacts(r, 0);
    OneMoreOp(r, 0);
    PerformYield(r.ts[0]);
    YieldQueues(r.ts[0]);
    if j == 0 {
      SwitchToSelf(r.hs[0]);
    } else {
      SomebodyQueued(r, j);
      OwnBlockSaved(r);
      var d := r.ts[0].dispatched[i];
      StillWaiting(r, 1, j, i, |r.ts[0].ready| - 1, d, Values(r.hs[0].x, SAVED));
      HeadResumes(r, j, i, d, Values(r.hs[0].x, SAVED));
    }
  }

  /** The first operation is itself a switch, so a later one comes after at least one. */
  lemma SomebodyQueued(r: Joint, j: nat)
    requires IsJoint(r) && 1 <= j < |r.ops| && r.ops[0] == DoYield
    requires |r.ts| == |r.ops| + 1 && SwitchesBefore(r, j) == |r.ts[0].ready|
    ensures r.ts[0].ready != []
  {
    hide IsJoint;
    SumAtLeast(SwitchWeight, r.ops[..j], 0);
  }

  // ------------------------------------------------------------------ condition_wait

  /** Thread i sleeps at place p of the wait list of condition c, not dispatched since its count was d. */
  ghost predicate Asleep(s: Sys, i: nat, c: nat, p: nat, d: nat) {
    && c < |s.waits| && p < |s.waits[c]| && s.waits[c][p] == i
    && i < |s.state| == |s.dispatched| && s.state[i] == Waiting && s.dispatched[i] == d
  }

  /** condition_wait puts the caller at the end of the wait list. */
  lemma WaitSleeps(s: Sys, c: nat)
    requires Inv(s) && Perform(s, DoWait(c)).Some?
    ensures c < |s.waits| && s.tp < |s.dispatched|
    ensures Asleep(Perform(s, DoWait(c)).value, s.tp, c, |s.waits[c]|, s.dispatched[s.tp])
  {
    RunningFacts(s);
  }

  /** A switch dispatches another thread. */
  lemma SleepsThrough(w: Sys, i: nat, c: nat, p: nat, d: nat)
    requires Bounded(w) && Asleep(w, i, c, p, d) && Select(w, 0).Switched?
    requires w.ready == [] || w.ready[0] != i
    ensures Asleep(Select(w, 0).sys, i, c, p, d)
  {
  }

  /** Nothing but a broadcast on its own condition moves a sleeping thread. */
  lemma SleepsOn(s: Sys, op: Operation, i: nat, c: nat, p: nat, d: nat)
    requires Inv(s) && Asleep(s, i, c, p, d) && Perform(s, op).Some? && op != DoBroadcast(c)
    ensures Asleep(Perform(s, op).value, i, c, p, d)
  {
    hide Inv, Select, Asleep, FreeSlot, Broadcast;
    RunningFacts(s);
    match op
    case DoYield =>
      OthersStop(s, Requeue(s), i, c, p, d);
      SleepsThrough(Requeue(s), i, c, p, d);
    case DoExit =>
      OthersStop(s, Leave(s), i, c, p, d);
      SleepsThrough(Leave(s), i, c, p, d);
    case DoWait(e) =>
      OthersStop(s, Sleep(s, e), i, c, p, d);
      SleepsThrough(Sleep(s, e), i, c, p, d);
    case DoBroadcast(e) =>
      OthersWake(s, e, i, c, p, d);
    case DoSpawn =>
      OthersStart(s, i, c, p, d);
  }

  /** The running thread queues up, leaves or falls asleep behind the sleepers. */
  lemma OthersStop(s: Sys, w: Sys, i: nat, c: nat, p: nat, d: nat)
    requires Inv(s) && Asleep(s, i, c, p, d) && s.tp < |s.state|
    requires |w.state| == |s.state| && w.dispatched == s.dispatched && |w.waits| == |s.waits|
    requires forall j | 0 <= j < |s.state| && j != s.tp :: w.state[j] == s.state[j]
    requires w.ready == s.ready || w.ready == s.ready + [s.tp]
    requires forall e | 0 <= e < |s.waits| :: s.waits[e] <= w.waits[e]
    ensures Asleep(w, i, c, p, d) && (w.ready == [] || w.ready[0] != i)
  {
    hide Inv;
    RunningFacts(s);
    assert s.waits[c] <= w.waits[c];
  }

  lemma OthersStart(s: Sys, i: nat, c: nat, p: nat, d: nat)
    requires Inv(s) && Asleep(s, i, c, p, d)
    ensures |s.state| > 0 && (Spawn(s).Some? ==> Asleep(Spawn(s).value, i, c, p, d))
  {
    hide Inv;
  }

  lemma OthersWake(s: Sys, e: nat, i: nat, c: nat, p: nat, d: nat)
    requires Inv(s) && Asleep(s, i, c, p, d) && Perform(s, DoBroadcast(e)).Some? && e != c
    ensures Asleep(Perform(s, DoBroadcast(e)).value, i, c, p, d)
  {
    assert WaitList(s, c) && WaitList(s, e);
  }

  /** The broadcast puts it into the queue, behind the queued threads and those that slept before it. */
  lemma BroadcastQueues(s: Sys, i: nat, c: nat, p: nat, d: nat)
    requires Inv(s) && Asleep(s, i, c, p, d)
    ensures Perform(s, DoBroadcast(c)).Some?
    ensures Queued(Perform(s, DoBroadcast(c)).value, i, |s.ready| + p, d)
  {
    assert WaitList(s, c);
  }

  /** From its condition_wait to the broadcast the thread keeps its place in the wait list, and its
      block the registers of its call. */
  lemma {:induction false} StillAsleep(r: Joint, c: nat, j: nat)
    requires IsJoint(r) && 1 <= j < |r.ops| && r.ops[0] == DoWait(c) && |r.ts| == |r.ops| + 1 == |r.hs| + 1
    requires forall e | 0 <= e < j :: r.ops[e] != DoBroadcast(c)
    ensures var i := r.ts[0].tp;
            && i < |r.blocks| && i < |r.ts[0].dispatched| && c < |r.ts[0].waits|
            && Asleep(r.ts[j], i, c, |r.ts[0].waits[c]|, r.ts[0].dispatched[i])
            && Context(r.hs[j].mem, r.blocks[i]) == Values(r.hs[0].x, SAVED)
    decreases j
  {
    hide IsJoint, Exec, Context, Perform, Inv, Values, Asleep;
    JointFacts(r, 0);
    WaitSleeps(r.ts[0], c);
    if j == 1 {
      OwnBlockSaved(r);
    } else {
      var i := r.ts[0].tp;
      var p, d := |r.ts[0].waits[c]|, r.ts[0].dispatched[i];
      StillAsleep(r, c, j - 1);
      JointFacts(r, j - 1);
      SleepsOn(r.ts[j - 1], r.ops[j - 1], i, c, p, d);
      AsleepIsOff(r.ts[j - 1], i, c, p, d);
      BlockStaysOn(r, j - 1, i);
    }
  }

  lemma AsleepIsOff(s: Sys, i: nat, c: nat, p: nat, d: nat)
    requires Inv(s) && Asleep(s, i, c, p, d)
    ensures i < |s.state| && s.state[i] == Waiting && s.tp != i
  {
  }

  /** condition_wait returns to its caller: if the first broadcast on its condition is operation b, the
      caller is dispatched by the switch that comes after as many others as threads were queued then
      and slept before it; and it continues with the registers of its own call. */
  lemma WaitReturns(r: Joint, c: nat, b: nat, j: nat)
    requires IsJoint(r) && 1 <= b < j < |r.ops| && |r.ts| == |r.ops| + 1 == |r.hs| + 1
    requires r.ops[0] == DoWait(c) && r.ops[b] == DoBroadcast(c)
    requires forall e | 0 <= e < b :: r.ops[e] != DoBroadcast(c)
    requires c < |r.ts[0].waits| && Switches(r.ops[j])
    requires SwitchesBefore(r, j) == SwitchesBefore(r, b) + |r.ts[b].ready| + |r.ts[0].waits[c]|
    ensures r.ts[j + 1].tp == r.ts[0].tp
    ensures Values(Exec(SWTCH, r.hs[j]).x, SAVED) == Values(r.hs[0].x, SAVED)
    ensures Exec(SWTCH, r.hs[j]).x[TP] == r.hs[0].x[TP]
  {
    hide IsJoint, Exec, Context, Perform, Inv, Values, SwitchesBefore, Asleep, Queued;
    var i := r.ts[0].tp;
    JointFacts(r, 0);
    JointFacts(r, b);
    StillAsleep(r, c, b);
    var p, d := |r.ts[0].waits[c]|, r.ts[0].dispatched[i];
    BroadcastQueues(r.ts[b], i, c, p, d);
    AsleepIsOff(r.ts[b], i, c, p, d);
    BlockStaysOn(r, b, i);
    OneMoreOp(r, b);
    StillWaiting(r, b + 1, j, i, |r.ts[b].ready| + p, d, Values(r.hs[0].x, SAVED));
    HeadResumes(r, j, i, d, Values(r.hs[0].x, SAVED));
  }
}
