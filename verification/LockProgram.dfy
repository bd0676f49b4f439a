/** Lab 18 part B: any number of safe workers increments the counter without losing an update. */
module LockProgram {
  import opened Util
  import opened Scheduler
  import opened Workers

  predicate SafePc(pc: Pc) {
    pc == Acquire || Critical(pc) || pc == Exit || pc == Done || pc == Idle
  }

  /** n safe workers, none of which has run yet. */
  ghost predicate Start(p: Prog, n: nat) {
    && Good(p) && p.owner == None && p.counter == 0 && Spawned(p) == n
    && forall i | 1 <= i < |p.pc| :: p.pc[i] == Acquire || p.pc[i] == Idle
  }

  /** The shared counter is the number of completed stores, and a thread between its load and its
      store holds that very value. */
  ghost predicate Exact(pc: seq<Pc>, v: seq<nat>, counter: nat) {
    && |v| == |pc|
    && (forall i | 1 <= i < |pc| :: SafePc(pc[i]))
    && counter == Sum(HasStored, pc)
    && (forall i | 0 <= i < |pc| && (pc[i] == LockedYield || pc[i] == LockedStore) :: v[i] == counter)
  }

  ghost predicate LockInv(p: Prog, n: nat) {
    Good(p) && Spawned(p) == n && Exact(p.pc, p.v, p.counter)
  }

  lemma StartHolds(p: Prog, n: nat)
    requires Start(p, n)
    ensures LockInv(p, n)
  {
    SumConstant(HasStored, p.pc, 0);
  }

  /** At most one thread is between lock_acquire and lock_release; it is the owner, and it is READY or
      RUNNING. */
  lemma MutualExclusion(p: Prog)
    requires Good(p)
    ensures forall i, j | 0 <= i < |p.pc| && 0 <= j < |p.pc| && Critical(p.pc[i]) && Critical(p.pc[j]) :: i == j
    ensures forall i | 0 <= i < |p.pc| && Critical(p.pc[i]) ::
              p.owner == Some(i) && (p.k.state[i] == Ready || p.k.state[i] == Running)
  {
  }

  lemma AdvanceKeepsExact(pc: seq<Pc>, v: seq<nat>, counter: nat, t: nat, blocked: bool)
    requires Exact(pc, v, counter) && t < |pc| <= U64 && pc[0] == MainLoop
    requires blocked ==> pc[t] == MainLoop || pc[t] == Acquire
    requires forall i | 0 <= i < |pc| && Critical(pc[i]) && Critical(pc[t]) :: i == t
    ensures Exact(pc[t := Successor(pc[t], blocked)],
                  if pc[t] == Load || pc[t] == LockedLoad then v[t := counter] else v,
                  if pc[t] == Store || pc[t] == LockedStore then (v[t] + 1) % U64 else counter)
  {
    SumUpdate(HasStored, pc, t, Successor(pc[t], blocked));
    StoresFit(pc[t := Successor(pc[t], blocked)]);
  }

  lemma StepKeepsLock(p: Prog, n: nat, pick: nat)
    requires LockInv(p, n)
    ensures Sized(p) && (Step(p, pick).Next? ==> LockInv(Step(p, pick).p, n))
  {
    hide Good, Step, Sized, Exact;
    StepKeeps(p, pick);
    if Step(p, pick).Next? {
      GoodSizes(p);
      StepMovesPc(p, pick);
      StepMovesData(p, pick);
      MutualExclusion(p);
      AdvanceKeepsExact(p.pc, p.v, p.counter, p.k.tp, Blocked(p));
      SumUpdate(IsWorker, p.pc, p.k.tp, Successor(p.pc[p.k.tp], Blocked(p)));
    }
  }

  /** Safety over whole runs, for every scheduling choice: the invariant holds in each reachable
      state, and when main is told that no worker is left the counter is exactly their number. */
  lemma {:induction false} LockSafety(p: Prog, n: nat, picks: seq<nat>)
    requires LockInv(p, n)
    ensures Run(p, picks) != Stopped && LockInv(Run(p, picks).p, n)
    ensures Run(p, picks).Finished? ==> Run(p, picks).p.counter == n
    decreases |picks|
  {
    hide LockInv, Step;
    if picks != [] {
      StepKeepsLock(p, n, picks[0]);
      LockIsGood(p, n);
      StepKeeps(p, picks[0]);
      if Step(p, picks[0]).Next? {
        LockSafety(Step(p, picks[0]).p, n, picks[1..]);
      } else {
        FinishedIsOver(p);
        EveryStoreCounts(p, n);
      }
    }
  }

  lemma LockIsGood(p: Prog, n: nat)
    requires LockInv(p, n)
    ensures Good(p)
  {
  }

  lemma EveryStoreCounts(p: Prog, n: nat)
    requires LockInv(p, n) && Over(p)
    ensures p.counter == n
  {
    hide Inv;
    SumSame(HasStored, IsWorker, p.pc);
  }

  /** Part B ends, under the kernel's own FIFO scheduler, with the counter at n for every number
      of workers, although each of them yields inside the critical section. */
  lemma LockProgramCorrect(p: Prog, n: nat) returns (steps: nat)
    requires Start(p, n)
    ensures Run(p, Fifo(steps)).Finished? && Run(p, Fifo(steps)).p.counter == n
  {
    GoodIsSized(p);
    StartHolds(p, n);
    steps := Terminates(p);
    LockSafety(p, n, Fifo(steps));
  }
}
