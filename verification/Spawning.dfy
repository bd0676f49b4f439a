/** thread_spawn and the machine level together: the context that is prepared in a slot is the one with
    which the first switch to its thread starts. */
module Spawning {
  import opened Util
  import opened Memory
  import opened Riscv
  import opened ThreadKernel
  import opened ContextSwitch

  /** The thread object at `block` in memory holds p: struct thread begins with ra and sp, and start_fn
      and start_arg stand at 168 and 176. */
  predicate HoldsThread(m: Mem, block: Word, p: Preparation) {
    && block + 184 <= U64
    && Load64(m, block) == p.ra && Load64(m, block + 8) == p.sp
    && Load64(m, block + 168) == p.startFn && Load64(m, block + 176) == p.startArg
  }

  /** The first switch to a thread that was spawned in slot i: the trampoline runs on the slot's own stack,
      whose 4096 bytes overlap no other slot's and of which nothing is used yet (sp is its top, rounded
      down to 16), and calls the spawned function with its argument. The jalr of the trampoline stands at
      `call` and is `unit` bytes long. */
  lemma SpawnedSlotStarts(k: Kernel, i: nat, fn: nat, arg: nat, h: Hart, call: Word, unit: Word)
    requires i < |k.threads| && k.threads[i].Prepared() == k.PreparedFor(i, fn, arg)
    requires HoldsThread(h.mem, h.x[A0], k.threads[i].Prepared()) && h.x[TP] + CTX_SIZE <= U64
    requires h.x[TP] + CTX_SIZE <= h.x[A0] || h.x[A0] + THREAD_START_ARG + 8 <= h.x[TP]
    ensures var g := Exec(SWTCH, h);
            && g.x[RA] == k.threadSetup && g.x[TP] == h.x[A0]
            && (var top := k.stacks + 4096 * (i + 1); g.x[SP] == top - top % 16)
            && g.x[SP] % 16 == 0 && k.stacks + STACK_SIZE * i < g.x[SP] <= k.stacks + STACK_SIZE * (i + 1)
    ensures var (pc, s) := Advance(CALL_START, call, unit, Exec(SETUP, Exec(SWTCH, h)));
            && pc == fn - fn % 2 && s.x[A0] == arg && s.x[RA] == Following(call, unit)
            && s.x[SP] == Exec(SWTCH, h).x[SP] && s.x[TP] == h.x[A0]
  {
    hide Exec, Load64, Advance;
    var p := k.threads[i].Prepared();
    SpawnedThreadStarts(h, p.ra, p.sp, p.startFn, p.startArg, call, unit);
  }
}
