/** The whole trap path on a hart that changes in place: hardware, trap.S, trap.c and sret. */
module TrapHandler {
  import opened Util
  import opened Memory
  import opened Riscv
  import opened Bits
  import opened TrapFrame
  import opened TrapDispatch
  import opened UserRun

  /** Take a trap with the given cause at pc and run its handler. The compiled C code may leave
      anything in the registers it may use (`junk`) and in memory that is neither the frame nor the
      user's nor a shared cell (`scribble`). */
  method HandleTrap(board: Board, pc: Word, cause: Word, ghost user: set<int>, junk: Regs, scribble: Mem)
    returns (e: Ending, next: Word)
    requires cause == CAUSE_ECALL || cause == CAUSE_EXTERNAL
    requires Layout(user, board.cpu.csr.sscratch) && !Bit(board.cpu.csr.sstatus, SPP)
    requires forall a | a in scribble ::
               !InFrame(board.cpu.csr.sscratch - TF_SIZE, a) && !InCells(a) && a !in user
    modifies board, board.cpu
    ensures e.Returned? ==>
              && board.cpu.x == old(board.cpu.x)
              && SameUserMemory(user, board.cpu.mem, old(board.cpu.mem))
              && board.cpu.csr.sscratch == old(board.cpu.csr.sscratch) && !Bit(board.cpu.csr.sstatus, SPP)
              && next == if cause == CAUSE_ECALL then (pc + 4) % U64 else pc
    ensures e.Returned? && cause == CAUSE_EXTERNAL ==>
              && old(board.rx) != [] && board.rx == old(board.rx[1..])
              && Cells(board.cpu.mem) == (1, old(board.rx[0]))
              && board.lastClaim == 10 && board.lastByte == old(board.rx[0])
              && board.claims == old(board.claims) + [Claim(UART0_IRQ), Complete(UART0_IRQ)]
              && board.cpu.csr.sstatus == Put(old(board.cpu.csr.sstatus), SPIE, true)
    ensures e.Returned? && cause == CAUSE_ECALL && old(board.cpu.x[A7]) == SYS_REGCHECK ==>
              && board.State() == old(board.State()) && Cells(board.cpu.mem) == old(Cells(board.cpu.mem))
              && board.cpu.csr.sstatus == Put(old(board.cpu.csr.sstatus), SPIE, true)
    ensures e.Returned? && cause == CAUSE_ECALL && old(board.cpu.x[A7]) == SYS_ENABLE_IRQ ==>
              && board.State() == EnableUart(old(board.State())) && Cells(board.cpu.mem) == (0, 0)
              && board.cpu.csr.sstatus == Put(Put(old(board.cpu.csr.sstatus), SPIE, true), SIE, true)
    ensures cause == CAUSE_ECALL ==>
              e == if old(board.cpu.x[A7]) == SYS_REGCHECK || old(board.cpu.x[A7]) == SYS_ENABLE_IRQ then Returned
                   else if old(board.cpu.x[A7]) == SYS_EXIT then Exited(old(board.cpu.x[A0]))
                   else Halted
    ensures cause == CAUSE_EXTERNAL ==>
              e == if Best(old(board.State()), SOURCES - 1) == UART0_IRQ && old(board.rx) != [] then Returned
                   else Halted
  {
    hide Exec, ENTRY, EXIT, Bit, Entered, Dispatch, TrapStatus, SretStatus, Layout, Store64, Best, Cells,
         CReturns, HandleExternal, InFrame, InCells, Load64, EnableUart, StatusEnabled, CellsCleared, Handled,
         Resumed, SameUserMemory;
    var cpu := board.cpu;
    ghost var w := World(pc, cpu.State(), board.State());
    ghost var ksp := cpu.csr.sscratch;
    next := pc;
    RoomForFrame(user, ksp);
    cpu.csr := cpu.csr.(sepc := pc, scause := cause, sstatus := TrapStatus(cpu.csr.sstatus));
    cpu.Execute(ENTRY);
    ghost var h := cpu.State();
    EnteredIs(w, cause);
    FrameHolds(w, cause, ksp);
    DispatchEnds(w, cause, ksp);
    e := board.SupervisorTrapDispatch(cpu.x[A0]);
    if e != Returned {
      return;
    }
    ghost var m := cpu.mem;
    cpu.x := junk[SP := cpu.x[SP]][ZERO := cpu.x[ZERO]];
    cpu.mem := cpu.mem + scribble;
    ghost var c := cpu.State();
    Scribbled(user, h, m, c, scribble);
    cpu.Execute(EXIT);
    next := cpu.csr.sepc;
    cpu.csr := cpu.csr.(sstatus := SretStatus(cpu.csr.sstatus));
    HandledEffect(user, ksp, w, cause, m, board.State(), c, World(next, cpu.State(), board.State()));
  }

  /** What the user and the devices see of a trap that returns. */
  lemma HandledEffect(user: set<int>, ksp: Word, w: World, cause: Word, m: Mem, d: Dev, c: Hart, n: World)
    requires cause == CAUSE_ECALL || cause == CAUSE_EXTERNAL
    requires Layout(user, ksp) && UserMode(w, ksp)
    requires var h := Entered(w, cause); Dispatch(h.x[A0], h.mem, w.dev) == Return(m, d) && CReturns(user, h, m, c)
    requires n == (var g := Exec(EXIT, c);
                   World(g.csr.sepc, g.(csr := g.csr.(sstatus := SretStatus(g.csr.sstatus))), d))
    ensures n.h.x == w.h.x && SameUserMemory(user, n.h.mem, w.h.mem) && UserMode(n, ksp)
    ensures n.pc == if cause == CAUSE_ECALL then (w.pc + 4) % U64 else w.pc
    ensures cause == CAUSE_EXTERNAL ==>
              && w.dev.rx != [] && d.rx == w.dev.rx[1..] && Cells(n.h.mem) == (1, w.dev.rx[0])
              && d.lastClaim == 10 && d.lastByte == w.dev.rx[0]
              && d.claims == w.dev.claims + [Claim(UART0_IRQ), Complete(UART0_IRQ)]
              && n.h.csr.sstatus == Put(w.h.csr.sstatus, SPIE, true)
    ensures cause == CAUSE_ECALL && w.h.x[A7] == SYS_REGCHECK ==>
              && d == w.dev && Cells(n.h.mem) == Cells(w.h.mem)
              && n.h.csr.sstatus == Put(w.h.csr.sstatus, SPIE, true)
    ensures cause == CAUSE_ECALL && w.h.x[A7] == SYS_ENABLE_IRQ ==>
              && d == EnableUart(w.dev) && Cells(n.h.mem) == (0, 0)
              && n.h.csr.sstatus == Put(Put(w.h.csr.sstatus, SPIE, true), SIE, true)
  {
    hide Exec, EXIT, Bit, Entered, Dispatch, SretStatus, Layout, Best, Cells, CReturns, HandleExternal, EnableUart,
         PutBit;
    assert n == Resumed(c, d);
    if cause == CAUSE_EXTERNAL {
      InterruptTransparent(user, ksp, w, c, n);
      HandlerOutcome(Entered(w, cause).mem, w.dev);
    } else {
      SyscallTransparent(user, ksp, w, c, n);
    }
  }

  lemma EnteredIs(w: World, cause: Word)
    ensures Entered(w, cause) == Exec(ENTRY, Trapped(w, cause))
  {
  }

  /** Which way the dispatcher's call ends. */
  lemma DispatchEnds(w: World, cause: Word, ksp: Word)
    requires cause == CAUSE_ECALL || cause == CAUSE_EXTERNAL
    requires UserMode(w, ksp) && ksp > TF_SIZE
    ensures var h := Entered(w, cause); var o := Dispatch(h.x[A0], h.mem, w.dev); var call := w.h.x[A7];
            && (cause == CAUSE_ECALL ==>
                  && (o.Return? <==> call == SYS_REGCHECK || call == SYS_ENABLE_IRQ)
                  && (call == SYS_EXIT ==> o == Exit(w.h.x[A0])) && (o.Exit? ==> call == SYS_EXIT))
            && (cause == CAUSE_EXTERNAL ==>
                  && o == HandleExternal(h.mem, w.dev) && !o.Exit?
                  && (o.Return? <==> Best(w.dev, SOURCES - 1) == UART0_IRQ && w.dev.rx != []))
  {
    hide Entered, Dispatch, HandleExternal, Best, Bit;
    if cause == CAUSE_ECALL {
      SyscallDispatches(w, ksp);
    } else {
      InterruptDispatches(w, ksp);
      HandlerOutcome(Entered(w, cause).mem, w.dev);
    }
  }

  lemma Scribbled(user: set<int>, h: Hart, m: Mem, c: Hart, scribble: Mem)
    requires c.x[SP] == h.x[SP] && c.x[ZERO] == h.x[ZERO] && c.csr == h.csr && c.mem == m + scribble
    requires forall a | a in scribble :: !InFrame(h.x[SP], a) && !InCells(a) && a !in user
    ensures CReturns(user, h, m, c)
  {
  }
}
