/** A user program with traps: whole runs of user instructions, system calls, received bytes and
    external interrupts at any instruction boundary. */
module UserRun {
  import opened Util
  import opened Memory
  import opened Riscv
  import opened Bits
  import opened TrapFrame
  import opened TrapDispatch

  const CAUSE_ECALL: Word := SCAUSE_ECALL_U
  const CAUSE_EXTERNAL: Word := SCAUSE_INTERRUPT + SCAUSE_EXTERNAL_S

  /** The hart in user mode, between two instructions. */
  datatype World = World(pc: Word, h: Hart, dev: Dev)

  // ------------------------------------------------------------------ one trap

  /** Hardware takes the trap and supervisor_trap_entry runs up to its call of the dispatcher. */
  function Trapped(w: World, cause: Word): Hart {
    w.h.(csr := w.h.csr.(sepc := w.pc, scause := cause, sstatus := TrapStatus(w.h.csr.sstatus)))
  }

  function Entered(w: World, cause: Word): Hart {
    Exec(ENTRY, Trapped(w, cause))
  }

  /** From the dispatcher's return through sret. */
  function Resumed(c: Hart, d: Dev): World {
    var g := Exec(EXIT, c);
    World(g.csr.sepc, g.(csr := g.csr.(sstatus := SretStatus(g.csr.sstatus))), d)
  }

  /** sret goes to user mode if SPP is clear. */
  predicate ReturnsToUser(c: Hart) {
    !Bit(Exec(EXIT, c).csr.sstatus, SPP)
  }

  predicate InFrame(frame: int, a: int) {
    frame <= a < frame + TF_SIZE
  }

  predicate InCells(a: int) {
    USER_IRQ_FLAG <= a < USER_IRQ_FLAG + 16
  }

  /** What compiled C code must keep while a call leaves memory m: the stack pointer, the zero
      register and the CSRs, the frame, the user's memory and the two shared cells. Every other
      register and every other byte may be anything. */
  ghost predicate CReturns(user: set<int>, before: Hart, m: Mem, after: Hart) {
    && after.x[SP] == before.x[SP] && after.x[ZERO] == before.x[ZERO] && after.csr == before.csr
    && forall a | InFrame(before.x[SP], a) || InCells(a) || a in user :: Peek(after.mem, a) == Peek(m, a)
  }

  /** A trap that is handled: c is the hart as the dispatcher leaves it. */
  ghost predicate Handled(user: set<int>, w: World, cause: Word, c: Hart, next: World) {
    var h := Entered(w, cause);
    match Dispatch(h.x[A0], h.mem, w.dev)
    case Return(m, d) => CReturns(user, h, m, c) && next == Resumed(c, d)
    case Halt => false
    case Exit(_) => false
  }

  /** The same while bytes arrive at two moments during the dispatcher. */
  ghost predicate HandledDuring(
      user: set<int>, w: World, cause: Word, early: seq<Byte>, late: seq<Byte>, c: Hart, next: World) {
    var h := Entered(w, cause);
    match DispatchDuring(h.x[A0], h.mem, w.dev, early, late)
    case Return(m, d) => CReturns(user, h, m, c) && next == Resumed(c, d)
    case Halt => false
    case Exit(_) => false
  }

  /** Such bytes change nothing but the devices after the trap. */
  lemma HandledThenReceived(
      user: set<int>, w: World, cause: Word, early: seq<Byte>, late: seq<Byte>, c: Hart, next: World)
    returns (q: World)
    requires HandledDuring(user, w, cause, early, late, c, next) && (UART0_IRQ in w.dev.pending ==> w.dev.rx != [])
    ensures Handled(user, w, cause, c, q) && next == q.(dev := Received(q.dev, early + late))
  {
    hide Exec, Entered, Dispatch, DispatchDuring, Received, CReturns;
    var h := Entered(w, cause);
    DispatchBeforeLate(h.x[A0], h.mem, w.dev, early, late);
    q := Resumed(c, Dispatch(h.x[A0], h.mem, w.dev).dev);
  }

  /** And a trap that is handled is handled whatever arrives meanwhile. */
  lemma HandledAnyway(
      user: set<int>, w: World, cause: Word, early: seq<Byte>, late: seq<Byte>, c: Hart, q: World)
    requires Handled(user, w, cause, c, q) && (UART0_IRQ in w.dev.pending ==> w.dev.rx != [])
    ensures HandledDuring(user, w, cause, early, late, c, q.(dev := Received(q.dev, early + late)))
  {
    hide Exec, Entered, Dispatch, DispatchDuring, Received, CReturns;
    var h := Entered(w, cause);
    DispatchBeforeLate(h.x[A0], h.mem, w.dev, early, late);
  }

  /** The kernel stack pointer ksp leaves room for a frame, apart from the user's memory and from the
      two cells that the kernel shares with the user; the user's memory holds no part of them. */
  predicate Layout(user: set<int>, ksp: Word) {
    && ksp > TF_SIZE
    && (ksp <= USER_IRQ_FLAG || ksp - TF_SIZE >= USER_IRQ_FLAG + 16)
    && forall a | a in user :: !InFrame(ksp - TF_SIZE, a) && !InCells(a)
  }

  /** What holds of the hart whenever it is in user mode. */
  predicate UserMode(w: World, ksp: Word) {
    w.h.csr.sscratch == ksp && !Bit(w.h.csr.sstatus, SPP)
  }

  lemma RoomForFrame(user: set<int>, ksp: Word)
    requires Layout(user, ksp)
    ensures ksp > TF_SIZE
  {
  }

  predicate SameUserMemory(user: set<int>, m: Mem, n: Mem) {
    forall a | a in user :: Peek(m, a) == Peek(n, a)
  }

  function Saved(w: World, cause: Word): (r: seq<Word>)
    ensures |r| == 34
  {
    FrameOf(Trapped(w, cause))
  }

  /** The slots that the handler and the exit look at. */
  lemma SavedSlots(w: World, cause: Word)
    ensures var s := Saved(w, cause);
            && s[..30] == Values(w.h.x, GENERAL) && s[8] == w.h.x[A0] && s[15] == w.h.x[A7]
            && s[30] == w.h.x[SP] && s[31] == w.pc && s[32] == TrapStatus(w.h.csr.sstatus) && s[33] == cause
  {
    hide TrapStatus, GENERAL;
    Slots();
  }

  /** After the entry the frame holds the interrupted state and the rest of memory is untouched. */
  lemma FrameHolds(w: World, cause: Word, ksp: Word)
    requires UserMode(w, ksp) && ksp > TF_SIZE
    ensures var h := Entered(w, cause); var frame := ksp - TF_SIZE;
            && h.x[SP] == frame && h.x[A0] == frame && h.x[ZERO] == w.h.x[ZERO]
            && h.csr.sscratch == w.h.x[SP] && h.csr.sstatus == TrapStatus(w.h.csr.sstatus)
            && LoadWords(h.mem, frame, 34) == Saved(w, cause)
            && forall a | !InFrame(frame, a) :: Peek(h.mem, a) == Peek(w.h.mem, a)
  {
    hide Exec, ENTRY, TrapStatus, Bit, SaveWords, LoadWords, FrameOf;
    EntrySavesAll(Trapped(w, cause));
    var h := Entered(w, cause);
    var frame := ksp - TF_SIZE;
    forall a | !InFrame(frame, a) ensures Peek(h.mem, a) == Peek(w.h.mem, a) {
      SaveFrame(w.h.mem, frame, Saved(w, cause), a);
    }
  }

  /** The exit and sret put the hart back as the frame says. */
  lemma FrameRestored(c: Hart, d: Dev, ksp: Word, x: Regs, words: seq<Word>)
    requires c.x[SP] == ksp - TF_SIZE && c.x[ZERO] == x[ZERO] && c.csr.sscratch == x[SP] && |words| == 34
    requires LoadWords(c.mem, c.x[SP], 34) == words && words[..30] == Values(x, GENERAL)
    ensures var r := Resumed(c, d);
            && r.h.x == x && r.pc == words[31] && r.h.csr.sscratch == ksp && r.h.csr.sstatus == SretStatus(words[32])
            && r.h.mem == c.mem && r.dev == d
    ensures ReturnsToUser(c) <==> !Bit(words[32], SPP)
  {
    hide Exec, EXIT, SretStatus, Bit, LoadWords, Values, GENERAL;
    ExitRestoresAll(c);
    AllRegisters(Resumed(c, d).h.x, x);
  }

  /** Overwriting one slot of a block. */
  lemma SlotStored(m: Mem, a: int, n: nat, k: nat, v: Word)
    requires k < n
    ensures LoadWords(Store64(m, a + 8 * k, v), a, n) == LoadWords(m, a, n)[k := v]
  {
    hide Load64, Store64;
    forall j | 0 <= j < n && j != k ensures Load64(Store64(m, a + 8 * k, v), a + 8 * j) == Load64(m, a + 8 * j) {
      OtherSlot(m, a, k, v, j);
    }
    LoadStored(m, a + 8 * k, v);
  }

  lemma OtherSlot(m: Mem, a: int, k: nat, v: Word, j: nat)
    requires j != k
    ensures Load64(Store64(m, a + 8 * k, v), a + 8 * j) == Load64(m, a + 8 * j)
  {
    LoadAgrees(Store64(m, a + 8 * k, v), m, a + 8 * j);
  }

  /** A store of a word touches its eight bytes only. */
  lemma StoreFrame(m: Mem, a: int, v: Word, b: int)
    requires b < a || b >= a + 8
    ensures Peek(Store64(m, a, v), b) == Peek(m, b)
  {
  }

  /** The frame as the C code leaves it is the frame that the exit reads. */
  lemma FrameKept(user: set<int>, h: Hart, m: Mem, c: Hart, words: seq<Word>)
    requires CReturns(user, h, m, c) && LoadWords(m, h.x[SP], 34) == words
    ensures LoadWords(c.mem, c.x[SP], 34) == words
  {
    hide Peek;
    var frame: int := h.x[SP];
    forall b | frame <= b < frame + 8 * 34 ensures Peek(c.mem, b) == Peek(m, b) {
      assert InFrame(frame, b);
    }
    LoadWordsAgree(c.mem, m, frame, 34);
  }

  // ------------------------------------------------------------------ an external interrupt

  /** What the dispatcher sees of an external interrupt is the handler's outcome. */
  lemma InterruptDispatches(w: World, ksp: Word)
    requires UserMode(w, ksp) && ksp > TF_SIZE
    ensures var h := Entered(w, CAUSE_EXTERNAL);
            Dispatch(h.x[A0], h.mem, w.dev) == HandleExternal(h.mem, w.dev)
  {
    hide Exec, ENTRY, Bit, LoadWords, Saved, Entered, Trapped, Load64, Store64, HandleExternal, StatusEnabled,
         CellsCleared, EnableUart, TrapStatus;
    FrameHolds(w, CAUSE_EXTERNAL, ksp);
    SavedSlots(w, CAUSE_EXTERNAL);
    SlotLoaded(Entered(w, CAUSE_EXTERNAL).mem, ksp - TF_SIZE, 34, 33);
  }

  /** USER_IRQ_FLAG and USER_IRQ_BYTE. */
  function Cells(m: Mem): (Word, Word) {
    (Load64(m, USER_IRQ_FLAG), Load64(m, USER_IRQ_BYTE))
  }

  /** Writing the two cells touches neither the frame nor the user's memory. */
  lemma CellsApart(user: set<int>, ksp: Word, m: Mem, byte: Word, flag: Word)
    requires Layout(user, ksp)
    ensures var n := Store64(Store64(m, USER_IRQ_BYTE, byte), USER_IRQ_FLAG, flag);
            && LoadWords(n, ksp - TF_SIZE, 34) == LoadWords(m, ksp - TF_SIZE, 34)
            && SameUserMemory(user, n, m) && Cells(n) == (flag, byte)
  {
    hide Store64, Load64, LoadWords, Peek;
    var m1 := Store64(m, USER_IRQ_BYTE, byte);
    var n := Store64(m1, USER_IRQ_FLAG, flag);
    forall a | !InCells(a) ensures Peek(n, a) == Peek(m, a) {
      StoreFrame(m, USER_IRQ_BYTE, byte, a);
      StoreFrame(m1, USER_IRQ_FLAG, flag, a);
    }
    LoadWordsAgree(n, m, ksp - TF_SIZE, 34);
    LoadStored(m1, USER_IRQ_FLAG, flag);
    LoadStored(m, USER_IRQ_BYTE, byte);
    OtherSlot(m1, USER_IRQ_FLAG, 0, flag, 1);
  }

  lemma CellsKept(user: set<int>, h: Hart, m: Mem, c: Hart)
    requires CReturns(user, h, m, c)
    ensures Cells(c.mem) == Cells(m)
  {
    hide Peek, Load64;
    forall b | USER_IRQ_FLAG <= b < USER_IRQ_FLAG + 16 ensures Peek(c.mem, b) == Peek(m, b) {
      assert InCells(b);
    }
    LoadAgrees(c.mem, m, USER_IRQ_FLAG);
    LoadAgrees(c.mem, m, USER_IRQ_BYTE);
  }

  /** A handled interrupt gives the user back its pc, all its registers and its memory; the two cells
      show the byte that the handler took, and sscratch again holds the kernel's stack pointer. */
  lemma InterruptTransparent(user: set<int>, ksp: Word, w: World, c: Hart, next: World)
    requires Layout(user, ksp) && UserMode(w, ksp) && Handled(user, w, CAUSE_EXTERNAL, c, next)
    ensures next.pc == w.pc && next.h.x == w.h.x && SameUserMemory(user, next.h.mem, w.h.mem)
    ensures UserMode(next, ksp) && ReturnsToUser(c)
    ensures next.h.csr.sstatus == Put(w.h.csr.sstatus, SPIE, true)
    ensures w.dev.rx != [] && Cells(next.h.mem) == (1, w.dev.rx[0])
    ensures HandleExternal(Entered(w, CAUSE_EXTERNAL).mem, w.dev).Return?
    ensures next.dev == HandleExternal(Entered(w, CAUSE_EXTERNAL).mem, w.dev).dev
  {
    hide Exec, Bit, LoadWords, HandleExternal, Best, Saved, Entered, Trapped, Store64, Peek, Resumed,
         TrapStatus, SretStatus, PutBit, ReturnsToUser, Cells, GENERAL, Layout;
    var h := Entered(w, CAUSE_EXTERNAL);
    RoomForFrame(user, ksp);
    FrameHolds(w, CAUSE_EXTERNAL, ksp);
    CellsOutsideFrame(user, ksp, h.mem, w.h.mem);
    SavedSlots(w, CAUSE_EXTERNAL);
    InterruptDispatches(w, ksp);
    HandlerOutcome(h.mem, w.dev);
    var o := HandleExternal(h.mem, w.dev);
    CellsApart(user, ksp, h.mem, w.dev.rx[0], 1);
    FrameKept(user, h, o.mem, c, Saved(w, CAUSE_EXTERNAL));
    FrameRestored(c, o.dev, ksp, w.h.x, Saved(w, CAUSE_EXTERNAL));
    CellsKept(user, h, o.mem, c);
    TrapThenSret(w.h.csr.sstatus);
    SppAfter(w.h.csr.sstatus);
  }

  lemma SppAfter(s: Word)
    requires !Bit(s, SPP)
    ensures !Bit(Put(s, SPIE, true), SPP) && !Bit(Put(Put(s, SPIE, true), SIE, true), SPP)
  {
    hide Bit, PutBit;
    BitPut(s, SPIE, true, SPP);
    BitPut(Put(s, SPIE, true), SIE, true, SPP);
  }

  // ------------------------------------------------------------------ a system call

  /** The system call's number and argument are the user's own a7 and a0: 1 returns, 2 enables the
      UART interrupt and returns, 3 exits with a0, and any other number halts. */
  lemma SyscallDispatches(w: World, ksp: Word)
    requires UserMode(w, ksp) && ksp > TF_SIZE
    ensures var h := Entered(w, CAUSE_ECALL); var frame := ksp - TF_SIZE; var call := w.h.x[A7];
            var m := Store64(h.mem, frame + TF_SEPC, (w.pc + 4) % U64);
            Dispatch(h.x[A0], h.mem, w.dev) ==
              if call == SYS_REGCHECK then Return(m, w.dev)
              else if call == SYS_ENABLE_IRQ then Return(StatusEnabled(CellsCleared(m), frame), EnableUart(w.dev))
              else if call == SYS_EXIT then Exit(w.h.x[A0])
              else Halt
  {
    hide Exec, ENTRY, Bit, LoadWords, Saved, Entered, Trapped, Load64, Store64, StatusEnabled, CellsCleared,
         EnableUart, TrapStatus;
    var h := Entered(w, CAUSE_ECALL);
    var frame := ksp - TF_SIZE;
    FrameHolds(w, CAUSE_ECALL, ksp);
    SavedSlots(w, CAUSE_ECALL);
    SlotLoaded(h.mem, frame, 34, 33);
    SlotLoaded(h.mem, frame, 34, 31);
    SlotLoaded(h.mem, frame, 34, 15);
    SlotLoaded(h.mem, frame, 34, 8);
    OtherSlot(h.mem, frame, 31, (w.pc + 4) % U64, 15);
    OtherSlot(h.mem, frame, 31, (w.pc + 4) % U64, 8);
  }

  lemma SlotLoaded(m: Mem, a: int, n: nat, k: nat)
    requires k < n
    ensures Load64(m, a + 8 * k) == LoadWords(m, a, n)[k]
  {
  }

  /** Advancing the saved pc. */
  lemma SepcStored(user: set<int>, ksp: Word, m: Mem, v: Word)
    requires Layout(user, ksp)
    ensures var frame := ksp - TF_SIZE; var n := Store64(m, frame + TF_SEPC, v);
            && LoadWords(n, frame, 34) == LoadWords(m, frame, 34)[31 := v]
            && SameUserMemory(user, n, m) && Cells(n) == Cells(m)
  {
    hide Store64, Load64, LoadWords, Peek;
    FrameStore(user, ksp, m, 31, v);
  }

  lemma FrameStore(user: set<int>, ksp: Word, m: Mem, k: nat, v: Word)
    requires Layout(user, ksp) && k < 34
    ensures var frame := ksp - TF_SIZE; var n := Store64(m, frame + 8 * k, v);
            && LoadWords(n, frame, 34) == LoadWords(m, frame, 34)[k := v]
            && SameUserMemory(user, n, m) && Cells(n) == Cells(m)
  {
    hide Store64, Load64, LoadWords, Peek;
    var frame := ksp - TF_SIZE;
    var n := Store64(m, frame + 8 * k, v);
    SlotStored(m, frame, 34, k, v);
    forall a | !InFrame(frame, a) ensures Peek(n, a) == Peek(m, a) {
      StoreFrame(m, frame + 8 * k, v, a);
    }
    LoadAgrees(n, m, USER_IRQ_FLAG);
    LoadAgrees(n, m, USER_IRQ_BYTE);
  }

  /** What the two returning system calls leave in memory. */
  lemma SyscallMemory(user: set<int>, ksp: Word, m: Mem, pc: Word, words: seq<Word>)
    requires Layout(user, ksp) && LoadWords(m, ksp - TF_SIZE, 34) == words
    ensures var frame := ksp - TF_SIZE; var m1 := Store64(m, frame + TF_SEPC, pc);
            var m2 := StatusEnabled(CellsCleared(m1), frame);
            && LoadWords(m1, frame, 34) == words[31 := pc] && SameUserMemory(user, m1, m) && Cells(m1) == Cells(m)
            && LoadWords(m2, frame, 34) == words[31 := pc][32 := Put(words[32], SPIE, true)]
            && SameUserMemory(user, m2, m) && Cells(m2) == (0, 0)
  {
    hide Store64, Load64, LoadWords, Peek, Cells, PutBit, Bit, Layout;
    var frame := ksp - TF_SIZE;
    var m1 := Store64(m, frame + TF_SEPC, pc);
    SepcStored(user, ksp, m, pc);
    CellsApartCleared(user, ksp, m1);
    var m2 := CellsCleared(m1);
    SlotLoaded(m2, frame, 34, 32);
    FrameStore(user, ksp, m2, 32, Put(words[32], SPIE, true));
  }

  lemma CellsApartCleared(user: set<int>, ksp: Word, m: Mem)
    requires Layout(user, ksp)
    ensures var n := CellsCleared(m);
            && LoadWords(n, ksp - TF_SIZE, 34) == LoadWords(m, ksp - TF_SIZE, 34)
            && SameUserMemory(user, n, m) && Cells(n) == (0, 0)
  {
    hide Store64, Load64, LoadWords, Peek;
    var m1 := Store64(m, USER_IRQ_FLAG, 0);
    var n := Store64(m1, USER_IRQ_BYTE, 0);
    forall a | !InCells(a) ensures Peek(n, a) == Peek(m, a) {
      StoreFrame(m, USER_IRQ_FLAG, 0, a);
      StoreFrame(m1, USER_IRQ_BYTE, 0, a);
    }
    LoadWordsAgree(n, m, ksp - TF_SIZE, 34);
    LoadStored(m1, USER_IRQ_BYTE, 0);
    LoadStored(m, USER_IRQ_FLAG, 0);
    OtherSlot(m1, USER_IRQ_FLAG, 1, 0, 0);
  }

  /** A system call that returns continues after the ecall with all registers and the user's memory
      unchanged; only the enabling call touches the cells, the devices and SIE. */
  lemma SyscallTransparent(user: set<int>, ksp: Word, w: World, c: Hart, next: World)
    requires Layout(user, ksp) && UserMode(w, ksp) && Handled(user, w, CAUSE_ECALL, c, next)
    ensures next.pc == (w.pc + 4) % U64 && next.h.x == w.h.x && SameUserMemory(user, next.h.mem, w.h.mem)
    ensures UserMode(next, ksp) && ReturnsToUser(c)
    ensures w.h.x[A7] == SYS_REGCHECK || w.h.x[A7] == SYS_ENABLE_IRQ
    ensures w.h.x[A7] == SYS_REGCHECK ==>
              && next.dev == w.dev && Cells(next.h.mem) == Cells(w.h.mem)
              && next.h.csr.sstatus == Put(w.h.csr.sstatus, SPIE, true)
    ensures w.h.x[A7] == SYS_ENABLE_IRQ ==>
              && next.dev == EnableUart(w.dev) && Cells(next.h.mem) == (0, 0)
              && next.h.csr.sstatus == Put(Put(w.h.csr.sstatus, SPIE, true), SIE, true)
  {
    hide Exec, Bit, LoadWords, Saved, Entered, Trapped, Store64, Load64, Peek, Resumed, TrapStatus, SretStatus,
         PutBit, ReturnsToUser, Cells, GENERAL, StatusEnabled, CellsCleared, EnableUart, Layout;
    var h := Entered(w, CAUSE_ECALL);
    var s := Saved(w, CAUSE_ECALL);
    var pc := (w.pc + 4) % U64;
    RoomForFrame(user, ksp);
    FrameHolds(w, CAUSE_ECALL, ksp);
    SavedSlots(w, CAUSE_ECALL);
    SyscallDispatches(w, ksp);
    SyscallMemory(user, ksp, h.mem, pc, s);
    CellsOutsideFrame(user, ksp, h.mem, w.h.mem);
    var o := Dispatch(h.x[A0], h.mem, w.dev);
    CellsKept(user, h, o.mem, c);
    var words := if w.h.x[A7] == SYS_REGCHECK then s[31 := pc] else s[31 := pc][32 := Put(s[32], SPIE, true)];
    assert words[..30] == s[..30];
    FrameKept(user, h, o.mem, c, words);
    FrameRestored(c, o.dev, ksp, w.h.x, words);
    TrapThenSret(w.h.csr.sstatus);
    TrapThenEnablingSret(w.h.csr.sstatus);
    SppAfter(w.h.csr.sstatus);
  }

  lemma CellsOutsideFrame(user: set<int>, ksp: Word, m: Mem, n: Mem)
    requires Layout(user, ksp) && forall a | !InFrame(ksp - TF_SIZE, a) :: Peek(m, a) == Peek(n, a)
    ensures Cells(m) == Cells(n) && SameUserMemory(user, m, n)
  {
    hide Peek, Load64;
    LoadAgrees(m, n, USER_IRQ_FLAG);
    LoadAgrees(m, n, USER_IRQ_BYTE);
  }

  // ------------------------------------------------------------------ no interrupt inside a handler

  /** Interrupts are off before every instruction of the handler's assembly and when the dispatcher
      returns, for both kinds of trap, so that no second trap can take the frame's place. (The
      dispatcher itself writes memory and devices only: see the frames of class Board.) */
  lemma HandlerMasked(user: set<int>, ksp: Word, w: World, cause: Word, c: Hart, next: World, i: nat, j: nat)
    requires Layout(user, ksp) && UserMode(w, ksp) && Handled(user, w, cause, c, next)
    requires cause == CAUSE_ECALL || cause == CAUSE_EXTERNAL
    requires i <= |ENTRY| && j <= |EXIT|
    ensures !Bit(Exec(ENTRY[..i], Trapped(w, cause)).csr.sstatus, SIE)
    ensures c.csr == Entered(w, cause).csr && !Bit(c.csr.sstatus, SIE)
    ensures !Bit(Exec(EXIT[..j], c).csr.sstatus, SIE)
  {
    hide Exec, ENTRY, EXIT, Bit, Load64, Layout, Entered, Dispatch, TrapStatus, SretStatus, LoadWords, FrameOf, Saved;
    RoomForFrame(user, ksp);
    TrapThenSret(w.h.csr.sstatus);
    TrapThenEnablingSret(w.h.csr.sstatus);
    EntryMasked(Trapped(w, cause), i);
    FrameHolds(w, cause, ksp);
    SavedStatusMasked(user, ksp, w, cause, c, next);
    ExitMasked(c, j);
  }

  /** The status that the frame gives back has SIE off. */
  lemma SavedStatusMasked(user: set<int>, ksp: Word, w: World, cause: Word, c: Hart, next: World)
    requires Layout(user, ksp) && UserMode(w, ksp) && Handled(user, w, cause, c, next)
    requires cause == CAUSE_ECALL || cause == CAUSE_EXTERNAL
    ensures !Bit(Load64(c.mem, c.x[SP] + TF_SSTATUS), SIE)
  {
    hide Exec, Bit, LoadWords, Saved, Entered, Trapped, Store64, Load64, Peek, Resumed, TrapStatus, SretStatus,
         PutBit, GENERAL, StatusEnabled, CellsCleared, EnableUart, HandleExternal, Layout;
    var h := Entered(w, cause);
    var s := Saved(w, cause);
    RoomForFrame(user, ksp);
    FrameHolds(w, cause, ksp);
    SavedSlots(w, cause);
    var words := s;
    if cause == CAUSE_ECALL {
      var pc := (w.pc + 4) % U64;
      SyscallDispatches(w, ksp);
      SyscallMemory(user, ksp, h.mem, pc, s);
      words := if w.h.x[A7] == SYS_REGCHECK then s[31 := pc] else s[31 := pc][32 := Put(s[32], SPIE, true)];
    } else {
      InterruptDispatches(w, ksp);
      HandlerOutcome(h.mem, w.dev);
      CellsApart(user, ksp, h.mem, w.dev.rx[0], 1);
    }
    FrameKept(user, h, Dispatch(h.x[A0], h.mem, w.dev).mem, c, words);
    SlotLoaded(c.mem, c.x[SP], 34, 32);
    TrapThenSret(w.h.csr.sstatus);
    TrapThenEnablingSret(w.h.csr.sstatus);
  }

  /** The same whatever arrives during the trap. */
  lemma HandlerMaskedDuring(user: set<int>, ksp: Word, w: World, cause: Word, early: seq<Byte>, late: seq<Byte>,
                            c: Hart, next: World, i: nat, j: nat)
    requires Layout(user, ksp) && UserMode(w, ksp) && HandledDuring(user, w, cause, early, late, c, next)
    requires UART0_IRQ in w.dev.pending ==> w.dev.rx != []
    requires cause == CAUSE_ECALL || cause == CAUSE_EXTERNAL
    requires i <= |ENTRY| && j <= |EXIT|
    ensures !Bit(Exec(ENTRY[..i], Trapped(w, cause)).csr.sstatus, SIE)
    ensures c.csr == Entered(w, cause).csr && !Bit(c.csr.sstatus, SIE)
    ensures !Bit(Exec(EXIT[..j], c).csr.sstatus, SIE)
  {
    hide Exec, ENTRY, EXIT, Bit, Layout, Entered, HandledDuring, Handled, Trapped, Received;
    var q := HandledThenReceived(user, w, cause, early, late, c, next);
    HandlerMasked(user, ksp, w, cause, c, q, i, j);
  }
}
