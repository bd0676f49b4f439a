/** Lab 15 over whole runs: external interrupts, however many and wherever they fall, do not show in
    the user's computation, and no received byte is lost, repeated or handled without completion. */
module Transparency {
  import opened Util
  import opened Memory
  import opened Riscv
  import opened Bits
  import opened TrapFrame
  import opened TrapDispatch
  import opened UserRun

  // ------------------------------------------------------------------ the user program

  /** All that a user instruction can see: the pc, the registers and the user's memory. */
  datatype View = View(pc: Word, x: Regs, mem: map<int, Byte>)

  /** An instruction makes the next view, calls the system, or faults. */
  datatype Act = Retire(next: View) | Ecall | Fault

  type Program = View -> Act

  /** The program keeps to its memory. */
  ghost predicate Confined(prog: Program, user: set<int>) {
    forall v: View | v.mem.Keys == user && prog(v).Retire? :: prog(v).next.mem.Keys == user
  }

  function ViewOf(user: set<int>, w: World): View {
    View(w.pc, w.h.x, map a | a in user :: Peek(w.h.mem, a))
  }

  /** The program on its own: a system call does nothing but continue after the ecall. */
  function AloneStep(prog: Program, v: View): View {
    match prog(v)
    case Retire(next) => next
    case Ecall => v.(pc := (v.pc + 4) % U64)
    case Fault => v
  }

  function Alone(prog: Program, v: View, n: nat): View {
    if n == 0 then v else AloneStep(prog, Alone(prog, v, n - 1))
  }

  // ------------------------------------------------------------------ runs

  /** What can happen in user mode; c is the hart as the compiled C code leaves it, and early and late
      are the bytes that arrive while the handler runs. */
  datatype Event =
    | Retired
    | Syscall(c: Hart, early: seq<Byte>, late: seq<Byte>)
    | Interrupted(c: Hart, early: seq<Byte>, late: seq<Byte>)
    | Arrived(byte: Byte)
    | Raised(source: nat)

  function AfterRetire(w: World, v: View): World {
    World(v.pc, w.h.(x := v.x, mem := w.h.mem + v.mem), w.dev)
  }

  /** What happens from outside the user program. */
  ghost predicate Outside(user: set<int>, w: World, e: Event, next: World) {
    match e
    case Interrupted(c, early, late) =>
      Deliverable(w.dev) && HandledDuring(user, w, CAUSE_EXTERNAL, early, late, c, next)
    case Arrived(b) => next == w.(dev := Gate(w.dev.(rx := w.dev.rx + [b])))
    case Raised(s) => 1 <= s < SOURCES && s != UART0_IRQ && next == w.(dev := w.dev.(pending := w.dev.pending + {s}))
    case _ => false
  }

  ghost predicate Next(prog: Program, user: set<int>, w: World, e: Event, next: World) {
    match e
    case Retired => prog(ViewOf(user, w)).Retire? && next == AfterRetire(w, prog(ViewOf(user, w)).next)
    case Syscall(c, early, late) =>
      prog(ViewOf(user, w)).Ecall? && HandledDuring(user, w, CAUSE_ECALL, early, late, c, next)
    case _ => Outside(user, w, e, next)
  }

  ghost predicate IsRun(prog: Program, user: set<int>, ws: seq<World>, es: seq<Event>) {
    && |ws| == |es| + 1
    && forall k | 0 <= k < |es| :: Next(prog, user, ws[k], es[k], ws[k + 1])
  }

  function UserSteps(es: seq<Event>): nat {
    if es == [] then 0
    else UserSteps(es[..|es| - 1]) + (if es[|es| - 1].Retired? || es[|es| - 1].Syscall? then 1 else 0)
  }

  /** The bytes that arrive with an event. */
  function BytesOf(e: Event): seq<Byte> {
    match e
    case Arrived(b) => [b]
    case Syscall(_, early, late) => early + late
    case Interrupted(_, early, late) => early + late
    case _ => []
  }

  function Arrivals(es: seq<Event>): seq<Byte> {
    if es == [] then [] else Arrivals(es[..|es| - 1]) + BytesOf(es[|es| - 1])
  }

  /** A claim and a completion of source 10 for every interrupt. */
  function ClaimsOf(es: seq<Event>): seq<PlicOp> {
    if es == [] then []
    else ClaimsOf(es[..|es| - 1]) +
         (if es[|es| - 1].Interrupted? then [Claim(UART0_IRQ), Complete(UART0_IRQ)] else [])
  }

  // ------------------------------------------------------------------ what every state keeps

  /** In user mode no source is in service, and the UART's request is pending exactly while it holds a
      byte and may interrupt. */
  ghost predicate Quiet(d: Dev) {
    d.inService == {} && (UART0_IRQ in d.pending <==> d.rx != [] && d.drie)
  }

  ghost predicate Good(ksp: Word, w: World) {
    UserMode(w, ksp) && Quiet(w.dev)
  }

  lemma ViewAfterRetire(prog: Program, user: set<int>, w: World)
    requires Confined(prog, user) && prog(ViewOf(user, w)).Retire?
    requires forall a | a in user :: !InCells(a)
    ensures var next := AfterRetire(w, prog(ViewOf(user, w)).next);
            ViewOf(user, next) == prog(ViewOf(user, w)).next && Cells(next.h.mem) == Cells(w.h.mem)
  {
    hide Load64;
    var v := prog(ViewOf(user, w)).next;
    assert ViewOf(user, w).mem.Keys == user;
    var m := w.h.mem + v.mem;
    assert forall a :: Peek(m, a) == if a in user then v.mem[a] else Peek(w.h.mem, a);
    assert (map a | a in user :: Peek(m, a)) == v.mem;
    LoadAgrees(m, w.h.mem, USER_IRQ_FLAG);
    LoadAgrees(m, w.h.mem, USER_IRQ_BYTE);
  }

  lemma SameView(user: set<int>, v: World, w: World)
    requires v.pc == w.pc && v.h.x == w.h.x && SameUserMemory(user, v.h.mem, w.h.mem)
    ensures ViewOf(user, v) == ViewOf(user, w)
  {
  }

  lemma UserIsNotCells(user: set<int>, ksp: Word)
    requires Layout(user, ksp)
    ensures forall a | a in user :: !InCells(a)
  {
  }

  /** An event from outside: the user's pc, registers and memory stay, and the bytes are conserved. */
  lemma OutsideKeeps(user: set<int>, ksp: Word, w: World, e: Event, next: World)
    requires Layout(user, ksp) && Good(ksp, w) && Outside(user, w, e, next)
    ensures Good(ksp, next) && next.pc == w.pc && next.h.x == w.h.x && SameUserMemory(user, next.h.mem, w.h.mem)
    ensures next.dev.taken + next.dev.rx == w.dev.taken + w.dev.rx + BytesOf(e)
    ensures next.dev.claims == w.dev.claims + (if e.Interrupted? then [Claim(UART0_IRQ), Complete(UART0_IRQ)] else [])
    ensures e.Interrupted? ==> w.dev.rx != [] && next.dev.taken == w.dev.taken + [w.dev.rx[0]]
    ensures e.Interrupted? ==> next.dev.lastClaim == 10 && next.dev.lastByte == w.dev.rx[0]
    ensures !e.Interrupted? ==>
              && next.dev.taken == w.dev.taken
              && next.dev.lastClaim == w.dev.lastClaim && next.dev.lastByte == w.dev.lastByte
    ensures Cells(next.h.mem) == if e.Interrupted? then (1, w.dev.rx[0]) else Cells(w.h.mem)
  {
    hide HandledDuring, Handled, Layout, Bit, Peek, HandleExternal, Best, Entered, ReturnsToUser, Cells, PutBit,
         Deliverable, Received;
    match e
    case Interrupted(c, early, late) =>
      var q := HandledThenReceived(user, w, CAUSE_EXTERNAL, early, late, c, next);
      InterruptTransparent(user, ksp, w, c, q);
      HandlerOutcome(Entered(w, CAUSE_EXTERNAL).mem, w.dev);
      ReceivedKeeps(q.dev, early + late);
    case Arrived(b) =>
      assert w.dev.taken + (w.dev.rx + [b]) == w.dev.taken + w.dev.rx + [b];
    case Raised(s) =>
  }

  /** Bytes that arrive in a quiet state. */
  lemma ReceivedKeeps(d: Dev, bytes: seq<Byte>)
    requires Quiet(d)
    ensures var e := Received(d, bytes);
            && Quiet(e) && e.taken == d.taken && e.claims == d.claims && e.enable == d.enable
            && e.lastClaim == d.lastClaim && e.lastByte == d.lastByte
            && e.taken + e.rx == d.taken + d.rx + bytes
  {
    hide Received;
    ReceivedIs(d, bytes);
    assert d.rx + bytes == [] <==> d.rx == [] && bytes == [];
    assert d.taken + (d.rx + bytes) == d.taken + d.rx + bytes;
  }

  lemma EnableIsQuiet(d: Dev)
    requires Quiet(d)
    ensures var e := EnableUart(d);
            && Quiet(e) && e.taken == d.taken && e.rx == d.rx && e.claims == d.claims
            && e.lastClaim == d.lastClaim && e.lastByte == d.lastByte
  {
    hide Bit, PutBit;
  }

  /** A system call that returns, whatever arrives meanwhile. */
  lemma SyscallKeeps(user: set<int>, ksp: Word, w: World, c: Hart, early: seq<Byte>, late: seq<Byte>, next: World)
    requires Layout(user, ksp) && Good(ksp, w) && HandledDuring(user, w, CAUSE_ECALL, early, late, c, next)
    ensures Good(ksp, next) && next.pc == (w.pc + 4) % U64 && next.h.x == w.h.x
    ensures SameUserMemory(user, next.h.mem, w.h.mem)
    ensures w.h.x[A7] == SYS_REGCHECK || w.h.x[A7] == SYS_ENABLE_IRQ
    ensures next.dev.taken == w.dev.taken && next.dev.claims == w.dev.claims
    ensures next.dev.lastClaim == w.dev.lastClaim && next.dev.lastByte == w.dev.lastByte
    ensures next.dev.taken + next.dev.rx == w.dev.taken + w.dev.rx + (early + late)
    ensures next.dev.enable == if w.h.x[A7] == SYS_ENABLE_IRQ then UartEnabled(w.dev).enable else w.dev.enable
    ensures Cells(next.h.mem) == if w.h.x[A7] == SYS_ENABLE_IRQ then (0, 0) else Cells(w.h.mem)
  {
    hide HandledDuring, Handled, Layout, Bit, Peek, ReturnsToUser, Cells, PutBit, Received;
    var q := HandledThenReceived(user, w, CAUSE_ECALL, early, late, c, next);
    SyscallTransparent(user, ksp, w, c, q);
    EnableIsQuiet(w.dev);
    ReceivedKeeps(q.dev, early + late);
  }

  /** One event: the invariant, the user's view, and the UART's bytes. */
  lemma NextKeeps(prog: Program, user: set<int>, ksp: Word, w: World, e: Event, next: World)
    requires Confined(prog, user) && Layout(user, ksp) && Good(ksp, w) && Next(prog, user, w, e, next)
    ensures Good(ksp, next)
    ensures ViewOf(user, next) ==
            if e.Retired? || e.Syscall? then AloneStep(prog, ViewOf(user, w)) else ViewOf(user, w)
    ensures next.dev.taken + next.dev.rx == w.dev.taken + w.dev.rx + BytesOf(e)
    ensures next.dev.claims == w.dev.claims + (if e.Interrupted? then [Claim(UART0_IRQ), Complete(UART0_IRQ)] else [])
    ensures e.Interrupted? ==> w.dev.rx != [] && next.dev.taken == w.dev.taken + [w.dev.rx[0]]
    ensures e.Interrupted? ==> next.dev.lastClaim == 10 && next.dev.lastByte == w.dev.rx[0]
    ensures !e.Interrupted? ==>
              && next.dev.taken == w.dev.taken
              && next.dev.lastClaim == w.dev.lastClaim && next.dev.lastByte == w.dev.lastByte
    ensures Cells(next.h.mem) ==
            if e.Interrupted? then (1, w.dev.rx[0])
            else if e.Syscall? && w.h.x[A7] == SYS_ENABLE_IRQ then (0, 0)
            else Cells(w.h.mem)
  {
    hide HandledDuring, Layout, Confined, Bit, Peek, Entered, Cells, PutBit, ViewOf, Alone, Outside, Good;
    match e
    case Retired =>
      UserIsNotCells(user, ksp);
      ViewAfterRetire(prog, user, w);
      GoodStays(ksp, w, next);
    case Syscall(c, early, late) =>
      SyscallKeeps(user, ksp, w, c, early, late, next);
      SyscallView(user, w, next);
    case _ =>
      OutsideKeeps(user, ksp, w, e, next);
      SameView(user, next, w);
  }

  lemma GoodStays(ksp: Word, w: World, next: World)
    requires Good(ksp, w) && next.dev == w.dev && next.h.csr == w.h.csr
    ensures Good(ksp, next)
  {
  }

  lemma SyscallView(user: set<int>, w: World, next: World)
    requires next.pc == (w.pc + 4) % U64 && next.h.x == w.h.x && SameUserMemory(user, next.h.mem, w.h.mem)
    ensures ViewOf(user, next) == ViewOf(user, w).(pc := (ViewOf(user, w).pc + 4) % U64)
  {
  }

  lemma RunStep(prog: Program, user: set<int>, ws: seq<World>, es: seq<Event>, k: nat)
    requires IsRun(prog, user, ws, es) && k < |es|
    ensures |ws| == |es| + 1 && Next(prog, user, ws[k], es[k], ws[k + 1])
    ensures es[..k + 1][..k] == es[..k] && es[..k + 1][k] == es[k]
  {
    hide Next;
  }

  /** Every state of a run is good: in particular sscratch holds the same kernel stack pointer
      whenever the hart is in user mode, and no interrupt is in service. */
  lemma {:induction false} RunKeeps(prog: Program, user: set<int>, ksp: Word, ws: seq<World>, es: seq<Event>, k: nat)
    requires Confined(prog, user) && Layout(user, ksp) && IsRun(prog, user, ws, es) && k <= |es|
    requires Good(ksp, ws[0])
    ensures Good(ksp, ws[k])
    decreases k
  {
    hide IsRun, Confined, Layout, Next, Good, AloneStep, Cells;
    RunLength(prog, user, ws, es);
    if k > 0 {
      RunKeeps(prog, user, ksp, ws, es, k - 1);
      RunStep(prog, user, ws, es, k - 1);
      NextKeeps(prog, user, ksp, ws[k - 1], es[k - 1], ws[k]);
    }
  }

  lemma RunLength(prog: Program, user: set<int>, ws: seq<World>, es: seq<Event>)
    requires IsRun(prog, user, ws, es)
    ensures |ws| == |es| + 1
  {
  }

  // ------------------------------------------------------------------ transparency

  /** After any run the user has the pc, the registers and the memory that its program alone computes
      with the same number of instructions. */
  lemma {:induction false} InterruptsDoNotShow(
      prog: Program, user: set<int>, ksp: Word, ws: seq<World>, es: seq<Event>, k: nat)
    requires Confined(prog, user) && Layout(user, ksp) && IsRun(prog, user, ws, es) && k <= |es|
    requires Good(ksp, ws[0])
    ensures ViewOf(user, ws[k]) == Alone(prog, ViewOf(user, ws[0]), UserSteps(es[..k]))
    decreases k
  {
    hide IsRun, Confined, Layout, Next, Good, AloneStep, Cells, ViewOf;
    RunLength(prog, user, ws, es);
    if k > 0 {
      InterruptsDoNotShow(prog, user, ksp, ws, es, k - 1);
      RunKeeps(prog, user, ksp, ws, es, k - 1);
      RunStep(prog, user, ws, es, k - 1);
      NextKeeps(prog, user, ksp, ws[k - 1], es[k - 1], ws[k]);
    }
  }

  /** Two runs of a program from the same view agree after every user instruction, whatever bytes
      arrive, wherever the interrupts fall, and whatever the C code leaves in the other registers. */
  lemma RunsAgree(prog: Program, user: set<int>, ksp: Word, ws: seq<World>, es: seq<Event>,
                  vs: seq<World>, fs: seq<Event>, j: nat, k: nat)
    requires Confined(prog, user) && Layout(user, ksp)
    requires IsRun(prog, user, ws, es) && IsRun(prog, user, vs, fs) && j <= |es| && k <= |fs|
    requires Good(ksp, ws[0]) && Good(ksp, vs[0]) && ViewOf(user, ws[0]) == ViewOf(user, vs[0])
    requires UserSteps(es[..j]) == UserSteps(fs[..k])
    ensures ws[j].pc == vs[k].pc && ws[j].h.x == vs[k].h.x && ViewOf(user, ws[j]).mem == ViewOf(user, vs[k]).mem
  {
    hide IsRun, Confined, Layout, Next, Good, AloneStep, Alone, UserSteps;
    RunLength(prog, user, ws, es);
    RunLength(prog, user, vs, fs);
    InterruptsDoNotShow(prog, user, ksp, ws, es, j);
    InterruptsDoNotShow(prog, user, ksp, vs, fs, k);
  }

  // ------------------------------------------------------------------ conservation

  /** Bytes taken by the handler followed by bytes still in the UART are the bytes that arrived; and
      every interrupt has claimed and completed source 10 exactly once, in this order. */
  lemma {:induction false} BytesConserved(
      prog: Program, user: set<int>, ksp: Word, ws: seq<World>, es: seq<Event>, k: nat)
    requires Confined(prog, user) && Layout(user, ksp) && IsRun(prog, user, ws, es) && k <= |es|
    requires Good(ksp, ws[0])
    ensures ws[k].dev.taken + ws[k].dev.rx == ws[0].dev.taken + ws[0].dev.rx + Arrivals(es[..k])
    ensures ws[k].dev.claims == ws[0].dev.claims + ClaimsOf(es[..k])
    decreases k
  {
    hide IsRun, Confined, Layout, Next, Good, AloneStep, Cells, ViewOf;
    RunLength(prog, user, ws, es);
    if k > 0 {
      BytesConserved(prog, user, ksp, ws, es, k - 1);
      RunKeeps(prog, user, ksp, ws, es, k - 1);
      RunStep(prog, user, ws, es, k - 1);
      NextKeeps(prog, user, ksp, ws[k - 1], es[k - 1], ws[k]);
    }
  }

  /** What the user may find in the two cells. */
  datatype Shown = Untouched | Cleared | LastByte

  function ShownAfter(ws: seq<World>, es: seq<Event>, k: nat): Shown
    requires k <= |es| < |ws|
  {
    if k == 0 then Untouched
    else if es[k - 1].Interrupted? then LastByte
    else if es[k - 1].Syscall? && ws[k - 1].h.x[A7] == SYS_ENABLE_IRQ then Cleared
    else ShownAfter(ws, es, k - 1)
  }

  /** Once an interrupt has been handled, and until the next enabling call, the flag is 1 and the byte
      is the last one taken; after an enabling call both are 0 until the next interrupt. */
  lemma {:induction false} CellsShowLastByte(
      prog: Program, user: set<int>, ksp: Word, ws: seq<World>, es: seq<Event>, k: nat)
    requires Confined(prog, user) && Layout(user, ksp) && IsRun(prog, user, ws, es) && k <= |es| < |ws|
    requires Good(ksp, ws[0])
    ensures var s := ShownAfter(ws, es, k); var taken := ws[k].dev.taken;
            && (s == LastByte ==> taken != [] && Cells(ws[k].h.mem) == (1, taken[|taken| - 1]))
            && (s == Cleared ==> Cells(ws[k].h.mem) == (0, 0))
            && (s == Untouched ==> Cells(ws[k].h.mem) == Cells(ws[0].h.mem))
    decreases k
  {
    hide IsRun, Confined, Layout, Next, Good, AloneStep, Cells, ViewOf;
    if k > 0 {
      CellsShowLastByte(prog, user, ksp, ws, es, k - 1);
      RunKeeps(prog, user, ksp, ws, es, k - 1);
      RunStep(prog, user, ws, es, k - 1);
      NextKeeps(prog, user, ksp, ws[k - 1], es[k - 1], ws[k]);
    }
  }

  /** The kernel's own record, lab15_last_claim and lab15_last_uart_byte: from the first byte taken on it
      shows source 10 and the last byte taken, whatever the enabling call does to the cells. */
  lemma {:induction false} RecordShowsLastByte(
      prog: Program, user: set<int>, ksp: Word, ws: seq<World>, es: seq<Event>, k: nat)
    requires Confined(prog, user) && Layout(user, ksp) && IsRun(prog, user, ws, es) && k <= |es| < |ws|
    requires Good(ksp, ws[0])
    ensures var d := ws[k].dev; var d0 := ws[0].dev;
            if d.taken == d0.taken then d.lastClaim == d0.lastClaim && d.lastByte == d0.lastByte
            else |d.taken| > |d0.taken| && d.lastClaim == 10 && d.lastByte == d.taken[|d.taken| - 1]
    decreases k
  {
    hide IsRun, Confined, Layout, Next, Good, AloneStep, Cells, ViewOf;
    if k > 0 {
      RecordShowsLastByte(prog, user, ksp, ws, es, k - 1);
      RunKeeps(prog, user, ksp, ws, es, k - 1);
      RunStep(prog, user, ws, es, k - 1);
      NextKeeps(prog, user, ksp, ws[k - 1], es[k - 1], ws[k]);
    }
  }

  // ------------------------------------------------------------------ when the handler halts

  /** An external interrupt in a good state is handled exactly if the PLIC presents the UART; any
      other source stops the machine. */
  lemma HandledIfUart(user: set<int>, ksp: Word, w: World, c: Hart)
    requires Layout(user, ksp) && Good(ksp, w)
    requires CReturnsFrom(user, w, c)
    ensures (exists next :: Handled(user, w, CAUSE_EXTERNAL, c, next)) <==> Best(w.dev, SOURCES - 1) == UART0_IRQ
  {
    hide Layout, Bit, Peek, HandleExternal, Best, Entered, Resumed, Dispatch, Store64, CReturns;
    RoomForFrame(user, ksp);
    var h := Entered(w, CAUSE_EXTERNAL);
    InterruptDispatches(w, ksp);
    HandlerOutcome(h.mem, w.dev);
    BestIsBest(w.dev, SOURCES - 1);
    if Best(w.dev, SOURCES - 1) == UART0_IRQ {
      CandidateInRange(w.dev, UART0_IRQ);
      assert Handled(user, w, CAUSE_EXTERNAL, c, Resumed(c, HandleExternal(h.mem, w.dev).dev));
    }
  }

  /** c is what C code may leave, whenever the dispatcher returns for an external interrupt at w. */
  ghost predicate CReturnsFrom(user: set<int>, w: World, c: Hart) {
    var h := Entered(w, CAUSE_EXTERNAL);
    var o := Dispatch(h.x[A0], h.mem, w.dev);
    o.Return? ==> CReturns(user, h, o.mem, c)
  }

  /** No source but the UART is enabled. */
  ghost predicate OnlyUart(d: Dev) {
    forall s | 1 <= s < SOURCES && s != UART0_IRQ :: !Bit(d.enable, s)
  }

  /** The kernel enables no other source, ... */
  lemma OnlyUartKept(prog: Program, user: set<int>, ksp: Word, w: World, e: Event, next: World)
    requires Layout(user, ksp) && Good(ksp, w) && Next(prog, user, w, e, next) && OnlyUart(w.dev)
    ensures OnlyUart(next.dev)
  {
    hide HandledDuring, Handled, Layout, Bit, Peek, HandleExternal, Best, Entered, ReturnsToUser, Cells, PutBit,
         Deliverable, ViewOf, Received;
    match e
    case Retired =>
    case Syscall(c, early, late) =>
      SyscallKeeps(user, ksp, w, c, early, late, next);
      forall s | 1 <= s < SOURCES
        ensures Bit(UartEnabled(w.dev).enable, s) == (s == UART0_IRQ || Bit(w.dev.enable, s))
      {
        UartEnabledOnly(w.dev, s);
      }
    case Interrupted(c, early, late) =>
      var q := HandledThenReceived(user, w, CAUSE_EXTERNAL, early, late, c, next);
      InterruptTransparent(user, ksp, w, c, q);
      HandlerOutcome(Entered(w, CAUSE_EXTERNAL).mem, w.dev);
      ReceivedIs(q.dev, early + late);
    case Arrived(b) =>
    case Raised(s) =>
  }

  /** ... and then no interrupt that is delivered halts the machine. */
  lemma DeliveredIsHandled(user: set<int>, ksp: Word, w: World, c: Hart, early: seq<Byte>, late: seq<Byte>)
    requires Layout(user, ksp) && Good(ksp, w) && CReturnsFrom(user, w, c)
    requires OnlyUart(w.dev) && Deliverable(w.dev)
    ensures exists next :: HandledDuring(user, w, CAUSE_EXTERNAL, early, late, c, next)
  {
    hide Layout, Bit, Handled, HandledDuring, Best, Entered, CReturnsFrom, Received;
    HandledIfUart(user, ksp, w, c);
    BestIsBest(w.dev, SOURCES - 1);
    var s: nat :| Candidate(w.dev, s) && w.dev.priority[s] > w.dev.threshold;
    CandidateInRange(w.dev, s);
    if Best(w.dev, SOURCES - 1) != 0 {
      CandidateInRange(w.dev, Best(w.dev, SOURCES - 1));
    }
    var q :| Handled(user, w, CAUSE_EXTERNAL, c, q);
    HandledAnyway(user, w, CAUSE_EXTERNAL, early, late, c, q);
  }

  lemma {:induction false} RunKeepsOnlyUart(
      prog: Program, user: set<int>, ksp: Word, ws: seq<World>, es: seq<Event>, k: nat)
    requires Confined(prog, user) && Layout(user, ksp) && IsRun(prog, user, ws, es) && k <= |es|
    requires Good(ksp, ws[0]) && OnlyUart(ws[0].dev)
    ensures OnlyUart(ws[k].dev)
    decreases k
  {
    hide IsRun, Confined, Layout, Next, Good, OnlyUart;
    RunLength(prog, user, ws, es);
    if k > 0 {
      RunKeepsOnlyUart(prog, user, ksp, ws, es, k - 1);
      RunKeeps(prog, user, ksp, ws, es, k - 1);
      RunStep(prog, user, ws, es, k - 1);
      OnlyUartKept(prog, user, ksp, ws[k - 1], es[k - 1], ws[k]);
    }
  }

  /** Over whole runs: if no other source is enabled at the start, then in no state does an interrupt
      that is delivered halt the machine, whatever the C code leaves and whatever arrives meanwhile. */
  lemma InterruptsNeverHalt(prog: Program, user: set<int>, ksp: Word, ws: seq<World>, es: seq<Event>, k: nat,
                            c: Hart, early: seq<Byte>, late: seq<Byte>)
    requires Confined(prog, user) && Layout(user, ksp) && IsRun(prog, user, ws, es) && k <= |es| < |ws|
    requires Good(ksp, ws[0]) && OnlyUart(ws[0].dev)
    requires Deliverable(ws[k].dev) && CReturnsFrom(user, ws[k], c)
    ensures exists next :: HandledDuring(user, ws[k], CAUSE_EXTERNAL, early, late, c, next)
  {
    hide IsRun, Confined, Layout, Good, OnlyUart, Deliverable, CReturnsFrom, HandledDuring;
    RunKeeps(prog, user, ksp, ws, es, k);
    RunKeepsOnlyUart(prog, user, ksp, ws, es, k);
    DeliveredIsHandled(user, ksp, ws[k], c, early, late);
  }

  // ------------------------------------------------------------------ the start

  /** enter_user starts a good run: user mode, at the entry, on the user's stack, with the kernel's
      stack pointer in sscratch. */
  lemma EnterUserIsGood(h: Hart, d: Dev)
    requires Quiet(d)
    ensures var g := Exec(ENTER, h);
            var w := World(g.csr.sepc, g.(csr := g.csr.(sstatus := SretStatus(g.csr.sstatus))), d);
            && !Bit(g.csr.sstatus, SPP) && Good(h.x[SP], w)
            && w.pc == h.x[A0] && w.h.x[SP] == h.x[A1] && w.h.mem == h.mem
  {
    hide Exec, ENTER, Bit, SretStatus, PutBit;
    EnterUser(h);
    SretStatusBits(Put(h.csr.sstatus, SPP, false), SPP);
  }
}
