/** Lab 15's own user program, interrupt_probe.S, which does read the shared cells: whatever arrives
    and whenever it is interrupted, it never finds a register changed. */
module Probe {
  import opened Util
  import opened Memory
  import opened Riscv
  import opened Bits
  import opened TrapDispatch
  import opened UserRun
  import opened Transparency

  const USER_START: Word := 0x80400000
  const SENTINEL_S1: Word := 0x151
  const SENTINEL_S2: Word := 0x252
  const SENTINEL_S3: Word := 0x353
  const SENTINEL_T3: Word := 0x454
  const SENTINEL_A1: Word := 0x515

  const POLL: nat := 16
  const EXIT_ECALL: nat := 22
  const USER_FAIL: nat := 23
  const VERIFY: nat := 27
  const CODE_SIZE: nat := 38

  /** The address of instruction k: the program is made of 4-byte instructions. */
  function At(k: nat): Word
    requires k <= CODE_SIZE
  {
    USER_START + 4 * k
  }

  /** The number of an instruction. */
  type Index = k: nat | k < CODE_SIZE

  /** The machine instructions: a call is auipc and jalr, and the address of the flag is made by lui,
      addiw and slli. */
  function Fetch(k: Index): Op {
    match k
    case 0 => Plain(Li(S1, SENTINEL_S1))
    case 1 => Plain(Li(S2, SENTINEL_S2))
    case 2 => Plain(Li(S3, SENTINEL_S3))
    case 3 => Plain(Li(T3, SENTINEL_T3))
    case 4 => Plain(Li(A1, SENTINEL_A1))
    case 5 => Plain(Li(A7, SYS_REGCHECK))
    case 6 => Escape
    case 7 => Plain(Li(RA, At(7)))
    case 8 => CallVia(RA, 80)
    case 9 => Plain(Li(A7, SYS_ENABLE_IRQ))
    case 10 => Escape
    case 11 => Plain(Li(RA, At(11)))
    case 12 => CallVia(RA, 64)
    // user_wait_for_uart
    case 13 => Plain(Li(T0, 0x80000))
    case 14 => Plain(Addi(T0, T0, 0x401))
    case 15 => Plain(Slli(T0, T0, 0x1000))
    case 16 => Plain(Ld(T1, 0, T0))
    case 17 => Beqz(T1, At(POLL))
    // user_after_uart
    case 18 => Plain(Li(RA, At(18)))
    case 19 => CallVia(RA, 36)
    case 20 => Plain(Li(A0, 0))
    case 21 => Plain(Li(A7, SYS_EXIT))
    case 22 => Escape
    // user_fail
    case 23 => Plain(Li(A0, 1))
    case 24 => Plain(Li(A7, SYS_EXIT))
    case 25 => Escape
    case 26 => Jump(At(26))
    // verify_sentinels
    case 27 => Plain(Li(T0, SENTINEL_S1))
    case 28 => Bne(S1, T0, At(USER_FAIL))
    case 29 => Plain(Li(T0, SENTINEL_S2))
    case 30 => Bne(S2, T0, At(USER_FAIL))
    case 31 => Plain(Li(T0, SENTINEL_S3))
    case 32 => Bne(S3, T0, At(USER_FAIL))
    case 33 => Plain(Li(T0, SENTINEL_T3))
    case 34 => Bne(T3, T0, At(USER_FAIL))
    case 35 => Plain(Li(T0, SENTINEL_A1))
    case 36 => Bne(A1, T0, At(USER_FAIL))
    case _ => Ret
  }

  /** The instruction that w is about to execute. */
  predicate Stands(w: World, k: nat) {
    k < CODE_SIZE && w.pc == At(k)
  }

  /** A user instruction other than ecall. */
  function Retire(w: World, k: Index): World {
    var (pc, h) := Advance(Fetch(k), w.pc, 4, w.h);
    w.(pc := pc, h := h)
  }

  ghost predicate Next(user: set<int>, w: World, e: Event, next: World) {
    match e
    case Retired => exists k: Index :: Stands(w, k) && Fetch(k) != Escape && next == Retire(w, k)
    case Syscall(c, early, late) =>
      && (exists k: Index :: Stands(w, k) && Fetch(k) == Escape)
      && HandledDuring(user, w, CAUSE_ECALL, early, late, c, next)
    case _ => Outside(user, w, e, next)
  }

  ghost predicate IsRun(user: set<int>, ws: seq<World>, es: seq<Event>) {
    && |ws| == |es| + 1
    && forall j | 0 <= j < |es| :: Next(user, ws[j], es[j], ws[j + 1])
  }

  // ------------------------------------------------------------------ what every state keeps

  /** Registers at instruction k. */
  predicate Registers(x: Regs, k: nat) {
    && (k > 0 ==> x[S1] == SENTINEL_S1)
    && (k > 1 ==> x[S2] == SENTINEL_S2)
    && (k > 2 ==> x[S3] == SENTINEL_S3)
    && (k > 3 ==> x[T3] == SENTINEL_T3)
    && (k > 4 ==> x[A1] == SENTINEL_A1)
    && (k == 6 ==> x[A7] == SYS_REGCHECK)
    && (k == 10 ==> x[A7] == SYS_ENABLE_IRQ)
    && (k == 8 || k == 12 || k == 19 ==> x[RA] == At(k - 1))
    && (k == 14 ==> x[T0] == 0x80000)
    && (k == 15 ==> x[T0] == 0x80401)
    && (k == 16 || k == 17 ==> x[T0] == USER_IRQ_FLAG)
    && (k == 21 || k == 22 ==> x[A0] == 0)
    && (k == 22 ==> x[A7] == SYS_EXIT)
    && (k >= VERIFY ==> x[RA] == At(9) || x[RA] == At(13) || x[RA] == At(20))
    && (k == 28 ==> x[T0] == SENTINEL_S1)
    && (k == 30 ==> x[T0] == SENTINEL_S2)
    && (k == 32 ==> x[T0] == SENTINEL_S3)
    && (k == 34 ==> x[T0] == SENTINEL_T3)
    && (k == 36 ==> x[T0] == SENTINEL_A1)
  }

  /** From the enabling call on, and from the end of the polling loop on. */
  predicate Enabled(x: Regs, k: nat) {
    11 <= k <= EXIT_ECALL || (k >= VERIFY && x[RA] != At(9))
  }

  predicate Polled(x: Regs, k: nat) {
    18 <= k <= EXIT_ECALL || (k >= VERIFY && x[RA] == At(20))
  }

  /** What the cells show: nothing yet, or the last byte that was taken. */
  predicate ShowsLast(w: World) {
    var taken := w.dev.taken;
    taken != [] && Cells(w.h.mem) == (1, taken[|taken| - 1])
  }

  predicate Flags(w: World, k: nat) {
    && (Enabled(w.h.x, k) ==> Cells(w.h.mem) == (0, 0) || ShowsLast(w))
    && (Polled(w.h.x, k) ==> ShowsLast(w))
    && (k == 17 && w.h.x[T1] != 0 ==> ShowsLast(w))
  }

  ghost predicate Sane(w: World, k: nat) {
    Stands(w, k) && !(USER_FAIL <= k < VERIFY) && Registers(w.h.x, k) && Flags(w, k)
  }

  lemma AddressesDiffer(j: nat, k: nat)
    requires j < CODE_SIZE && k < CODE_SIZE && At(j) == At(k)
    ensures j == k
  {
  }

  /** The instruction after instruction k. */
  function After(x: Regs, k: nat): nat {
    if k == 8 || k == 12 || k == 19 then VERIFY
    else if k == 17 && x[T1] == 0 then POLL
    else if k == 37 then (if x[RA] == At(9) then 9 else if x[RA] == At(13) then 13 else 20)
    else k + 1
  }

  lemma RetireGoes(w: World, k: nat)
    requires Stands(w, k) && !(USER_FAIL <= k < VERIFY) && Registers(w.h.x, k) && Fetch(k) != Escape
    ensures var n := After(w.h.x, k); Stands(Retire(w, k), n) && !(USER_FAIL <= n < VERIFY)
  {
    hide Load64, SetReg;
  }

  /** The program stores nothing and leaves the control registers alone. */
  lemma RetireOnlyRegisters(w: World, k: nat)
    requires Stands(w, k) && Fetch(k) != Escape
    ensures Retire(w, k).dev == w.dev && Retire(w, k).h.mem == w.h.mem && Retire(w, k).h.csr == w.h.csr
  {
    hide Load64, SetReg, Address;
  }

  lemma SetupRegisters(w: World, k: nat)
    requires Stands(w, k) && k < 11 && Registers(w.h.x, k) && Fetch(k) != Escape
    ensures Registers(Retire(w, k).h.x, After(w.h.x, k))
  {
    hide Load64, Address;
  }

  lemma MainRegisters(w: World, k: nat)
    requires Stands(w, k) && 11 <= k < USER_FAIL && Registers(w.h.x, k) && Fetch(k) != Escape
    ensures Registers(Retire(w, k).h.x, After(w.h.x, k))
  {
    hide Load64, Address;
  }

  lemma VerifyRegisters(w: World, k: nat)
    requires Stands(w, k) && k >= VERIFY && Registers(w.h.x, k)
    ensures Registers(Retire(w, k).h.x, After(w.h.x, k))
  {
    hide Load64, Address;
  }

  lemma RetireRa(w: World, k: nat)
    requires Stands(w, k) && !(USER_FAIL <= k < VERIFY) && Fetch(k) != Escape
    ensures k !in {7, 11, 18} ==>
              Retire(w, k).h.x[RA] == if k == 8 || k == 12 || k == 19 then At(k + 1) else w.h.x[RA]
    ensures k == 16 ==> Retire(w, k).h.x[T1] == Load64(w.h.mem, Address(w.h.x, T0, 0))
    ensures k != 16 ==> Retire(w, k).h.x[T1] == w.h.x[T1]
  {
    hide Load64;
  }

  /** One instruction of the program. */
  lemma RetireIsSane(w: World, k: nat)
    requires Sane(w, k) && Fetch(k) != Escape
    ensures Sane(Retire(w, k), After(w.h.x, k))
    ensures Retire(w, k).dev == w.dev && Retire(w, k).h.mem == w.h.mem && Retire(w, k).h.csr == w.h.csr
    ensures Enabled(w.h.x, k) ==> Enabled(Retire(w, k).h.x, After(w.h.x, k))
  {
    hide Load64, Retire, Address;
    RetireGoes(w, k);
    RetireOnlyRegisters(w, k);
    if k < 11 {
      SetupRegisters(w, k);
    } else if k < USER_FAIL {
      MainRegisters(w, k);
    } else {
      VerifyRegisters(w, k);
    }
    RetireRa(w, k);
    PollReads(w);
  }

  /** What the ld of the polling loop reads. */
  lemma PollReads(w: World)
    ensures w.h.x[T0] == USER_IRQ_FLAG ==> Load64(w.h.mem, Address(w.h.x, T0, 0)) == Cells(w.h.mem).0
  {
    hide Load64;
  }

  /** One event of a run. */
  lemma NextIsSane(user: set<int>, ksp: Word, w: World, k: nat, e: Event, next: World) returns (n: nat)
    requires Layout(user, ksp) && Good(ksp, w) && Sane(w, k) && Next(user, w, e, next)
    ensures Good(ksp, next) && Sane(next, n)
  {
    hide Layout, HandledDuring, Outside, Cells, Retire, Fetch, Registers, Flags, Good;
    match e
    case Retired =>
      var j: Index :| Stands(w, j) && Fetch(j) != Escape && next == Retire(w, j);
      AddressesDiffer(j, k);
      RetireIsSane(w, k);
      n := After(w.h.x, k);
      GoodStays(ksp, w, next);
    case Syscall(c, early, late) =>
      var j: Index :| Stands(w, j) && Fetch(j) == Escape;
      AddressesDiffer(j, k);
      SyscallKeeps(user, ksp, w, c, early, late, next);
      n := k + 1;
      SyscallIsSane(w, k, next);
    case _ =>
      OutsideKeeps(user, ksp, w, e, next);
      OutsideIsSane(w, k, next, e);
      n := k;
  }

  lemma OutsideIsSane(w: World, k: nat, next: World, e: Event)
    requires Sane(w, k) && next.pc == w.pc && next.h.x == w.h.x
    requires e.Interrupted? ==> w.dev.rx != [] && next.dev.taken == w.dev.taken + [w.dev.rx[0]]
    requires !e.Interrupted? ==> next.dev.taken == w.dev.taken
    requires Cells(next.h.mem) == if e.Interrupted? then (1, w.dev.rx[0]) else Cells(w.h.mem)
    ensures Sane(next, k)
  {
    hide Cells;
  }

  lemma SyscallIsSane(w: World, k: nat, next: World)
    requires Sane(w, k) && Fetch(k) == Escape && (w.h.x[A7] == SYS_REGCHECK || w.h.x[A7] == SYS_ENABLE_IRQ)
    requires next.pc == (w.pc + 4) % U64 && next.h.x == w.h.x && next.dev.taken == w.dev.taken
    requires Cells(next.h.mem) == if w.h.x[A7] == SYS_ENABLE_IRQ then (0, 0) else Cells(w.h.mem)
    ensures Sane(next, k + 1)
  {
    hide Cells;
  }

  // ------------------------------------------------------------------ whole runs

  lemma RunStep(user: set<int>, ws: seq<World>, es: seq<Event>, j: nat)
    requires IsRun(user, ws, es) && j < |es|
    ensures |ws| == |es| + 1 && Next(user, ws[j], es[j], ws[j + 1])
  {
    hide Next;
  }

  /** In every state of every run the sentinels stand in their registers and user_fail is not reached. */
  lemma {:induction false} NeverFails(user: set<int>, ksp: Word, ws: seq<World>, es: seq<Event>, j: nat)
    returns (k: nat)
    requires Layout(user, ksp) && IsRun(user, ws, es) && j <= |es| < |ws|
    requires Good(ksp, ws[0]) && ws[0].pc == At(0)
    ensures Good(ksp, ws[j]) && Sane(ws[j], k)
    decreases j
  {
    hide Layout, IsRun, Next, Good, Sane, Cells;
    if j == 0 {
      k := 0;
      StartIsSane(ws[0]);
    } else {
      var i := NeverFails(user, ksp, ws, es, j - 1);
      RunStep(user, ws, es, j - 1);
      k := NextIsSane(user, ksp, ws[j - 1], i, es[j - 1], ws[j]);
    }
  }

  lemma StartIsSane(w: World)
    requires w.pc == At(0)
    ensures Sane(w, 0)
  {
  }

  /** Whenever the program makes a system call, the call returns, or it exits with code 0, whatever
      arrives meanwhile; and it exits only after an interrupt, with the cells showing the last byte that
      was taken. */
  lemma ExitsWithZero(user: set<int>, ksp: Word, ws: seq<World>, es: seq<Event>, j: nat, k: nat,
                      early: seq<Byte>, late: seq<Byte>)
    requires Layout(user, ksp) && IsRun(user, ws, es) && j <= |es| < |ws|
    requires Good(ksp, ws[0]) && ws[0].pc == At(0)
    requires Stands(ws[j], k) && Fetch(k) == Escape
    ensures var w := ws[j]; var h := Entered(w, CAUSE_ECALL);
            var o := DispatchDuring(h.x[A0], h.mem, w.dev, early, late);
            && (o.Return? || o == Exit(0))
            && (o.Exit? <==> k == EXIT_ECALL)
            && (o.Exit? ==> ShowsLast(w))
  {
    hide Layout, IsRun, Next, Entered, Dispatch, DispatchDuring, Cells, ShowsLast, StatusEnabled, CellsCleared,
         EnableUart, Store64, Received;
    var i := NeverFails(user, ksp, ws, es, j);
    AddressesDiffer(i, k);
    RoomForFrame(user, ksp);
    SyscallDispatches(ws[j], ksp);
    var h := Entered(ws[j], CAUSE_ECALL);
    DispatchBeforeLate(h.x[A0], h.mem, ws[j].dev, early, late);
  }

  // ------------------------------------------------------------------ the checks do check

  /** n instructions of the program lead from w to v. */
  ghost predicate Leads(w: World, n: nat, v: World)
    decreases n
  {
    if n == 0 then v == w
    else exists k: Index :: Stands(w, k) && Fetch(k) != Escape && Leads(Retire(w, k), n - 1, v)
  }

  lemma LeadsOn(w: World, k: Index, n: nat, v: World)
    requires Stands(w, k) && Fetch(k) != Escape && Leads(Retire(w, k), n, v)
    ensures Leads(w, n + 1, v)
  {
    hide Retire, Fetch;
  }

  /** Nothing but t0 and the place in the program has changed. */
  predicate OnlyT0(w: World, v: World) {
    v == w.(pc := v.pc, h := w.h.(x := v.h.x)) && forall r | 0 <= r < 32 && r != T0 :: v.h.x[r] == w.h.x[r]
  }

  /** The i-th check: the register, its sentinel. */
  function Checked(i: nat): (Reg, Word) {
    if i == 0 then (S1, 0x151) else if i == 1 then (S2, 0x252) else if i == 2 then (S3, 0x353)
    else if i == 3 then (T3, 0x454) else (A1, 0x515)
  }

  predicate AllChecked(x: Regs, i: nat) {
    forall j: nat | i <= j < 5 :: x[Checked(j).0] == Checked(j).1
  }

  lemma OneCheck(w: World, i: nat)
    requires i < 5 && Stands(w, VERIFY + 2 * i)
    ensures var v := Retire(Retire(w, VERIFY + 2 * i), VERIFY + 2 * i + 1);
            && Stands(Retire(w, VERIFY + 2 * i), VERIFY + 2 * i + 1) && OnlyT0(w, v)
            && v.pc == if w.h.x[Checked(i).0] == Checked(i).1 then At(VERIFY + 2 * (i + 1)) else At(USER_FAIL)
    ensures Fetch(VERIFY + 2 * i) != Escape && Fetch(VERIFY + 2 * i + 1) != Escape
  {
  }

  /** verify_sentinels returns to its caller if all five registers hold their sentinels, and goes to
      user_fail if one of them does not; it changes nothing but t0. */
  lemma {:induction false} VerifyDecides(w: World, i: nat) returns (n: nat, v: World)
    requires i <= 5 && Stands(w, VERIFY + 2 * i)
    ensures Leads(w, n, v) && OnlyT0(w, v) && n <= 11 - 2 * i
    ensures v.pc == if AllChecked(w.h.x, i) then w.h.x[RA] else At(USER_FAIL)
    decreases 5 - i
  {
    hide Retire, Leads, Fetch, Checked, AllChecked, OnlyT0;
    if i == 5 {
      n, v := 1, Retire(w, CODE_SIZE - 1);
      LastInstruction(w);
      assert AllChecked(w.h.x, 5) by {
        NoCheckLeft(w.h.x);
      }
    } else {
      var k := VERIFY + 2 * i;
      OneCheck(w, i);
      var u := Retire(Retire(w, k), k + 1);
      StillChecked(w, u, i);
      var m: nat;
      if w.h.x[Checked(i).0] == Checked(i).1 {
        m, v := VerifyDecides(u, i + 1);
        OnlyT0Then(w, u, v);
      } else {
        m, v := 0, u;
        NoInstruction(u);
      }
      LeadsOn(Retire(w, k), k + 1, m, v);
      LeadsOn(w, k, m + 1, v);
      n := m + 2;
    }
  }

  lemma NoCheckLeft(x: Regs)
    ensures AllChecked(x, 5)
  {
  }

  lemma StillChecked(w: World, u: World, i: nat)
    requires OnlyT0(w, u) && i < 5
    ensures AllChecked(w.h.x, i) <==> w.h.x[Checked(i).0] == Checked(i).1 && AllChecked(u.h.x, i + 1)
    ensures u.h.x[RA] == w.h.x[RA]
  {
    assert forall j: nat | j < 5 :: Checked(j).0 != T0;
  }

  lemma OnlyT0Then(w: World, u: World, v: World)
    requires OnlyT0(w, u) && OnlyT0(u, v)
    ensures OnlyT0(w, v)
  {
  }

  lemma LastInstruction(w: World)
    requires Stands(w, CODE_SIZE - 1)
    ensures var v := Retire(w, CODE_SIZE - 1); Leads(w, 1, v) && OnlyT0(w, v) && v.pc == w.h.x[RA]
  {
    NoInstruction(Retire(w, CODE_SIZE - 1));
    LeadsOn(w, CODE_SIZE - 1, 0, Retire(w, CODE_SIZE - 1));
  }

  lemma NoInstruction(w: World)
    ensures Leads(w, 0, w)
  {
  }

  /** user_fail exits with code 1. */
  lemma FailureExits(w: World) returns (v: World)
    requires Stands(w, USER_FAIL)
    ensures Leads(w, 2, v) && Stands(v, 25) && Fetch(25) == Escape && v.h.x[A7] == 3 && v.h.x[A0] == 1
  {
    hide Leads;
    v := Retire(Retire(w, 23), 24);
    NoInstruction(v);
    LeadsOn(Retire(w, 23), 24, 0, v);
    LeadsOn(w, 23, 1, v);
  }

  // ------------------------------------------------------------------ the end

  /** How many instructions lie before the exit once the flag is set. */
  function ToExit(x: Regs, k: nat): nat {
    if k >= VERIFY then (if k < CODE_SIZE then CODE_SIZE - k else 0) + (if x[RA] == At(20) then 2 else 20)
    else if 11 <= k <= 12 then 44 - k
    else if 13 <= k <= 15 then 33 - k
    else if k == 16 then 17
    else if k == 17 then (if x[T1] == 0 then 18 else 16)
    else if 18 <= k <= 19 then 33 - k
    else if k <= EXIT_ECALL then EXIT_ECALL - k
    else 0
  }

  /** Once the flag is set every instruction brings the exit nearer. */
  lemma RetireApproaches(w: World, k: nat)
    requires Sane(w, k) && Fetch(k) != Escape && Enabled(w.h.x, k) && ShowsLast(w)
    ensures var n := After(w.h.x, k);
            && Sane(Retire(w, k), n) && Enabled(Retire(w, k).h.x, n) && ShowsLast(Retire(w, k))
            && ToExit(Retire(w, k).h.x, n) < ToExit(w.h.x, k)
    ensures Retire(w, k).dev == w.dev && Retire(w, k).h.csr == w.h.csr
  {
    hide Load64, Retire, Address;
    RetireIsSane(w, k);
    RetireRa(w, k);
    PollReads(w);
  }

  /** Once an interrupt has been handled after the enabling call, the program makes at most ToExit
      more instructions, and it stands at its exit when it has made them all. */
  lemma {:induction false} Finishes(user: set<int>, ksp: Word, ws: seq<World>, es: seq<Event>, k: nat, j: nat)
    returns (n: nat)
    requires Layout(user, ksp) && IsRun(user, ws, es) && j <= |es| < |ws|
    requires Good(ksp, ws[0]) && Sane(ws[0], k) && Enabled(ws[0].h.x, k) && ShowsLast(ws[0])
    ensures Good(ksp, ws[j]) && Sane(ws[j], n) && Enabled(ws[j].h.x, n) && ShowsLast(ws[j])
    ensures UserSteps(es[..j]) + ToExit(ws[j].h.x, n) <= ToExit(ws[0].h.x, k)
    ensures ToExit(ws[j].h.x, n) == 0 <==> n == EXIT_ECALL
    decreases j
  {
    hide Layout, IsRun, Next, Good, Cells, Sane, ShowsLast;
    if j == 0 {
      n := k;
      EnabledRange(ws[0], k);
    } else {
      var i := Finishes(user, ksp, ws, es, k, j - 1);
      RunStep(user, ws, es, j - 1);
      assert es[..j][..j - 1] == es[..j - 1];
      n := NextApproaches(user, ksp, ws[j - 1], i, es[j - 1], ws[j]);
    }
  }

  lemma EnabledRange(w: World, k: nat)
    requires Sane(w, k) && Enabled(w.h.x, k)
    ensures ToExit(w.h.x, k) == 0 <==> k == EXIT_ECALL
  {
  }

  lemma NextApproaches(user: set<int>, ksp: Word, w: World, k: nat, e: Event, next: World) returns (n: nat)
    requires Layout(user, ksp) && Good(ksp, w) && Sane(w, k) && Next(user, w, e, next)
    requires Enabled(w.h.x, k) && ShowsLast(w)
    ensures !e.Syscall?
    ensures Good(ksp, next) && Sane(next, n) && Enabled(next.h.x, n) && ShowsLast(next)
    ensures e.Retired? ==> ToExit(next.h.x, n) < ToExit(w.h.x, k)
    ensures ToExit(next.h.x, n) <= ToExit(w.h.x, k)
    ensures ToExit(next.h.x, n) == 0 <==> n == EXIT_ECALL
  {
    hide Layout, HandledDuring, Outside, Cells, Retire, Fetch, Registers, Flags, Good, ShowsLast;
    NoCallReturns(user, ksp, w, k, e, next);
    match e
    case Retired =>
      var j: Index :| Stands(w, j) && Fetch(j) != Escape && next == Retire(w, j);
      AddressesDiffer(j, k);
      RetireApproaches(w, k);
      n := After(w.h.x, k);
      GoodStays(ksp, w, next);
    case _ =>
      OutsideKeeps(user, ksp, w, e, next);
      OutsideIsSane(w, k, next, e);
      n := k;
      StillShows(w, next, e);
    EnabledRange(next, n);
  }

  lemma LateCallExits(w: World, k: nat)
    requires Sane(w, k) && Enabled(w.h.x, k) && Fetch(k) == Escape
    ensures w.h.x[A7] == SYS_EXIT
  {
    hide Flags;
  }

  /** The only call after the enabling one is the exit, which does not return. */
  lemma NoCallReturns(user: set<int>, ksp: Word, w: World, k: nat, e: Event, next: World)
    requires Layout(user, ksp) && Good(ksp, w) && Sane(w, k) && Enabled(w.h.x, k)
    requires Next(user, w, e, next)
    ensures !e.Syscall?
  {
    hide Layout, HandledDuring, Cells, Outside, Good, Fetch, Registers, Flags;
    if e.Syscall? {
      var j: Index :| Stands(w, j) && Fetch(j) == Escape;
      AddressesDiffer(j, k);
      LateCallExits(w, k);
      SyscallKeeps(user, ksp, w, e.c, e.early, e.late, next);
    }
  }

  lemma StillShows(w: World, next: World, e: Event)
    requires ShowsLast(w)
    requires e.Interrupted? ==> w.dev.rx != [] && next.dev.taken == w.dev.taken + [w.dev.rx[0]]
    requires !e.Interrupted? ==> next.dev.taken == w.dev.taken
    requires Cells(next.h.mem) == if e.Interrupted? then (1, w.dev.rx[0]) else Cells(w.h.mem)
    ensures ShowsLast(next)
  {
    hide Cells;
  }
}
