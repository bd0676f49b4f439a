/** The trap entry and exit of lab 15: what supervisor_trap_entry puts into the trap frame, what its
    second half takes out of it again, and how enter_user prepares the first trap. */
module TrapFrame {
  import opened Util
  import opened Memory
  import opened Riscv
  import opened Bits

  const TF_T0: nat := 24
  const TF_A0: nat := 64
  const TF_A7: nat := 120
  const TF_SP: nat := 240
  const TF_SEPC: nat := 248
  const TF_SSTATUS: nat := 256
  const TF_SCAUSE: nat := 264
  const TF_SIZE: nat := 272

  /** Bits of sstatus. */
  const SIE: nat := 1
  const SPIE: nat := 5
  const SPP: nat := 8

  /** The general registers of struct trap_frame, in its order: all but zero and sp. */
  const FIRST: seq<Reg> := [RA, GP, TP]
  const REST: seq<Reg> := [
    T1, T2, S0, S1, A0, A1, A2, A3, A4, A5, A6, A7,
    S2, S3, S4, S5, S6, S7, S8, S9, S10, S11, T3, T4, T5, T6
  ]
  const GENERAL: seq<Reg> := FIRST + [T0] + REST

  /** Slot k of the frame holds register k + 2, except for the first, which holds ra. */
  lemma RestSlots()
    ensures |REST| == 26 && forall k | 0 <= k < 26 :: REST[k] == k + 6
  {
  }

  lemma Slots()
    ensures |GENERAL| == 30 && forall k | 0 <= k < 30 :: GENERAL[k] == if k == 0 then RA else k + 2
    ensures GENERAL[..3] == FIRST && GENERAL[4..] == REST
  {
    hide REST;
    RestSlots();
  }

  // ------------------------------------------------------------------ the code

  const TAKE_STACK: seq<Instr> := [Csrrw(SP, Sscratch, SP), Addi(SP, SP, -272)]

  const SAVE_GENERAL: seq<Instr> := [
    Sd(RA, 0, SP), Sd(GP, 8, SP), Sd(TP, 16, SP), Sd(T0, 24, SP), Sd(T1, 32, SP), Sd(T2, 40, SP),
    Sd(S0, 48, SP), Sd(S1, 56, SP), Sd(A0, 64, SP), Sd(A1, 72, SP), Sd(A2, 80, SP), Sd(A3, 88, SP),
    Sd(A4, 96, SP), Sd(A5, 104, SP), Sd(A6, 112, SP), Sd(A7, 120, SP), Sd(S2, 128, SP), Sd(S3, 136, SP),
    Sd(S4, 144, SP), Sd(S5, 152, SP), Sd(S6, 160, SP), Sd(S7, 168, SP), Sd(S8, 176, SP), Sd(S9, 184, SP),
    Sd(S10, 192, SP), Sd(S11, 200, SP), Sd(T3, 208, SP), Sd(T4, 216, SP), Sd(T5, 224, SP), Sd(T6, 232, SP)
  ]

  function StoreCsr(r: Csr, off: nat): seq<Instr> {
    [Csrr(T0, r), Sd(T0, off, SP)]
  }

  const SAVE_CONTROL: seq<Instr> :=
    (StoreCsr(Sscratch, TF_SP) + StoreCsr(Sepc, TF_SEPC)) +
    (StoreCsr(Sstatus, TF_SSTATUS) + StoreCsr(Scause, TF_SCAUSE))

  /** supervisor_trap_entry up to its call of the dispatcher. */
  const ENTRY: seq<Instr> := TAKE_STACK + SAVE_GENERAL + SAVE_CONTROL + [Mv(A0, SP)]

  function LoadCsr(r: Csr, off: nat): seq<Instr> {
    [Ld(T0, off, SP), Csrw(r, T0)]
  }

  const RESTORE_CONTROL: seq<Instr> := LoadCsr(Sepc, TF_SEPC) + LoadCsr(Sstatus, TF_SSTATUS)

  const RESTORE_FIRST: seq<Instr> := [Ld(RA, 0, SP), Ld(GP, 8, SP), Ld(TP, 16, SP)]

  const RESTORE_REST: seq<Instr> := [
    Ld(T1, 32, SP), Ld(T2, 40, SP),
    Ld(S0, 48, SP), Ld(S1, 56, SP), Ld(A0, 64, SP), Ld(A1, 72, SP), Ld(A2, 80, SP), Ld(A3, 88, SP),
    Ld(A4, 96, SP), Ld(A5, 104, SP), Ld(A6, 112, SP), Ld(A7, 120, SP), Ld(S2, 128, SP), Ld(S3, 136, SP),
    Ld(S4, 144, SP), Ld(S5, 152, SP), Ld(S6, 160, SP), Ld(S7, 168, SP), Ld(S8, 176, SP), Ld(S9, 184, SP),
    Ld(S10, 192, SP), Ld(S11, 200, SP), Ld(T3, 208, SP), Ld(T4, 216, SP), Ld(T5, 224, SP), Ld(T6, 232, SP)
  ]

  const RETURN_STACK: seq<Instr> := [Ld(T0, TF_T0, SP), Addi(SP, SP, 272), Csrrw(SP, Sscratch, SP)]

  /** From the dispatcher's return up to sret. */
  const EXIT: seq<Instr> := RESTORE_CONTROL + RESTORE_FIRST + RESTORE_REST + RETURN_STACK

  // ------------------------------------------------------------------ the entry

  /** What the frame of an interrupted hart holds. */
  function FrameOf(h: Hart): (r: seq<Word>)
    ensures |r| == 34
  {
    Values(h.x, GENERAL) + [h.x[SP], h.csr.sepc, h.csr.sstatus, h.csr.scause]
  }

  lemma {:induction false} SaveAppend(m: Mem, a: int, u: seq<Word>, v: seq<Word>)
    ensures SaveWords(m, a, u + v) == SaveWords(SaveWords(m, a, u), a + 8 * |u|, v)
    decreases |u|
  {
    hide Store64;
    if u == [] {
      assert u + v == v;
    } else {
      assert (u + v)[1..] == u[1..] + v;
      SaveAppend(Store64(m, a, u[0]), a + 8, u[1..], v);
    }
  }

  lemma ExecTwo(i: Instr, j: Instr, h: Hart)
    ensures Exec([i, j], h) == Exec1(j, Exec1(i, h))
  {
    hide Exec1;
    assert [i, j][1..] == [j] && [j][1..] == [];
    assert Exec([j], Exec1(i, h)) == Exec([], Exec1(j, Exec1(i, h)));
  }

  /** The k-th store writes register GENERAL[k] to its slot. */
  lemma StoresInOrder()
    ensures |SAVE_GENERAL| == 30
    ensures forall k | 0 <= k < 30 :: SAVE_GENERAL[k] == Sd(if k == 0 then RA else k + 2, 8 * k, SP)
  {
  }

  lemma GeneralStores()
    ensures IsStores(SAVE_GENERAL, GENERAL, 0, SP)
    ensures |GENERAL| == 30 && SP !in GENERAL && ZERO !in GENERAL
  {
    hide SAVE_GENERAL, GENERAL;
    StoresInOrder();
    Slots();
  }

  lemma StackTaken(h: Hart)
    requires h.csr.sscratch >= TF_SIZE
    ensures Exec(TAKE_STACK, h) ==
            h.(x := h.x[SP := h.csr.sscratch - TF_SIZE], csr := h.csr.(sscratch := h.x[SP]))
  {
    ExecTwo(TAKE_STACK[0], TAKE_STACK[1], h);
    assert TAKE_STACK == [TAKE_STACK[0], TAKE_STACK[1]];
    assert h.x[SP := h.csr.sscratch][SP := h.csr.sscratch - TF_SIZE] == h.x[SP := h.csr.sscratch - TF_SIZE];
  }

  lemma CsrStored(h: Hart, r: Csr, off: nat)
    requires h.x[SP] + off < U64
    ensures var v := GetCsr(h.csr, r);
            Exec(StoreCsr(r, off), h) ==
            h.(x := h.x[T0 := v], mem := Store64(h.mem, h.x[SP] + off, v))
  {
    hide Store64, Address;
    ExecTwo(Csrr(T0, r), Sd(T0, off, SP), h);
    AddressInRange(h.x[T0 := GetCsr(h.csr, r)], SP, off);
  }

  lemma TwoCsrsStored(h: Hart, r: Csr, s: Csr, off: nat)
    requires h.x[SP] + off + 8 < U64
    ensures var p := GetCsr(h.csr, r); var q := GetCsr(h.csr, s);
            Exec(StoreCsr(r, off) + StoreCsr(s, off + 8), h) ==
            h.(x := h.x[T0 := q], mem := SaveWords(h.mem, h.x[SP] + off, [p, q]))
  {
    hide Store64, Exec, StoreCsr;
    ExecAppend(StoreCsr(r, off), StoreCsr(s, off + 8), h);
    CsrStored(h, r, off);
    CsrStored(Exec(StoreCsr(r, off), h), s, off + 8);
    TwoWords(h.mem, h.x[SP] + off, GetCsr(h.csr, r), GetCsr(h.csr, s));
    assert h.x[T0 := GetCsr(h.csr, r)][T0 := GetCsr(h.csr, s)] == h.x[T0 := GetCsr(h.csr, s)];
  }

  lemma TwoWords(m: Mem, a: int, p: Word, q: Word)
    ensures SaveWords(m, a, [p, q]) == Store64(Store64(m, a, p), a + 8, q)
  {
    hide Store64;
    var none: seq<Word> := [];
    assert [p, q][1..] == [q] && [q][1..] == none;
    assert SaveWords(Store64(m, a, p), a + 8, [q]) == SaveWords(Store64(Store64(m, a, p), a + 8, q), a + 16, none);
  }

  lemma ControlStored(h: Hart)
    requires h.x[SP] + TF_SIZE < U64
    ensures var g := Exec(SAVE_CONTROL, h);
            && g.mem == SaveWords(h.mem, h.x[SP] + TF_SP, [h.csr.sscratch, h.csr.sepc, h.csr.sstatus, h.csr.scause])
            && g.csr == h.csr && g.x == h.x[T0 := h.csr.scause]
  {
    hide Exec, StoreCsr, SaveWords;
    var c := StoreCsr(Sscratch, TF_SP) + StoreCsr(Sepc, TF_SEPC);
    var d := StoreCsr(Sstatus, TF_SSTATUS) + StoreCsr(Scause, TF_SCAUSE);
    ExecAppend(c, d, h);
    TwoCsrsStored(h, Sscratch, Sepc, TF_SP);
    var g := Exec(c, h);
    TwoCsrsStored(g, Sstatus, Scause, TF_SSTATUS);
    SaveAppend(h.mem, h.x[SP] + TF_SP, [h.csr.sscratch, h.csr.sepc], [h.csr.sstatus, h.csr.scause]);
    assert [h.csr.sscratch, h.csr.sepc] + [h.csr.sstatus, h.csr.scause] ==
           [h.csr.sscratch, h.csr.sepc, h.csr.sstatus, h.csr.scause];
    assert h.x[T0 := h.csr.sepc][T0 := h.csr.scause] == h.x[T0 := h.csr.scause];
  }

  /** The entry saves the whole interrupted state into the frame below the kernel stack pointer that
      it found in sscratch, passes the frame's address on, and changes no other memory. */
  lemma EntrySavesAll(h: Hart)
    requires TF_SIZE <= h.csr.sscratch
    ensures var g := Exec(ENTRY, h); var frame := h.csr.sscratch - TF_SIZE;
            && g.x[SP] == frame && g.x[A0] == frame && g.x[ZERO] == h.x[ZERO]
            && g.csr == h.csr.(sscratch := h.x[SP])
            && g.mem == SaveWords(h.mem, frame, FrameOf(h))
            && LoadWords(g.mem, frame, 34) == FrameOf(h)
  {
    hide Exec, SaveWords, IsStores, Exec1;
    var frame := h.csr.sscratch - TF_SIZE;
    StackTaken(h);
    var h1 := Exec(TAKE_STACK, h);
    GeneralStores();
    ExecStores(h1, SAVE_GENERAL, GENERAL, 0, SP);
    assert Values(h1.x, GENERAL) == Values(h.x, GENERAL);
    var h2 := Exec(SAVE_GENERAL, h1);
    ControlStored(h2);
    SaveAppend(h.mem, frame, Values(h.x, GENERAL), [h.x[SP], h.csr.sepc, h.csr.sstatus, h.csr.scause]);
    var h3 := Exec(SAVE_CONTROL, h2);
    ExecMv(h3);
    EntryParts(h);
    LoadAllSaved(h.mem, frame, FrameOf(h));
  }

  lemma ExecMv(h: Hart)
    ensures Exec([Mv(A0, SP)], h) == h.(x := h.x[A0 := h.x[SP]])
  {
  }

  lemma EntryParts(h: Hart)
    ensures Exec(ENTRY, h) == Exec([Mv(A0, SP)], Exec(SAVE_CONTROL, Exec(SAVE_GENERAL, Exec(TAKE_STACK, h))))
  {
    hide Exec;
    ExecAppend(TAKE_STACK + SAVE_GENERAL + SAVE_CONTROL, [Mv(A0, SP)], h);
    ExecAppend(TAKE_STACK + SAVE_GENERAL, SAVE_CONTROL, h);
    ExecAppend(TAKE_STACK, SAVE_GENERAL, h);
  }

  // ------------------------------------------------------------------ the exit

  lemma CsrLoaded(h: Hart, r: Csr, off: nat)
    requires h.x[SP] + off < U64
    ensures var v := Load64(h.mem, h.x[SP] + off);
            Exec(LoadCsr(r, off), h) == h.(x := h.x[T0 := v], csr := SetCsr(h.csr, r, v))
  {
    hide Load64, Address, Exec;
    ExecTwo(Ld(T0, off, SP), Csrw(r, T0), h);
    AddressInRange(h.x, SP, off);
  }

  lemma ControlRestored(h: Hart)
    requires h.x[SP] + TF_SIZE < U64
    ensures Exec(RESTORE_CONTROL, h) ==
            h.(x := h.x[T0 := Load64(h.mem, h.x[SP] + TF_SSTATUS)],
               csr := h.csr.(sepc := Load64(h.mem, h.x[SP] + TF_SEPC), sstatus := Load64(h.mem, h.x[SP] + TF_SSTATUS)))
  {
    hide Load64, Exec, LoadCsr;
    ExecAppend(LoadCsr(Sepc, TF_SEPC), LoadCsr(Sstatus, TF_SSTATUS), h);
    CsrLoaded(h, Sepc, TF_SEPC);
    CsrLoaded(Exec(LoadCsr(Sepc, TF_SEPC), h), Sstatus, TF_SSTATUS);
    assert h.x[T0 := Load64(h.mem, h.x[SP] + TF_SEPC)][T0 := Load64(h.mem, h.x[SP] + TF_SSTATUS)] ==
           h.x[T0 := Load64(h.mem, h.x[SP] + TF_SSTATUS)];
  }

  lemma StackReturned(h: Hart)
    requires h.x[SP] + TF_SIZE < U64
    ensures Exec(RETURN_STACK, h) ==
            h.(x := h.x[T0 := Load64(h.mem, h.x[SP] + TF_T0)][SP := h.csr.sscratch],
               csr := h.csr.(sscratch := h.x[SP] + TF_SIZE))
  {
    hide Load64, Address, Exec;
    var c := [Ld(T0, TF_T0, SP)];
    var d := [Addi(SP, SP, 272), Csrrw(SP, Sscratch, SP)];
    assert RETURN_STACK == c + d;
    ExecAppend(c, d, h);
    ExecOne(c[0], h);
    AddressInRange(h.x, SP, TF_T0);
    var g := Exec(c, h);
    ExecTwo(d[0], d[1], g);
    assert g.x[SP := h.x[SP] + TF_SIZE][SP := h.csr.sscratch] == g.x[SP := h.csr.sscratch];
  }

  lemma ExecOne(i: Instr, h: Hart)
    ensures Exec([i], h) == Exec1(i, h)
  {
    hide Exec1;
    assert [i][1..] == [];
  }

  lemma LoadsInOrder()
    ensures |RESTORE_REST| == 26
    ensures forall k | 0 <= k < 26 :: RESTORE_REST[k] == Ld(k + 6, 32 + 8 * k, SP)
  {
  }

  lemma GeneralLoads()
    ensures IsLoads(RESTORE_FIRST, FIRST, 0, SP) && IsLoads(RESTORE_REST, REST, 32, SP)
    ensures NoDup(FIRST) && NoDup(REST) && SP !in FIRST && SP !in REST && ZERO !in FIRST && ZERO !in REST
    ensures |FIRST| == 3 && |REST| == 26
  {
    hide RESTORE_REST, REST;
    LoadsInOrder();
    RestSlots();
  }

  /** The exit puts every general register back from its slot, takes sepc and sstatus from the frame,
      and exchanges the stack pointers again. */
  lemma ExitRestoresAll(h: Hart)
    requires h.x[SP] + TF_SIZE < U64
    ensures var g := Exec(EXIT, h); var words := LoadWords(h.mem, h.x[SP], 34);
            && Values(g.x, GENERAL) == words[..30]
            && g.x[SP] == h.csr.sscratch && g.x[ZERO] == h.x[ZERO]
            && g.csr == h.csr.(sscratch := h.x[SP] + TF_SIZE, sepc := words[31], sstatus := words[32])
            && g.mem == h.mem
  {
    hide Exec, IsLoads, Load64, NoDup, LoadRegs, SetReg, LoadWords, Values, EXIT, FIRST, REST, GENERAL,
         RESTORE_CONTROL, RESTORE_FIRST, RESTORE_REST, RETURN_STACK;
    ExitParts(h);
    GeneralLoads();
    ControlRestored(h);
    var a := Exec(RESTORE_CONTROL, h);
    ExecLoads(a, RESTORE_FIRST, FIRST, 0, SP);
    RegsLoaded(a.x, FIRST, LoadWords(h.mem, h.x[SP] + 0, 3));
    var b := Exec(RESTORE_FIRST, a);
    ExecLoads(b, RESTORE_REST, REST, 32, SP);
    RegsLoaded(b.x, REST, LoadWords(h.mem, h.x[SP] + 32, 26));
    var c := Exec(RESTORE_REST, b);
    StackReturned(c);
    SlotsRestored(h.mem, h.x[SP], b.x, c.x, h.csr.sscratch);
  }

  /** Thirty registers from the three blocks of loads. */
  lemma SlotsRestored(m: Mem, frame: Word, b: Regs, c: Regs, user: Word)
    requires |FIRST| == 3 && |REST| == 26
    requires forall k | 0 <= k < 3 :: b[FIRST[k]] == LoadWords(m, frame + 0, 3)[k]
    requires forall k | 0 <= k < 26 :: c[REST[k]] == LoadWords(m, frame + 32, 26)[k]
    requires forall r: Reg | r !in REST :: c[r] == b[r]
    ensures Values(c[T0 := Load64(m, frame + TF_T0)][SP := user], GENERAL) == LoadWords(m, frame, 34)[..30]
  {
    hide Load64, REST, GENERAL;
    var x := c[T0 := Load64(m, frame + TF_T0)][SP := user];
    Slots();
    RestSlots();
    forall k | 0 <= k < 30 ensures x[GENERAL[k]] == Load64(m, frame + 8 * k) {
      if k < 3 {
        assert GENERAL[k] == FIRST[k] && b[FIRST[k]] == Load64(m, frame + 8 * k);
      } else if k > 3 {
        assert GENERAL[k] == REST[k - 4] && c[REST[k - 4]] == Load64(m, frame + 8 * k);
      }
    }
  }

  lemma ExitParts(h: Hart)
    ensures Exec(EXIT, h) == Exec(RETURN_STACK, Exec(RESTORE_REST, Exec(RESTORE_FIRST, Exec(RESTORE_CONTROL, h))))
  {
    hide Exec;
    ExecAppend(RESTORE_CONTROL + RESTORE_FIRST + RESTORE_REST, RETURN_STACK, h);
    ExecAppend(RESTORE_CONTROL + RESTORE_FIRST, RESTORE_REST, h);
    ExecAppend(RESTORE_CONTROL, RESTORE_FIRST, h);
  }

  /** Registers that agree on zero, sp and the frame's thirty are the same registers. */
  lemma AllRegisters(x: Regs, y: Regs)
    requires x[ZERO] == y[ZERO] && x[SP] == y[SP] && Values(x, GENERAL) == Values(y, GENERAL)
    ensures x == y
  {
    hide GENERAL;
    forall r: Reg ensures x[r] == y[r] {
      if r != ZERO && r != SP {
        var k := SlotOf(r);
        assert Values(x, GENERAL)[k] == x[r] && Values(y, GENERAL)[k] == y[r];
      }
    }
  }

  lemma SlotOf(r: Reg) returns (k: nat)
    requires r != ZERO && r != SP
    ensures k < |GENERAL| && GENERAL[k] == r
  {
    hide GENERAL;
    Slots();
    k := if r == RA then 0 else r - 2;
  }

  // ------------------------------------------------------------------ the layout of struct trap_frame

  /** In the words of struct trap_frame: ra stands at 0, gp (x3) to t6 (x31) at 8 to 232, sp at 240, sepc,
      sstatus and scause at 248, 256 and 264. */
  lemma EntryLayout(h: Hart)
    requires 272 <= h.csr.sscratch
    ensures var g := Exec(ENTRY, h); var f := h.csr.sscratch - 272;
            && g.x[2] == f && g.x[10] == f && g.csr.sscratch == h.x[2]
            && Load64(g.mem, f) == h.x[1]
            && (forall r | 3 <= r <= 31 :: Load64(g.mem, f + 8 * (r - 2)) == h.x[r])
            && Load64(g.mem, f + 240) == h.x[2] && Load64(g.mem, f + 248) == h.csr.sepc
            && Load64(g.mem, f + 256) == h.csr.sstatus && Load64(g.mem, f + 264) == h.csr.scause
  {
    hide Exec, ENTRY, GENERAL, SaveWords, Load64;
    EntrySavesAll(h);
    Slots();
    var m := Exec(ENTRY, h).mem;
    var f := h.csr.sscratch - 272;
    forall k | 0 <= k < 34 ensures Load64(m, f + 8 * k) == FrameOf(h)[k] {
      assert LoadWords(m, f, 34)[k] == FrameOf(h)[k];
    }
    forall r | 3 <= r <= 31 ensures Load64(m, f + 8 * (r - 2)) == h.x[r] {
      assert FrameOf(h)[r - 2] == h.x[GENERAL[r - 2]];
    }
    assert FrameOf(h)[0] == h.x[GENERAL[0]] && FrameOf(h)[30] == h.x[SP];
    assert Load64(m, f + 8 * 0) == FrameOf(h)[0] && Load64(m, f + 8 * 30) == FrameOf(h)[30];
    assert Load64(m, f + 8 * 31) == FrameOf(h)[31] && Load64(m, f + 8 * 32) == FrameOf(h)[32];
    assert Load64(m, f + 8 * 33) == FrameOf(h)[33];
  }

  /** The exit in the same words; sp comes back from sscratch and not from its slot. */
  lemma ExitLayout(h: Hart)
    requires h.x[2] + 272 < U64
    ensures var g := Exec(EXIT, h); var f := h.x[2];
            && g.x[1] == Load64(h.mem, f) && (forall r | 3 <= r <= 31 :: g.x[r] == Load64(h.mem, f + 8 * (r - 2)))
            && g.x[2] == h.csr.sscratch && g.csr.sscratch == f + 272
            && g.csr.sepc == Load64(h.mem, f + 248) && g.csr.sstatus == Load64(h.mem, f + 256)
            && g.mem == h.mem
  {
    hide Exec, EXIT, GENERAL, Load64;
    ExitRestoresAll(h);
    Slots();
    var g := Exec(EXIT, h);
    var words := LoadWords(h.mem, h.x[SP], 34);
    forall k | 0 <= k < 30 ensures g.x[GENERAL[k]] == Load64(h.mem, h.x[SP] + 8 * k) {
      assert Values(g.x, GENERAL)[k] == words[k];
    }
    forall r | 3 <= r <= 31 ensures g.x[r] == Load64(h.mem, h.x[2] + 8 * (r - 2)) {
      assert GENERAL[r - 2] == r;
    }
    assert GENERAL[0] == RA;
  }

  // ------------------------------------------------------------------ trap and sret in hardware

  /** sstatus after a trap from user mode (section 3.1.6.1 of the privileged architecture, version
      20211203): SIE moves to SPIE and is cleared, SPP records user mode. */
  function TrapStatus(s: Word): Word {
    Put(Put(Put(s, SPIE, Bit(s, SIE)), SIE, false), SPP, false)
  }

  /** sstatus after sret: SPIE moves back to SIE, SPIE is set, SPP is user mode. */
  function SretStatus(s: Word): Word {
    Put(Put(Put(s, SIE, Bit(s, SPIE)), SPIE, true), SPP, false)
  }

  lemma TrapStatusBits(s: Word, j: nat)
    ensures Bit(TrapStatus(s), j) ==
            if j == SPP then false else if j == SIE then false else if j == SPIE then Bit(s, SIE) else Bit(s, j)
  {
    hide Bit, PutBit;
    BitPut(s, SPIE, Bit(s, SIE), j);
    BitPut(Put(s, SPIE, Bit(s, SIE)), SIE, false, j);
    BitPut(Put(Put(s, SPIE, Bit(s, SIE)), SIE, false), SPP, false, j);
  }

  lemma SretStatusBits(s: Word, j: nat)
    ensures Bit(SretStatus(s), j) ==
            if j == SPP then false else if j == SPIE then true else if j == SIE then Bit(s, SPIE) else Bit(s, j)
  {
    hide Bit, PutBit;
    BitPut(s, SIE, Bit(s, SPIE), j);
    BitPut(Put(s, SIE, Bit(s, SPIE)), SPIE, true, j);
    BitPut(Put(Put(s, SIE, Bit(s, SPIE)), SPIE, true), SPP, false, j);
  }

  /** A trap from user mode and the sret that ends it leave sstatus as it was, but for SPIE, which
      sret sets. */
  lemma TrapThenSret(s: Word)
    requires !Bit(s, SPP)
    ensures SretStatus(TrapStatus(s)) == Put(s, SPIE, true)
    ensures !Bit(TrapStatus(s), SPP) && !Bit(TrapStatus(s), SIE)
  {
    hide Bit, PutBit, TrapStatus, SretStatus;
    forall j: nat ensures Bit(SretStatus(TrapStatus(s)), j) == Bit(Put(s, SPIE, true), j) {
      TrapStatusBits(s, j);
      TrapStatusBits(s, SPIE);
      SretStatusBits(TrapStatus(s), j);
      BitPut(s, SPIE, true, j);
    }
    SameWords(SretStatus(TrapStatus(s)), Put(s, SPIE, true));
    TrapStatusBits(s, SPP);
    TrapStatusBits(s, SIE);
  }

  /** If the handler sets SPIE in the saved status, the sret turns SIE on as well. */
  lemma TrapThenEnablingSret(s: Word)
    requires !Bit(s, SPP)
    ensures SretStatus(Put(TrapStatus(s), SPIE, true)) == Put(Put(s, SPIE, true), SIE, true)
    ensures !Bit(Put(TrapStatus(s), SPIE, true), SPP) && !Bit(Put(TrapStatus(s), SPIE, true), SIE)
  {
    hide Bit, PutBit, TrapStatus, SretStatus;
    var saved := Put(TrapStatus(s), SPIE, true);
    var result := Put(Put(s, SPIE, true), SIE, true);
    forall j: nat ensures Bit(SretStatus(saved), j) == Bit(result, j) {
      TrapStatusBits(s, j);
      BitPut(TrapStatus(s), SPIE, true, j);
      BitPut(TrapStatus(s), SPIE, true, SPIE);
      SretStatusBits(saved, j);
      BitPut(s, SPIE, true, j);
      BitPut(Put(s, SPIE, true), SIE, true, j);
    }
    SameWords(SretStatus(saved), result);
    TrapStatusBits(s, SPP);
    TrapStatusBits(s, SIE);
    BitPut(TrapStatus(s), SPIE, true, SPP);
    BitPut(TrapStatus(s), SPIE, true, SIE);
  }

  // ------------------------------------------------------------------ interrupts stay off

  predicate LeavesStatus(i: Instr) {
    match i
    case Csrw(r, _) => r != Sstatus
    case Csrrw(_, r, _) => r != Sstatus
    case Csrc(r, _) => r != Sstatus
    case _ => true
  }

  lemma {:induction false} StatusKept(code: seq<Instr>, h: Hart)
    requires forall k | 0 <= k < |code| :: LeavesStatus(code[k])
    ensures Exec(code, h).csr.sstatus == h.csr.sstatus
    decreases |code|
  {
    if code != [] {
      assert LeavesStatus(code[0]);
      StatusKept(code[1..], Exec1(code[0], h));
    }
  }

  lemma EntryLeavesStatus()
    ensures forall k | 0 <= k < |ENTRY| :: LeavesStatus(ENTRY[k])
  {
    hide SAVE_GENERAL;
    StoresInOrder();
  }

  lemma ExitTailLeavesStatus()
    ensures var tail := RESTORE_FIRST + RESTORE_REST + RETURN_STACK;
            EXIT == RESTORE_CONTROL + tail && forall k | 0 <= k < |tail| :: LeavesStatus(tail[k])
  {
    hide RESTORE_REST;
    LoadsInOrder();
  }

  /** SIE is off before every instruction of the handler: while the frame is written, ... */
  lemma EntryMasked(h: Hart, k: nat)
    requires !Bit(h.csr.sstatus, SIE) && k <= |ENTRY|
    ensures !Bit(Exec(ENTRY[..k], h).csr.sstatus, SIE)
  {
    hide Exec, Bit, ENTRY, LeavesStatus;
    EntryLeavesStatus();
    StatusKept(ENTRY[..k], h);
  }

  /** ... and while it is read back, if the status saved in it has SIE off. */
  lemma ExitMasked(h: Hart, k: nat)
    requires !Bit(h.csr.sstatus, SIE) && k <= |EXIT| && h.x[SP] + TF_SIZE < U64
    requires !Bit(Load64(h.mem, h.x[SP] + TF_SSTATUS), SIE)
    ensures !Bit(Exec(EXIT[..k], h).csr.sstatus, SIE)
  {
    hide Exec, Bit, Load64, EXIT, RESTORE_CONTROL, RESTORE_FIRST, RESTORE_REST, RETURN_STACK, LeavesStatus;
    var tail := RESTORE_FIRST + RESTORE_REST + RETURN_STACK;
    ExitTailLeavesStatus();
    ControlLength();
    if k < 4 {
      assert EXIT[..k] == RESTORE_CONTROL[..k];
      StatusKept(EXIT[..k], h);
    } else {
      assert EXIT[..k] == RESTORE_CONTROL + tail[..k - 4];
      ExecAppend(RESTORE_CONTROL, tail[..k - 4], h);
      ControlRestored(h);
      StatusKept(tail[..k - 4], Exec(RESTORE_CONTROL, h));
    }
  }

  lemma ControlLength()
    ensures |RESTORE_CONTROL| == 4 && forall k | 0 <= k < 3 :: LeavesStatus(RESTORE_CONTROL[k])
  {
  }

  // ------------------------------------------------------------------ entering user mode

  /** enter_user(a0 = entry, a1 = user stack top) up to its sret. */
  const ENTER: seq<Instr> := [Csrw(Sepc, A0)] + (CLEAR_SPP + SWAP_STACKS)
  const CLEAR_SPP: seq<Instr> := [Li(T0, 0x100), Csrc(Sstatus, T0)]
  const SWAP_STACKS: seq<Instr> := [Csrw(Sscratch, SP), Mv(SP, A1)]

  lemma SppCleared(h: Hart)
    ensures Exec(CLEAR_SPP, h) ==
            h.(x := h.x[T0 := 0x100], csr := h.csr.(sstatus := Put(h.csr.sstatus, SPP, false)))
    ensures !Bit(Put(h.csr.sstatus, SPP, false), SPP)
  {
    hide Bit, PutBit, AndNot, Exec;
    ExecTwo(CLEAR_SPP[0], CLEAR_SPP[1], h);
    assert CLEAR_SPP == [CLEAR_SPP[0], CLEAR_SPP[1]];
    MaskIsPower();
    AndNotIsPut(h.csr.sstatus, SPP);
    BitPut(h.csr.sstatus, SPP, false, SPP);
  }

  lemma StacksSwapped(h: Hart)
    ensures Exec(SWAP_STACKS, h) == h.(x := h.x[SP := h.x[A1]], csr := h.csr.(sscratch := h.x[SP]))
  {
    hide Exec;
    ExecTwo(SWAP_STACKS[0], SWAP_STACKS[1], h);
    assert SWAP_STACKS == [SWAP_STACKS[0], SWAP_STACKS[1]];
  }

  /** enter_user makes sret go to the entry in user mode, on the user stack, with the kernel's stack
      pointer kept in sscratch; it changes one bit of sstatus and no memory. */
  lemma EnterUser(h: Hart)
    ensures Exec(ENTER, h) ==
            h.(x := h.x[T0 := 0x100][SP := h.x[A1]],
               csr := h.csr.(sepc := h.x[A0], sscratch := h.x[SP], sstatus := Put(h.csr.sstatus, SPP, false)))
    ensures !Bit(Put(h.csr.sstatus, SPP, false), SPP)
  {
    hide Bit, PutBit, Exec, CLEAR_SPP, SWAP_STACKS;
    ExecAppend([Csrw(Sepc, A0)], CLEAR_SPP + SWAP_STACKS, h);
    ExecOne(Csrw(Sepc, A0), h);
    var h1 := Exec([Csrw(Sepc, A0)], h);
    ExecAppend(CLEAR_SPP, SWAP_STACKS, h1);
    SppCleared(h1);
    StacksSwapped(Exec(CLEAR_SPP, h1));
  }

  lemma MaskIsPower()
    ensures Pow2(SPP) == 0x100
  {
  }
}
