/** _swtch and thread_setup (labs 16 to 18): a thread that is switched back to continues with the
    registers it had when it called _swtch. */
module ContextSwitch {
  import opened Util
  import opened Memory
  import opened Riscv

  const CTX_RA: nat := 0
  const CTX_SP: nat := 8
  const CTX_S0: nat := 16
  const CTX_S1: nat := 24
  const CTX_S2: nat := 32
  const CTX_S3: nat := 40
  const CTX_S4: nat := 48
  const CTX_S5: nat := 56
  const CTX_S6: nat := 64
  const CTX_S7: nat := 72
  const CTX_S8: nat := 80
  const CTX_S9: nat := 88
  const CTX_S10: nat := 96
  const CTX_S11: nat := 104
  const CTX_SIZE: nat := 112
  const THREAD_START_FN: nat := 168
  const THREAD_START_ARG: nat := 176

  /** The registers of struct thread_context, in its order. */
  const SAVED: seq<Reg> := [RA, SP, S0, S1, S2, S3, S4, S5, S6, S7, S8, S9, S10, S11]

  const SAVE: seq<Instr> := [
    Sd(RA, CTX_RA, TP), Sd(SP, CTX_SP, TP), Sd(S0, CTX_S0, TP), Sd(S1, CTX_S1, TP),
    Sd(S2, CTX_S2, TP), Sd(S3, CTX_S3, TP), Sd(S4, CTX_S4, TP), Sd(S5, CTX_S5, TP),
    Sd(S6, CTX_S6, TP), Sd(S7, CTX_S7, TP), Sd(S8, CTX_S8, TP), Sd(S9, CTX_S9, TP),
    Sd(S10, CTX_S10, TP), Sd(S11, CTX_S11, TP)
  ]

  const RESTORE: seq<Instr> := [
    Ld(RA, CTX_RA, TP), Ld(SP, CTX_SP, TP), Ld(S0, CTX_S0, TP), Ld(S1, CTX_S1, TP),
    Ld(S2, CTX_S2, TP), Ld(S3, CTX_S3, TP), Ld(S4, CTX_S4, TP), Ld(S5, CTX_S5, TP),
    Ld(S6, CTX_S6, TP), Ld(S7, CTX_S7, TP), Ld(S8, CTX_S8, TP), Ld(S9, CTX_S9, TP),
    Ld(S10, CTX_S10, TP), Ld(S11, CTX_S11, TP)
  ]

  /** _swtch up to its ret, which continues at ra. */
  const SWTCH: seq<Instr> := SAVE + [Mv(TP, A0)] + RESTORE

  function Context(m: Mem, block: int): (r: seq<Word>)
    ensures |r| == 14
  {
    LoadWords(m, block, 14)
  }

  /** The stores and the loads name the saved registers, each in its own slot. */
  lemma SavedList()
    ensures IsStores(SAVE, SAVED, 0, TP) && IsLoads(RESTORE, SAVED, 0, TP)
    ensures |SAVED| == 14 && NoDup(SAVED) && TP !in SAVED && ZERO !in SAVED
  {
    hide NoDup;
    SavedOnce();
  }

  lemma SavedOnce()
    ensures NoDup(SAVED)
  {
  }

  /** The saved registers are ra, sp and s0 to s11, the registers that the calling convention leaves to the
      callee (x1, x2, x8, x9 and x18 to x27), and no other. */
  lemma SavedAreCalleeSaved(x: Regs, y: Regs)
    ensures Values(x, SAVED) == Values(y, SAVED) <==>
            x[1] == y[1] && x[2] == y[2] && x[8] == y[8] && x[9] == y[9] && forall r | 18 <= r <= 27 :: x[r] == y[r]
  {
    hide SAVED;
    SavedSlots();
    if Values(x, SAVED) == Values(y, SAVED) {
      forall k | 0 <= k < 14 ensures x[SAVED[k]] == y[SAVED[k]] {
        assert Values(x, SAVED)[k] == Values(y, SAVED)[k];
      }
      assert SAVED[0] == 1 && SAVED[1] == 2 && SAVED[2] == 8 && SAVED[3] == 9;
      forall r | 18 <= r <= 27 ensures x[r] == y[r] {
        assert SAVED[r - 14] == r;
      }
    }
  }

  lemma SavedSlots()
    ensures |SAVED| == 14
    ensures forall k | 0 <= k < 14 :: SAVED[k] == if k < 2 then k + 1 else if k < 4 then k + 6 else k + 14
  {
  }

  /** The caller's block receives its registers; then tp and the saved registers are the next
      thread's; no other register and no other byte of memory changes. */
  lemma SwitchEffect(h: Hart)
    requires h.x[TP] + CTX_SIZE <= U64 && h.x[A0] + CTX_SIZE <= U64
    ensures var g := Exec(SWTCH, h);
            && g.mem == SaveWords(h.mem, h.x[TP], Values(h.x, SAVED))
            && g.x[TP] == h.x[A0] && g.csr == h.csr
            && Values(g.x, SAVED) == Context(g.mem, h.x[A0])
            && (forall r: Reg | r !in SAVED && r != TP :: g.x[r] == h.x[r])
  {
    hide Exec, IsStores, IsLoads, NoDup, SaveWords, LoadWords, Values;
    SavedList();
    BlockSwitch(h, SAVE, RESTORE, SAVED);
  }

  /** In the words of struct thread_context, whose ra, sp and s[12] stand 8 bytes apart from its start:
      the caller's block holds the caller's registers, and the next thread has those of its block. */
  lemma SwitchLayout(h: Hart, k: nat)
    requires h.x[TP] + CTX_SIZE <= U64 && h.x[A0] + CTX_SIZE <= U64 && k < 14
    ensures var g := Exec(SWTCH, h); var r := if k < 2 then k + 1 else if k < 4 then k + 6 else k + 14;
            && Load64(g.mem, h.x[TP] + 8 * k) == h.x[r]
            && g.x[r] == Load64(g.mem, h.x[A0] + 8 * k) && g.x[4] == h.x[10]
  {
    hide Exec, SaveWords, Load64, SAVED;
    SwitchEffect(h);
    SavedSlots();
    LoadSaved(h.mem, h.x[TP], Values(h.x, SAVED), k);
    assert Values(Exec(SWTCH, h).x, SAVED)[k] == Context(Exec(SWTCH, h).mem, h.x[A0])[k];
  }

  /** The same for any list of registers that is saved and restored through tp. */
  lemma BlockSwitch(h: Hart, save: seq<Instr>, restore: seq<Instr>, regs: seq<Reg>)
    requires IsStores(save, regs, 0, TP) && IsLoads(restore, regs, 0, TP)
    requires NoDup(regs) && TP !in regs && ZERO !in regs
    requires h.x[TP] + 8 * |regs| <= U64 && h.x[A0] + 8 * |regs| <= U64
    ensures var g := Exec(save + [Mv(TP, A0)] + restore, h);
            && g.mem == SaveWords(h.mem, h.x[TP], Values(h.x, regs))
            && g.x[TP] == h.x[A0] && g.csr == h.csr
            && Values(g.x, regs) == LoadWords(g.mem, h.x[A0], |regs|)
            && (forall r: Reg | r !in regs && r != TP :: g.x[r] == h.x[r])
  {
    hide SaveWords, LoadWords, IsStores, IsLoads;
    ExecAppend(save + [Mv(TP, A0)], restore, h);
    ExecAppend(save, [Mv(TP, A0)], h);
    ExecStores(h, save, regs, 0, TP);
    var a := Exec(save, h);
    var b := a.(x := a.x[TP := a.x[A0]]);
    assert Exec([Mv(TP, A0)], a) == b;
    ExecLoads(b, restore, regs, 0, TP);
    RegsLoaded(b.x, regs, LoadWords(b.mem, b.x[TP], |regs|));
  }

  // ------------------------------------------------------------------ whole runs

  /** A thread arrives at its call of _swtch with its registers and memory in h. */
  datatype Turn = Turn(h: Hart, next: nat)

  /** Context blocks inside the address space, no two overlapping. */
  ghost predicate Apart(blocks: seq<Word>) {
    && (forall t | 0 <= t < |blocks| :: blocks[t] + CTX_SIZE <= U64)
    && (forall t, u | 0 <= t < u < |blocks| ::
          blocks[t] + CTX_SIZE <= blocks[u] || blocks[u] + CTX_SIZE <= blocks[t])
  }

  /** Who makes turn k. */
  function Runner(first: nat, ts: seq<Turn>, k: nat): nat
    requires k <= |ts|
  {
    if k == 0 then first else ts[k - 1].next
  }

  /** The state in which the next thread continues after turn k. */
  function Resumed(t: Turn): Hart {
    Exec(SWTCH, t.h)
  }

  function MemBefore(m: Mem, ts: seq<Turn>, k: nat): Mem
    requires k <= |ts|
  {
    if k == 0 then m else Resumed(ts[k - 1]).mem
  }

  /** Any sequence of switches. Between two switches the running thread may change all registers
      but tp, and all memory but the context blocks. */
  ghost predicate IsRun(blocks: seq<Word>, m: Mem, first: nat, ts: seq<Turn>) {
    && Apart(blocks) && first < |blocks|
    && forall k | 0 <= k < |ts| ::
         && ts[k].next < |blocks| && Runner(first, ts, k) < |blocks|
         && ts[k].h.x[TP] == blocks[Runner(first, ts, k)]
         && ts[k].h.x[A0] == blocks[ts[k].next]
         && forall u | 0 <= u < |blocks| ::
              Context(ts[k].h.mem, blocks[u]) == Context(MemBefore(m, ts, k), blocks[u])
  }

  /** A turn rewrites the block of the thread that makes it and no other block. */
  lemma TurnWritesOwnBlock(blocks: seq<Word>, h: Hart, t: nat, n: nat, u: nat)
    requires Apart(blocks) && t < |blocks| && n < |blocks| && u < |blocks|
    requires h.x[TP] == blocks[t] && h.x[A0] == blocks[n]
    ensures Context(Exec(SWTCH, h).mem, blocks[u]) == if u == t then Values(h.x, SAVED) else Context(h.mem, blocks[u])
  {
    hide Exec, SaveWords;
    SwitchEffect(h);
    var vals := Values(h.x, SAVED);
    if u == t {
      LoadAllSaved(h.mem, blocks[t], vals);
    } else {
      forall b | blocks[u] <= b < blocks[u] + CTX_SIZE
        ensures Peek(SaveWords(h.mem, blocks[t], vals), b) == Peek(h.mem, b)
      {
        SaveFrame(h.mem, blocks[t], vals, b);
      }
      LoadWordsAgree(SaveWords(h.mem, blocks[t], vals), h.mem, blocks[u], 14);
    }
  }

  lemma TurnFacts(blocks: seq<Word>, m: Mem, first: nat, ts: seq<Turn>, k: nat, u: nat)
    requires IsRun(blocks, m, first, ts) && k < |ts| && u < |blocks|
    ensures var t := Runner(first, ts, k);
            && t < |blocks| && ts[k].next < |blocks| && Apart(blocks)
            && ts[k].h.x[TP] == blocks[t] && ts[k].h.x[A0] == blocks[ts[k].next]
            && blocks[t] + CTX_SIZE <= U64 && blocks[ts[k].next] + CTX_SIZE <= U64
    ensures Context(ts[k].h.mem, blocks[u]) == Context(MemBefore(m, ts, k), blocks[u])
  {
    hide Exec, Context;
  }

  /** What turn k leaves in the block of thread u. */
  lemma TurnLeaves(blocks: seq<Word>, m: Mem, first: nat, ts: seq<Turn>, k: nat, u: nat)
    requires IsRun(blocks, m, first, ts) && k < |ts| && u < |blocks|
    ensures Context(MemBefore(m, ts, k + 1), blocks[u]) ==
            if u == Runner(first, ts, k) then Values(ts[k].h.x, SAVED) else Context(MemBefore(m, ts, k), blocks[u])
  {
    hide Exec, Context, IsRun, Apart, Values;
    TurnFacts(blocks, m, first, ts, k, u);
    TurnWritesOwnBlock(blocks, ts[k].h, Runner(first, ts, k), ts[k].next, u);
  }

  /** While thread t does not run, its block stays what it was before turn i. */
  lemma {:induction false} BlockStays(blocks: seq<Word>, m: Mem, first: nat, ts: seq<Turn>, t: nat, i: nat, j: nat)
    requires IsRun(blocks, m, first, ts) && t < |blocks| && i <= j <= |ts|
    requires forall k | i <= k < j :: Runner(first, ts, k) != t
    ensures Context(MemBefore(m, ts, j), blocks[t]) == Context(MemBefore(m, ts, i), blocks[t])
    decreases j
  {
    hide Exec, Context, IsRun, MemBefore;
    if i < j {
      BlockStays(blocks, m, first, ts, t, i, j - 1);
      TurnLeaves(blocks, m, first, ts, j - 1, t);
    }
  }

  /** A thread that is switched to at turn j continues with the ra, sp and s0 to s11 of its own last
      call of _swtch, made at turn i, and with tp pointing to itself. */
  lemma ResumesOwnContext(blocks: seq<Word>, m: Mem, first: nat, ts: seq<Turn>, i: nat, j: nat)
    requires IsRun(blocks, m, first, ts) && i <= j < |ts| && ts[j].next == Runner(first, ts, i)
    requires forall k | i < k <= j :: Runner(first, ts, k) != Runner(first, ts, i)
    ensures Values(Resumed(ts[j]).x, SAVED) == Values(ts[i].h.x, SAVED)
    ensures Resumed(ts[j]).x[TP] == ts[i].h.x[TP]
  {
    hide Exec, Context, IsRun, Values, Apart, Runner, SaveWords, SWTCH, SAVED;
    var t := Runner(first, ts, i);
    RunHasThreads(blocks, m, first, ts);
    TurnFacts(blocks, m, first, ts, i, 0);
    TurnFacts(blocks, m, first, ts, j, t);
    TurnLeaves(blocks, m, first, ts, i, t);
    BlockStays(blocks, m, first, ts, t, i + 1, j + 1);
    SwitchEffect(ts[j].h);
  }

  /** A thread that has never run starts from the context that was prepared for it. */
  lemma FirstDispatch(blocks: seq<Word>, m: Mem, first: nat, ts: seq<Turn>, j: nat)
    requires IsRun(blocks, m, first, ts) && j < |ts|
    requires forall k | 0 <= k <= j :: Runner(first, ts, k) != ts[j].next
    ensures ts[j].next < |blocks| && Values(Resumed(ts[j]).x, SAVED) == Context(m, blocks[ts[j].next])
    ensures Resumed(ts[j]).x[TP] == blocks[ts[j].next]
  {
    hide Exec, Context, IsRun, Values, Apart;
    RunHasThreads(blocks, m, first, ts);
    TurnFacts(blocks, m, first, ts, j, 0);
    BlockStays(blocks, m, first, ts, ts[j].next, 0, j + 1);
    SwitchEffect(ts[j].h);
  }

  lemma RunHasThreads(blocks: seq<Word>, m: Mem, first: nat, ts: seq<Turn>)
    requires IsRun(blocks, m, first, ts)
    ensures |blocks| > 0
  {
  }

  /** A thread that switches to itself notices nothing. */
  lemma SwitchToSelf(h: Hart)
    requires h.x[TP] == h.x[A0] && h.x[TP] + CTX_SIZE <= U64
    ensures Exec(SWTCH, h).x == h.x
  {
    hide Exec, SaveWords;
    SwitchEffect(h);
    LoadAllSaved(h.mem, h.x[TP], Values(h.x, SAVED));
    var g := Exec(SWTCH, h);
    forall r: Reg ensures g.x[r] == h.x[r] {
      if r in SAVED {
        var k :| 0 <= k < |SAVED| && SAVED[k] == r;
        assert Values(g.x, SAVED)[k] == g.x[r] && Values(h.x, SAVED)[k] == h.x[r];
      }
    }
  }

  // ------------------------------------------------------------------ the first dispatch

  /** thread_setup, and the call of the start function that follows it. */
  const SETUP: seq<Instr> := [Ld(T0, THREAD_START_FN, TP), Ld(A0, THREAD_START_ARG, TP)]
  const CALL_START: Op := CallVia(T0, 0)

  /** thread_spawn's preparation and thread_setup fit together: the first switch to a new thread
      continues at the trampoline on the thread's own stack, and the trampoline calls the start
      function (jalr clears bit 0 of its address) with the start argument in a0, without touching the
      stack. The function returns to the place after the jalr, which stands at `call` and is `unit`
      bytes long: thread_function_returned, which calls thread_exit. */
  lemma SpawnedThreadStarts(h: Hart, setup: Word, top: Word, fn: Word, arg: Word, call: Word, unit: Word)
    requires h.x[A0] + THREAD_START_ARG + 8 <= U64 && h.x[TP] + CTX_SIZE <= U64
    requires h.x[TP] + CTX_SIZE <= h.x[A0] || h.x[A0] + THREAD_START_ARG + 8 <= h.x[TP]
    requires Load64(h.mem, h.x[A0] + CTX_RA) == setup && Load64(h.mem, h.x[A0] + CTX_SP) == top
    requires Load64(h.mem, h.x[A0] + THREAD_START_FN) == fn && Load64(h.mem, h.x[A0] + THREAD_START_ARG) == arg
    ensures var g := Exec(SWTCH, h); g.x[RA] == setup && g.x[SP] == top && g.x[TP] == h.x[A0]
    ensures var g := Exec(SWTCH, h); var (pc, s) := Advance(CALL_START, call, unit, Exec(SETUP, g));
            && pc == fn - fn % 2 && s.x[RA] == Following(call, unit) && s.x[A0] == arg
            && s.x[SP] == top && s.x[TP] == h.x[A0] && s.mem == g.mem
  {
    hide Exec, Load64;
    var g := SwitchKeepsBlock(h);
    SetupLoads(g);
    assert Values(g.x, SAVED)[0] == g.x[RA] && Values(g.x, SAVED)[1] == g.x[SP];
    AddressInRange(Exec(SETUP, g).x, T0, 0);
  }

  lemma SwitchKeepsBlock(h: Hart) returns (g: Hart)
    requires h.x[A0] + THREAD_START_ARG + 8 <= U64 && h.x[TP] + CTX_SIZE <= U64
    requires h.x[TP] + CTX_SIZE <= h.x[A0] || h.x[A0] + THREAD_START_ARG + 8 <= h.x[TP]
    ensures g == Exec(SWTCH, h) && g.x[TP] == h.x[A0]
    ensures Values(g.x, SAVED) == Context(h.mem, h.x[A0])
    ensures Load64(g.mem, h.x[A0] + THREAD_START_FN) == Load64(h.mem, h.x[A0] + THREAD_START_FN)
    ensures Load64(g.mem, h.x[A0] + THREAD_START_ARG) == Load64(h.mem, h.x[A0] + THREAD_START_ARG)
  {
    hide Exec, SaveWords, Load64;
    SwitchEffect(h);
    g := Exec(SWTCH, h);
    var b := h.x[A0];
    forall a | b <= a < b + THREAD_START_ARG + 8 ensures Peek(g.mem, a) == Peek(h.mem, a) {
      SaveFrame(h.mem, h.x[TP], Values(h.x, SAVED), a);
    }
    LoadWordsAgree(g.mem, h.mem, b, 14);
    LoadAgrees(g.mem, h.mem, b + THREAD_START_FN);
    LoadAgrees(g.mem, h.mem, b + THREAD_START_ARG);
  }

  lemma SetupLoads(g: Hart)
    requires g.x[TP] + THREAD_START_ARG + 8 <= U64
    ensures var s := Exec(SETUP, g);
            && s.x[T0] == Load64(g.mem, g.x[TP] + THREAD_START_FN)
            && s.x[A0] == Load64(g.mem, g.x[TP] + THREAD_START_ARG)
            && s.x[SP] == g.x[SP] && s.x[TP] == g.x[TP] && s.mem == g.mem
  {
    hide Load64;
    var a := Exec1(SETUP[0], g);
    assert SETUP[1..] == [SETUP[1]] && [SETUP[1]][1..] == [];
    assert Exec(SETUP[1..], a) == Exec1(SETUP[1], a);
    AddressInRange(g.x, TP, THREAD_START_FN);
    AddressInRange(a.x, TP, THREAD_START_ARG);
  }

  // ------------------------------------------------------------------ the code itself

  /** _swtch run on a hart. */
  method Swtch(cpu: Cpu)
    requires cpu.x[TP] + CTX_SIZE <= U64 && cpu.x[A0] + CTX_SIZE <= U64
    modifies cpu
    ensures cpu.State() == Exec(SWTCH, old(cpu.State()))
    ensures cpu.x[TP] == old(cpu.x[A0])
    ensures cpu.mem == SaveWords(old(cpu.mem), old(cpu.x[TP]), old(Values(cpu.x, SAVED)))
    ensures Values(cpu.x, SAVED) == Context(cpu.mem, old(cpu.x[A0]))
  {
    hide Exec, SaveWords;
    SwitchEffect(cpu.State());
    cpu.Execute(SWTCH);
  }
}
