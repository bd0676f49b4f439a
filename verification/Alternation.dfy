/** Lab 16: two threads that switch to each other n times, instruction by instruction. */
module Alternation {
  import opened Util
  import opened Memory
  import opened Riscv
  import opened ContextSwitch

  /** Places in swtch.S: the numbers of its instructions. */
  const SWTCH_ENTRY: nat := 0
  const THREAD_A_FLOW: nat := 30
  const A_AFTER_RESUME: nat := 36
  const A_DONE: nat := 43
  const THREAD_B_ENTRY: nat := 46
  const B_AFTER_SWITCH: nat := 50
  const CONTEXT_CHECK_FAILED: nat := 56
  const CODE_END: nat := 58

  const A_SENTINEL: Word := 0xa16
  const B_SENTINEL: Word := 0xb16

  /** The loop constant (50 in the source) and the addresses of the two threads. */
  datatype Lab = Lab(n: Word, a: Word, b: Word)

  function Fetch(l: Lab, pc: nat): Op {
    if pc < 29 then Plain(SWTCH[pc])
    else
      match pc
      case 29 => Ret
      // thread_a_flow
      case 30 => Plain(Addi(SP, SP, -16))
      case 31 => Plain(Sd(RA, 8, SP))
      case 32 => Plain(Li(S1, A_SENTINEL))
      case 33 => Plain(Li(S2, l.n))
      case 34 => Plain(Li(A0, l.b))
      case 35 => Call(SWTCH_ENTRY)
      // thread_a_after_resume
      case 36 => Plain(Li(T0, A_SENTINEL))
      case 37 => Bne(S1, T0, CONTEXT_CHECK_FAILED)
      case 38 => Plain(Addi(S2, S2, -1))
      case 39 => Beqz(S2, A_DONE)
      case 40 => Plain(Li(A0, l.b))
      case 41 => Call(SWTCH_ENTRY)
      case 42 => Jump(A_AFTER_RESUME)
      case 43 => Plain(Ld(RA, 8, SP))
      case 44 => Plain(Addi(SP, SP, 16))
      case 45 => Ret
      // thread_b_entry
      case 46 => Plain(Li(S1, B_SENTINEL))
      case 47 => Plain(Li(S2, l.n))
      case 48 => Plain(Li(A0, l.a))
      case 49 => Call(SWTCH_ENTRY)
      // thread_b_after_switch
      case 50 => Plain(Li(T0, B_SENTINEL))
      case 51 => Bne(S1, T0, CONTEXT_CHECK_FAILED)
      case 52 => Plain(Addi(S2, S2, -1))
      case 53 => Plain(Li(A0, l.a))
      case 54 => Call(SWTCH_ENTRY)
      case 55 => Jump(B_AFTER_SWITCH)
      case 56 => Escape
      case _ => Jump(57)
  }

  datatype State = State(pc: Word, h: Hart)

  function Step(l: Lab, s: State): State {
    var (pc, h) := Advance(Fetch(l, s.pc), s.pc, 1, s.h);
    State(pc, h)
  }

  /** From s the machine is in t after k steps, none of which is taken at or beyond the failed
      check; `log` are the threads that entered _swtch on the way. */
  ghost predicate Reach(l: Lab, s: State, t: State, log: seq<Word>, k: nat)
    decreases k
  {
    if k == 0 then s == t && log == []
    else
      && s.pc < CONTEXT_CHECK_FAILED
      && (if s.pc == SWTCH_ENTRY then log != [] && log[0] == s.h.x[TP] && Reach(l, Step(l, s), t, log[1..], k - 1)
          else Reach(l, Step(l, s), t, log, k - 1))
  }

  lemma {:induction false} ReachThen(l: Lab, s: State, t: State, u: State, a: seq<Word>, b: seq<Word>, j: nat, k: nat)
    requires Reach(l, s, t, a, j) && Reach(l, t, u, b, k)
    ensures Reach(l, s, u, a + b, j + k)
    decreases j
  {
    hide Step;
    if j == 0 {
      assert a + b == b;
    } else if s.pc == SWTCH_ENTRY {
      assert (a + b)[1..] == a[1..] + b;
      ReachThen(l, Step(l, s), t, u, a[1..], b, j - 1, k);
    } else {
      ReachThen(l, Step(l, s), t, u, a, b, j - 1, k);
    }
  }

  /** Straight-line code away from the entry of _swtch. */
  lemma {:induction false} PlainRun(l: Lab, s: State, code: seq<Instr>)
    requires s.pc > SWTCH_ENTRY && s.pc + |code| <= CONTEXT_CHECK_FAILED
    requires forall j | 0 <= j < |code| :: Fetch(l, s.pc + j) == Plain(code[j])
    ensures Reach(l, s, State(s.pc + |code|, Exec(code, s.h)), [], |code|)
    decreases |code|
  {
    hide Exec1, Fetch;
    if code != [] {
      var n := Step(l, s);
      assert Fetch(l, s.pc + 0) == Plain(code[0]);
      forall j | 0 <= j < |code| - 1 ensures Fetch(l, n.pc + j) == Plain(code[1..][j]) {
        assert Fetch(l, s.pc + (j + 1)) == Plain(code[j + 1]);
      }
      PlainRun(l, n, code[1..]);
    }
  }

  /** Places 0 to 29 hold _swtch. */
  lemma SwtchListed(l: Lab)
    ensures |SWTCH| == 29 && (forall j | 0 <= j < 29 :: Fetch(l, j) == Plain(SWTCH[j])) && Fetch(l, 29) == Ret
  {
  }

  lemma FirstOf(code: seq<Instr>, h: Hart)
    requires code != []
    ensures Exec(code, h) == Exec(code[1..], Exec1(code[0], h))
  {
    hide Exec1;
  }

  /** One call of _swtch: it logs the caller and continues where the next thread's ra points. */
  lemma SwitchRun(l: Lab, s: State)
    requires s.pc == SWTCH_ENTRY
    ensures var g := Exec(SWTCH, s.h); Reach(l, s, State(g.x[RA], g), [s.h.x[TP]], 30)
  {
    hide Exec1, Exec, SWTCH, Fetch;
    SwtchListed(l);
    var n := Step(l, s);
    FirstOf(SWTCH, s.h);
    forall j | 0 <= j < 28 ensures Fetch(l, n.pc + j) == Plain(SWTCH[1..][j]) {
      assert Fetch(l, j + 1) == Plain(SWTCH[j + 1]);
    }
    PlainRun(l, n, SWTCH[1..]);
    var m := State(29, Exec(SWTCH, s.h));
    var g := m.h;
    assert Reach(l, s, m, [s.h.x[TP]], 29) by {
      assert [s.h.x[TP]][1..] == [];
    }
    assert Step(l, m) == State(g.x[RA], g);
    assert Reach(l, m, State(g.x[RA], g), [], 1);
    ReachThen(l, s, m, State(g.x[RA], g), [s.h.x[TP]], [], 29, 1);
    assert [s.h.x[TP]] + [] == [s.h.x[TP]];
  }

  /** The callee-saved registers that neither thread uses. */
  predicate SameRest(x: Regs, y: Regs) {
    && x[S0] == y[S0] && x[S3] == y[S3] && x[S4] == y[S4] && x[S5] == y[S5] && x[S6] == y[S6]
    && x[S7] == y[S7] && x[S8] == y[S8] && x[S9] == y[S9] && x[S10] == y[S10] && x[S11] == y[S11]
  }

  /** What a function must give back to its caller: sp and s0 to s11. */
  predicate KeepsAbi(x: Regs, y: Regs) {
    x[SP] == y[SP] && x[S1] == y[S1] && x[S2] == y[S2] && SameRest(x, y)
  }

  // ------------------------------------------------------------------ the code between two switches

  /** One step that is not taken at the entry of _swtch. */
  lemma OneStep(l: Lab, s: State)
    requires SWTCH_ENTRY < s.pc < CONTEXT_CHECK_FAILED
    ensures Reach(l, s, Step(l, s), [], 1)
  {
    assert Reach(l, Step(l, s), Step(l, s), [], 0);
  }

  lemma Still(l: Lab, s: State)
    ensures Reach(l, s, s, [], 0)
  {
  }

  lemma Joined(l: Lab, s: State, t: State, u: State, j: nat, k: nat)
    requires Reach(l, s, t, [], j) && Reach(l, t, u, [], k)
    ensures Reach(l, s, u, [], j + k)
  {
    ReachThen(l, s, t, u, [], [], j, k);
    var none: seq<Word> := [];
    assert none + none == none;
  }

  /** The checks do check: a thread that is resumed with another s1 than its own goes to
      context_check_failed. */
  lemma CheckFails(l: Lab, s: State)
    requires (s.pc == A_AFTER_RESUME && s.h.x[S1] != 0xa16) || (s.pc == B_AFTER_SWITCH && s.h.x[S1] != 0xb16)
    ensures var t := Step(l, Step(l, s)); Reach(l, s, t, [], 2) && t.pc == CONTEXT_CHECK_FAILED
  {
    hide Reach;
    var u := Step(l, s);
    OneStep(l, s);
    OneStep(l, u);
    Joined(l, s, u, Step(l, u), 1, 1);
  }

  /** What thread B, entered or resumed in s, has done by t, on its way to its next switch. */
  predicate OnWayB(l: Lab, s: State, t: State) {
    && t.h.mem == s.h.mem && t.h.x[TP] == l.b && (t.pc == SWTCH_ENTRY || 46 <= t.pc <= 55)
    && (t.pc != 46 ==> t.h.x[S1] == B_SENTINEL)
    && (s.pc == THREAD_B_ENTRY ==> t.pc <= 49 && (t.pc != 46 && t.pc != 47 ==> t.h.x[S2] == l.n))
    && (s.pc != THREAD_B_ENTRY ==>
          && (t.pc == SWTCH_ENTRY || t.pc >= 50)
          && t.h.x[S2] == if t.pc >= 50 && t.pc != 53 && t.pc != 54 then s.h.x[S2] else (s.h.x[S2] - 1) % U64)
    && (t.pc == 51 ==> t.h.x[T0] == B_SENTINEL)
    && (t.pc == 49 || t.pc == 54 || t.pc == SWTCH_ENTRY ==> t.h.x[A0] == l.a)
    && (t.pc == SWTCH_ENTRY ==> t.h.x[RA] == 50 || t.h.x[RA] == 55)
  }

  function LeftB(pc: Word): nat {
    if pc == SWTCH_ENTRY || pc > 55 then 0 else if pc == 55 then 9 else if pc >= 50 then 56 - pc else 60 - pc
  }

  lemma EntersB(l: Lab, s: State, t: State)
    requires OnWayB(l, s, t) && s.pc == THREAD_B_ENTRY && t.pc != SWTCH_ENTRY
    ensures OnWayB(l, s, Step(l, t)) && LeftB(Step(l, t).pc) < LeftB(t.pc)
  {
    hide Load64, Store64, Address;
  }

  lemma GoesOnB(l: Lab, s: State, t: State)
    requires OnWayB(l, s, t) && s.pc != THREAD_B_ENTRY && t.pc != SWTCH_ENTRY
    ensures OnWayB(l, s, Step(l, t)) && LeftB(Step(l, t).pc) < LeftB(t.pc)
  {
    hide Load64, Store64, Address;
  }

  lemma StartsB(l: Lab, s: State)
    requires s.h.x[TP] == l.b
    requires s.pc == THREAD_B_ENTRY || ((s.pc == 50 || s.pc == 55) && s.h.x[S1] == B_SENTINEL)
    ensures OnWayB(l, s, s)
  {
  }

  lemma PlaceB(l: Lab, s: State, t: State)
    requires OnWayB(l, s, t)
    ensures t.pc < CONTEXT_CHECK_FAILED
  {
  }

  lemma ArrivesB(l: Lab, s: State, t: State)
    requires OnWayB(l, s, t) && t.pc == SWTCH_ENTRY
    ensures t.h.mem == s.h.mem && t.h.x[TP] == l.b && t.h.x[A0] == l.a
    ensures t.h.x[S1] == B_SENTINEL && (t.h.x[RA] == 50 || t.h.x[RA] == 55)
    ensures t.h.x[S2] == if s.pc == THREAD_B_ENTRY then l.n else (s.h.x[S2] - 1) % U64
  {
  }

  /** Thread B from where it was left to its next call; it counts in s2 what it has left, like A. */
  lemma RunB(l: Lab, s: State) returns (t: State, k: nat)
    requires s.h.x[TP] == l.b
    requires s.pc == THREAD_B_ENTRY || ((s.pc == 50 || s.pc == 55) && s.h.x[S1] == B_SENTINEL)
    ensures Reach(l, s, t, [], k)
    ensures t.pc == SWTCH_ENTRY && t.h.mem == s.h.mem && t.h.x[TP] == l.b && t.h.x[A0] == l.a
    ensures t.h.x[S1] == B_SENTINEL && (t.h.x[RA] == 50 || t.h.x[RA] == 55)
    ensures t.h.x[S2] == if s.pc == THREAD_B_ENTRY then l.n else (s.h.x[S2] - 1) % U64
  {
    hide Reach, Step, OnWayB, LeftB;
    Still(l, s);
    StartsB(l, s);
    t, k := s, 0;
    while t.pc != SWTCH_ENTRY
      invariant Reach(l, s, t, [], k) && OnWayB(l, s, t)
      decreases LeftB(t.pc)
    {
      var u := Step(l, t);
      PlaceB(l, s, t);
      OneStep(l, t);
      if s.pc == THREAD_B_ENTRY {
        EntersB(l, s, t);
      } else {
        GoesOnB(l, s, t);
      }
      Joined(l, s, t, u, k, 1);
      t, k := u, k + 1;
    }
    ArrivesB(l, s, t);
  }

  /** Thread A from a resumption to its next call, or to the end of its loop. */
  lemma RunA(l: Lab, s: State) returns (t: State, k: nat)
    requires s.h.x[TP] == l.a && s.h.x[S1] == A_SENTINEL && s.h.x[S2] >= 1
    requires s.pc == A_AFTER_RESUME || s.pc == 42
    ensures Reach(l, s, t, [], k)
    ensures t.h.mem == s.h.mem && t.h.x[TP] == l.a && t.h.x[SP] == s.h.x[SP] && SameRest(t.h.x, s.h.x)
    ensures t.h.x[S1] == A_SENTINEL && t.h.x[S2] == s.h.x[S2] - 1
    ensures t.pc == if s.h.x[S2] == 1 then A_DONE else SWTCH_ENTRY
    ensures t.pc == SWTCH_ENTRY ==> t.h.x[A0] == l.b && t.h.x[RA] == 42
  {
    hide Reach;
    Still(l, s);
    t, k := s, 0;
    while t.pc != SWTCH_ENTRY && t.pc != A_DONE
      invariant Reach(l, s, t, [], k) && t.h.mem == s.h.mem
      invariant t.h.x[TP] == l.a && t.h.x[SP] == s.h.x[SP] && t.h.x[S1] == A_SENTINEL && SameRest(t.h.x, s.h.x)
      invariant t.pc == SWTCH_ENTRY || 36 <= t.pc <= 43
      invariant t.h.x[S2] == if t.pc in {36, 37, 38, 42} then s.h.x[S2] else s.h.x[S2] - 1
      invariant t.pc == 37 ==> t.h.x[T0] == A_SENTINEL
      invariant t.pc in {SWTCH_ENTRY, 40, 41} ==> s.h.x[S2] > 1
      invariant t.pc == A_DONE ==> s.h.x[S2] == 1
      invariant t.pc in {SWTCH_ENTRY, 41} ==> t.h.x[A0] == l.b
      invariant t.pc == SWTCH_ENTRY ==> t.h.x[RA] == 42
      decreases if t.pc == SWTCH_ENTRY || t.pc == A_DONE then 0 else if t.pc == 42 then 9 else 43 - t.pc
    {
      var u := Step(l, t);
      OneStep(l, t);
      Joined(l, s, t, u, k, 1);
      t, k := u, k + 1;
    }
  }

  /** Thread A's way out: the return address and the stack pointer are those of its caller. */
  lemma Leave(l: Lab, s: State) returns (t: State, k: nat)
    requires s.pc == A_DONE && s.h.x[SP] + 16 < U64
    ensures Reach(l, s, t, [], k)
    ensures t.pc == Load64(s.h.mem, s.h.x[SP] + 8) && t.h.x[SP] == s.h.x[SP] + 16
    ensures t.h.x[RA] == t.pc && t.h.x[TP] == s.h.x[TP] && t.h.x[S1] == s.h.x[S1] && t.h.x[S2] == s.h.x[S2]
    ensures SameRest(t.h.x, s.h.x)
  {
    hide Load64;
    var u := Step(l, s);
    OneStep(l, s);
    AddressInRange(s.h.x, SP, 8);
    var v := Step(l, u);
    OneStep(l, u);
    Joined(l, s, u, v, 1, 1);
    t := Step(l, v);
    OneStep(l, v);
    Joined(l, s, v, t, 2, 1);
    k := 3;
  }

  /** What thread A, called with h, has done by t, on its way to its first switch. */
  predicate Entering(l: Lab, h: Hart, t: State)
    requires h.x[SP] >= 16
  {
    var p := if t.pc == SWTCH_ENTRY then 36 else t.pc;
    && t.h.x[TP] == l.a && SameRest(t.h.x, h.x)
    && t.h.x[SP] == (if p == 30 then h.x[SP] else h.x[SP] - 16)
    && (p <= 31 ==> t.h.x[RA] == h.x[RA])
    && t.h.mem == (if p <= 31 then h.mem else Store64(h.mem, h.x[SP] - 8, h.x[RA]))
    && (p > 32 ==> t.h.x[S1] == A_SENTINEL)
    && (p > 33 ==> t.h.x[S2] == l.n)
    && (p > 34 ==> t.h.x[A0] == l.b)
    && (p > 35 ==> t.h.x[RA] == A_AFTER_RESUME)
  }

  lemma StartsEntering(l: Lab, s: State)
    requires s.pc == THREAD_A_FLOW && s.h.x[SP] >= 16 && s.h.x[TP] == l.a
    ensures Entering(l, s.h, s)
  {
    hide Store64;
  }

  lemma EntersOn(l: Lab, h: Hart, t: State)
    requires h.x[SP] >= 16 && 30 <= t.pc <= 35 && Entering(l, h, t)
    ensures Entering(l, h, Step(l, t))
    ensures Step(l, t).pc == if t.pc == 35 then SWTCH_ENTRY else t.pc + 1
  {
    hide Store64;
  }

  lemma Entered(l: Lab, h: Hart, t: State)
    requires h.x[SP] >= 16 && t.pc == SWTCH_ENTRY && Entering(l, h, t)
    ensures t.h.x[TP] == l.a && SameRest(t.h.x, h.x) && t.h.x[SP] == h.x[SP] - 16
    ensures t.h.x[RA] == A_AFTER_RESUME && t.h.x[S1] == A_SENTINEL && t.h.x[S2] == l.n && t.h.x[A0] == l.b
    ensures t.h.mem == Store64(h.mem, h.x[SP] - 8, h.x[RA])
  {
    hide Store64, SameRest;
  }

  /** Thread A from its entry to its first call. */
  lemma Enter(l: Lab, s: State) returns (t: State, k: nat)
    requires s.pc == THREAD_A_FLOW && s.h.x[SP] >= 16 && s.h.x[TP] == l.a
    ensures Reach(l, s, t, [], k) && t.pc == SWTCH_ENTRY && t.h.x[TP] == l.a && t.h.x[A0] == l.b
    ensures t.h.x[RA] == A_AFTER_RESUME && t.h.x[SP] == s.h.x[SP] - 16
    ensures t.h.x[S1] == A_SENTINEL && t.h.x[S2] == l.n && SameRest(t.h.x, s.h.x)
    ensures t.h.mem == Store64(s.h.mem, s.h.x[SP] - 8, s.h.x[RA])
  {
    hide Store64, Reach, Step, Entering, SameRest;
    Still(l, s);
    StartsEntering(l, s);
    t, k := s, 0;
    while t.pc != SWTCH_ENTRY
      invariant Reach(l, s, t, [], k) && Entering(l, s.h, t)
      invariant t.pc == SWTCH_ENTRY || 30 <= t.pc <= 35
      decreases if t.pc == SWTCH_ENTRY then 0 else 36 - t.pc
    {
      var u := Step(l, t);
      OneStep(l, t);
      EntersOn(l, s.h, t);
      Joined(l, s, t, u, k, 1);
      t, k := u, k + 1;
    }
    Entered(l, s.h, t);
  }

  // ------------------------------------------------------------------ one switch

  /** The two context blocks and the word at q do not overlap. */
  predicate Separate(l: Lab, q: int) {
    && l.a + CTX_SIZE <= U64 && l.b + CTX_SIZE <= U64
    && (l.a + CTX_SIZE <= l.b || l.b + CTX_SIZE <= l.a)
    && (l.a + CTX_SIZE <= q || q + 8 <= l.a)
    && (l.b + CTX_SIZE <= q || q + 8 <= l.b)
  }

  /** Thread B's block is as prepared for its start or as its own last call left it. */
  predicate BReady(l: Lab, m: Mem) {
    var c := Context(m, l.b);
    c[0] == THREAD_B_ENTRY || ((c[0] == 50 || c[0] == 55) && c[3] == B_SENTINEL)
  }

  lemma HalfTurn(l: Lab, s: State, q: int) returns (t: State)
    requires s.pc == SWTCH_ENTRY && Separate(l, q)
    requires (s.h.x[TP] == l.a && s.h.x[A0] == l.b) || (s.h.x[TP] == l.b && s.h.x[A0] == l.a)
    ensures Reach(l, s, t, [s.h.x[TP]], 30)
    ensures t.pc == Context(s.h.mem, s.h.x[A0])[0] && t.h.x[TP] == s.h.x[A0]
    ensures Values(t.h.x, SAVED) == Context(s.h.mem, s.h.x[A0])
    ensures Context(t.h.mem, s.h.x[TP]) == Values(s.h.x, SAVED)
    ensures Context(t.h.mem, s.h.x[A0]) == Context(s.h.mem, s.h.x[A0])
    ensures Load64(t.h.mem, q) == Load64(s.h.mem, q)
  {
    hide Exec, Context, SaveWords, Load64, Reach;
    SwitchRun(l, s);
    SwitchEffect(s.h);
    var blocks := [s.h.x[TP], s.h.x[A0]];
    TurnWritesOwnBlock(blocks, s.h, 0, 1, 0);
    TurnWritesOwnBlock(blocks, s.h, 0, 1, 1);
    var g := Exec(SWTCH, s.h);
    t := State(g.x[RA], g);
    assert Values(g.x, SAVED)[0] == g.x[RA];
    forall b | q <= b < q + 8 ensures Peek(g.mem, b) == Peek(s.h.mem, b) {
      SaveFrame(s.h.mem, s.h.x[TP], Values(s.h.x, SAVED), b);
    }
    LoadAgrees(g.mem, s.h.mem, q);
  }

  lemma SameSaved(x: Regs, y: Regs)
    requires Values(x, SAVED) == Values(y, SAVED)
    ensures SameRest(x, y)
  {
    RestOf(x);
    RestOf(y);
  }

  lemma RestOf(x: Regs)
    ensures var v := Values(x, SAVED);
            && v[2] == x[S0] && v[5] == x[S3] && v[6] == x[S4] && v[7] == x[S5] && v[8] == x[S6]
            && v[9] == x[S7] && v[10] == x[S8] && v[11] == x[S9] && v[12] == x[S10] && v[13] == x[S11]
  {
  }

  /** The saved registers that the two threads use. */
  lemma SlotsOf(x: Regs)
    ensures var v := Values(x, SAVED); v[0] == x[RA] && v[1] == x[SP] && v[3] == x[S1] && v[4] == x[S2]
  {
  }

  /** A switch to B and back: B runs once and A finds its registers and its stack as they were. */
  lemma RoundTrip(l: Lab, s: State, q: int) returns (t: State, k: nat)
    requires s.pc == SWTCH_ENTRY && s.h.x[TP] == l.a && s.h.x[A0] == l.b
    requires Separate(l, q) && BReady(l, s.h.mem)
    ensures Reach(l, s, t, [l.a, l.b], k)
    ensures t.pc == s.h.x[RA] && t.h.x[TP] == l.a && Values(t.h.x, SAVED) == Values(s.h.x, SAVED)
    ensures BReady(l, t.h.mem) && Load64(t.h.mem, q) == Load64(s.h.mem, q)
  {
    hide Context, Load64, Reach, Values, Step;
    var u := HalfTurn(l, s, q);
    SlotsOf(s.h.x);
    SlotsOf(u.h.x);
    var v, j := RunB(l, u);
    t := HalfTurn(l, v, q);
    SlotsOf(v.h.x);
    k := 30 + j + 30;
    ReachThen(l, s, u, v, [l.a], [], 30, j);
    ReachThen(l, s, v, t, [l.a] + [], [l.b], 30 + j, 30);
    assert [l.a] + [] + [l.b] == [l.a, l.b];
  }

  // ------------------------------------------------------------------ the whole run

  /** a, b, a, b, ..., n times each. */
  function Pairs(a: Word, b: Word, n: nat): (r: seq<Word>)
    ensures |r| == 2 * n && forall k | 0 <= k < 2 * n :: r[k] == if k % 2 == 0 then a else b
  {
    if n == 0 then [] else [a, b] + Pairs(a, b, n - 1)
  }

  /** From A's call with its counter at m, the run makes m more round trips and returns. */
  lemma {:induction false} Rounds(l: Lab, s: State, m: nat) returns (t: State, k: nat)
    requires s.pc == SWTCH_ENTRY && s.h.x[TP] == l.a && s.h.x[A0] == l.b
    requires s.h.x[RA] == A_AFTER_RESUME || s.h.x[RA] == 42
    requires s.h.x[S1] == A_SENTINEL && s.h.x[S2] == m && m >= 1 && s.h.x[SP] + 16 < U64
    requires Separate(l, s.h.x[SP] + 8) && BReady(l, s.h.mem)
    ensures Reach(l, s, t, Pairs(l.a, l.b, m), k)
    ensures t.pc == Load64(s.h.mem, s.h.x[SP] + 8) == t.h.x[RA] && t.h.x[SP] == s.h.x[SP] + 16 && t.h.x[TP] == l.a
    ensures t.h.x[S1] == A_SENTINEL && t.h.x[S2] == 0 && SameRest(t.h.x, s.h.x)
    decreases m
  {
    hide Context, Load64, Reach, Values, Step, Separate, BReady;
    var u, i := RoundTrip(l, s, s.h.x[SP] + 8);
    SlotsOf(s.h.x);
    SlotsOf(u.h.x);
    SameSaved(u.h.x, s.h.x);
    var v, j := RunA(l, u);
    ReachThen(l, s, u, v, [l.a, l.b], [], i, j);
    var w, e;
    var rest := Pairs(l.a, l.b, m - 1);
    if m == 1 {
      w, e := Leave(l, v);
    } else {
      w, e := Rounds(l, v, m - 1);
    }
    ReachThen(l, s, v, w, [l.a, l.b] + [], rest, i + j, e);
    assert [l.a, l.b] + [] + rest == Pairs(l.a, l.b, m);
    t, k := w, i + j + e;
  }

  /** The program of lab 16 with its constant 50 as n: A and B alternate strictly, _swtch is entered
      exactly 2n times, no register check fails, and A returns to its caller with the stack pointer
      it was entered with. Of the registers that a function must keep it overwrites s1 and s2 only, so
      that it keeps to the calling convention exactly if these held their final values at its entry. */
  lemma Alternates(l: Lab, s: State) returns (t: State, k: nat)
    requires l.n >= 1 && s.pc == THREAD_A_FLOW && s.h.x[TP] == l.a && s.h.x[SP] >= 16
    requires Separate(l, s.h.x[SP] - 8) && Context(s.h.mem, l.b)[0] == THREAD_B_ENTRY
    requires s.h.x[RA] >= CODE_END
    ensures Reach(l, s, t, Pairs(l.a, l.b, l.n), k)
    ensures t.pc == s.h.x[RA] == t.h.x[RA] && t.h.x[SP] == s.h.x[SP] && t.h.x[TP] == l.a
    ensures t.h.x[S1] == 0xa16 && t.h.x[S2] == 0 && SameRest(t.h.x, s.h.x)
    ensures KeepsAbi(t.h.x, s.h.x) <==> s.h.x[S1] == 0xa16 && s.h.x[S2] == 0
  {
    hide Context, Load64, Store64, Reach, Step;
    var u, i := Enter(l, s);
    LoadStored(s.h.mem, s.h.x[SP] - 8, s.h.x[RA]);
    FrameWordOnly(l, s.h.mem, s.h.x[SP] - 8, s.h.x[RA]);
    var v, j := Rounds(l, u, l.n);
    ReachThen(l, s, u, v, [], Pairs(l.a, l.b, l.n), i, j);
    assert [] + Pairs(l.a, l.b, l.n) == Pairs(l.a, l.b, l.n);
    t, k := v, i + j;
  }

  lemma FrameWordOnly(l: Lab, m: Mem, q: int, v: Word)
    requires Separate(l, q)
    ensures Context(Store64(m, q, v), l.b) == Context(m, l.b)
  {
    LoadWordsAgree(Store64(m, q, v), m, l.b, 14);
  }

  /** The source's constant. */
  lemma HundredSwitches(l: Lab, s: State) returns (t: State, log: seq<Word>, k: nat)
    requires l.n == 50 && s.pc == THREAD_A_FLOW && s.h.x[TP] == l.a && s.h.x[SP] >= 16
    requires Separate(l, s.h.x[SP] - 8) && Context(s.h.mem, l.b)[0] == THREAD_B_ENTRY
    requires s.h.x[RA] >= CODE_END
    ensures Reach(l, s, t, log, k) && t.pc == s.h.x[RA] && |log| == 100
  {
    t, k := Alternates(l, s);
    log := Pairs(l.a, l.b, l.n);
  }

  /** A run is what the machine does: k steps lead to one state and one log only. */
  lemma {:induction false} ReachIsUnique(l: Lab, s: State, t: State, u: State, a: seq<Word>, b: seq<Word>, k: nat)
    requires Reach(l, s, t, a, k) && Reach(l, s, u, b, k)
    ensures t == u && a == b
    decreases k
  {
    hide Step;
    if k > 0 {
      if s.pc == SWTCH_ENTRY {
        ReachIsUnique(l, Step(l, s), t, u, a[1..], b[1..], k - 1);
        assert a == [a[0]] + a[1..] && b == [b[0]] + b[1..];
      } else {
        ReachIsUnique(l, Step(l, s), t, u, a, b, k - 1);
      }
    }
  }
}
