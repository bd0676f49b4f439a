/** The RV64 instructions that the hand-written assembly uses: what each does to the registers,
    the CSRs and memory, and what blocks of stores and loads do. */
module Riscv {
  import opened Util
  import opened Memory

  const ZERO: nat := 0
  const RA: nat := 1
  const SP: nat := 2
  const GP: nat := 3
  const TP: nat := 4
  const T0: nat := 5
  const T1: nat := 6
  const T2: nat := 7
  const S0: nat := 8
  const S1: nat := 9
  const A0: nat := 10
  const A1: nat := 11
  const A2: nat := 12
  const A3: nat := 13
  const A4: nat := 14
  const A5: nat := 15
  const A6: nat := 16
  const A7: nat := 17
  const S2: nat := 18
  const S3: nat := 19
  const S4: nat := 20
  const S5: nat := 21
  const S6: nat := 22
  const S7: nat := 23
  const S8: nat := 24
  const S9: nat := 25
  const S10: nat := 26
  const S11: nat := 27
  const T3: nat := 28
  const T4: nat := 29
  const T5: nat := 30
  const T6: nat := 31

  type Reg = r: nat | r < 32
  type Regs = x: seq<Word> | |x| == 32 witness seq<Word>(32, _ => 0)

  /** The supervisor registers that the code touches. */
  datatype Csrs = Csrs(sscratch: Word, sepc: Word, sstatus: Word, scause: Word)

  datatype Csr = Sscratch | Sepc | Sstatus | Scause

  datatype Hart = Hart(x: Regs, mem: Mem, csr: Csrs)

  /** Straight-line instructions; addresses and immediates wrap at 2^64. Li also stands for lui and
      auipc, whose results are constants of the listing; a shift is given by its power of two. */
  datatype Instr =
    | Sd(rs: Reg, off: int, base: Reg)
    | Ld(rd: Reg, off: int, base: Reg)
    | Mv(rd: Reg, rs: Reg)
    | Addi(rd: Reg, rs: Reg, imm: int)
    | Slli(rd: Reg, rs: Reg, factor: nat)
    | Li(rd: Reg, value: Word)
    | Csrr(rd: Reg, csr: Csr)
    | Csrw(csr: Csr, rs: Reg)
    | Csrrw(rd: Reg, csr: Csr, rs: Reg)
    | Csrc(csr: Csr, rs: Reg)

  function SetReg(x: Regs, r: Reg, v: Word): Regs {
    if r == ZERO then x else x[r := v]
  }

  function Address(x: Regs, base: Reg, off: int): Word {
    (x[base] + off) % U64
  }

  function GetCsr(c: Csrs, r: Csr): Word {
    match r
    case Sscratch => c.sscratch
    case Sepc => c.sepc
    case Sstatus => c.sstatus
    case Scause => c.scause
  }

  function SetCsr(c: Csrs, r: Csr, v: Word): Csrs {
    match r
    case Sscratch => c.(sscratch := v)
    case Sepc => c.(sepc := v)
    case Sstatus => c.(sstatus := v)
    case Scause => c.(scause := v)
  }

  /** The bits of v that are not set in mask. */
  function AndNot(v: nat, mask: nat): (r: nat)
    ensures r <= v
    decreases v
  {
    if v == 0 then 0
    else 2 * AndNot(v / 2, mask / 2) + (if mask % 2 == 1 then 0 else v % 2)
  }

  function Exec1(i: Instr, h: Hart): Hart {
    match i
    case Sd(rs, off, base) => h.(mem := Store64(h.mem, Address(h.x, base, off), h.x[rs]))
    case Ld(rd, off, base) => h.(x := SetReg(h.x, rd, Load64(h.mem, Address(h.x, base, off))))
    case Mv(rd, rs) => h.(x := SetReg(h.x, rd, h.x[rs]))
    case Addi(rd, rs, imm) => h.(x := SetReg(h.x, rd, (h.x[rs] + imm) % U64))
    case Slli(rd, rs, factor) => h.(x := SetReg(h.x, rd, (h.x[rs] * factor) % U64))
    case Li(rd, imm) => h.(x := SetReg(h.x, rd, imm))
    case Csrr(rd, csr) => h.(x := SetReg(h.x, rd, GetCsr(h.csr, csr)))
    case Csrw(csr, rs) => h.(csr := SetCsr(h.csr, csr, h.x[rs]))
    case Csrrw(rd, csr, rs) =>
      h.(csr := SetCsr(h.csr, csr, h.x[rs]), x := SetReg(h.x, rd, GetCsr(h.csr, csr)))
    case Csrc(csr, rs) => h.(csr := SetCsr(h.csr, csr, AndNot(GetCsr(h.csr, csr), h.x[rs])))
  }

  function Exec(code: seq<Instr>, h: Hart): Hart
    decreases |code|
  {
    if code == [] then h else Exec(code[1..], Exec1(code[0], h))
  }

  lemma {:induction false} ExecAppend(a: seq<Instr>, b: seq<Instr>, h: Hart)
    ensures Exec(a + b, h) == Exec(b, Exec(a, h))
    decreases |a|
  {
    if a == [] {
      assert a + b == b;
    } else {
      assert (a + b)[1..] == a[1..] + b;
      ExecAppend(a[1..], b, Exec1(a[0], h));
    }
  }

  // ------------------------------------------------------------------ listings with jumps

  /** An instruction of a listing. CallVia is jalr ra, off(r); Escape is where the listing does not say
      what happens next: an ecall, or a C function. */
  datatype Op =
    | Plain(i: Instr)
    | Call(target: Word)
    | CallVia(r: Reg, off: int)
    | Jump(target: Word)
    | Bne(r1: Reg, r2: Reg, target: Word)
    | Beqz(r: Reg, target: Word)
    | Ret
    | Escape

  /** The place of the next instruction, if one takes `unit` places. */
  function Following(pc: Word, unit: Word): Word {
    if pc + unit < U64 then pc + unit else pc + unit - U64
  }

  /** One instruction at pc: where execution continues, and the hart. */
  function Advance(op: Op, pc: Word, unit: Word, h: Hart): (Word, Hart) {
    var next := Following(pc, unit);
    match op
    case Plain(i) => (next, Exec1(i, h))
    case Call(target) => (target, h.(x := SetReg(h.x, RA, next)))
    case CallVia(r, off) =>
      var target := Address(h.x, r, off);
      (target - target % 2, h.(x := SetReg(h.x, RA, next)))
    case Jump(target) => (target, h)
    case Bne(r1, r2, target) => (if h.x[r1] != h.x[r2] then target else next, h)
    case Beqz(r, target) => (if h.x[r] == 0 then target else next, h)
    case Ret => (h.x[RA], h)
    case Escape => (pc, h)
  }

  // ------------------------------------------------------------------ blocks of stores

  function Values(x: Regs, regs: seq<Reg>): (r: seq<Word>)
    ensures |r| == |regs| && forall k | 0 <= k < |regs| :: r[k] == x[regs[k]]
  {
    seq<Word>(|regs|, k requires 0 <= k < |regs| => x[regs[k]])
  }

  /** code stores the listed registers in consecutive words at off(base). */
  predicate IsStores(code: seq<Instr>, regs: seq<Reg>, off: nat, base: Reg) {
    |code| == |regs| && forall k | 0 <= k < |code| :: code[k] == Sd(regs[k], off + 8 * k, base)
  }

  lemma AddressInRange(x: Regs, base: Reg, off: nat)
    requires x[base] + off < U64
    ensures Address(x, base, off) == x[base] + off
  {
  }

  lemma {:induction false} ExecStores(h: Hart, code: seq<Instr>, regs: seq<Reg>, off: nat, base: Reg)
    requires IsStores(code, regs, off, base) && h.x[base] + off + 8 * |regs| <= U64
    ensures Exec(code, h) == h.(mem := SaveWords(h.mem, h.x[base] + off, Values(h.x, regs)))
    decreases |code|
  {
    hide Address, Store64;
    if code != [] {
      AddressInRange(h.x, base, off);
      var g := Exec1(code[0], h);
      assert Values(h.x, regs)[1..] == Values(g.x, regs[1..]);
      forall k | 0 <= k < |code| - 1 ensures code[1..][k] == Sd(regs[1..][k], off + 8 + 8 * k, base) {
        assert code[1..][k] == code[k + 1];
      }
      ExecStores(g, code[1..], regs[1..], off + 8, base);
    }
  }

  // ------------------------------------------------------------------ blocks of loads

  predicate IsLoads(code: seq<Instr>, regs: seq<Reg>, off: nat, base: Reg) {
    |code| == |regs| && forall k | 0 <= k < |code| :: code[k] == Ld(regs[k], off + 8 * k, base)
  }

  function LoadRegs(x: Regs, regs: seq<Reg>, vals: seq<Word>): Regs
    requires |regs| == |vals|
    decreases |regs|
  {
    if regs == [] then x else LoadRegs(SetReg(x, regs[0], vals[0]), regs[1..], vals[1..])
  }

  lemma {:induction false} ExecLoads(h: Hart, code: seq<Instr>, regs: seq<Reg>, off: nat, base: Reg)
    requires IsLoads(code, regs, off, base) && base !in regs && h.x[base] + off + 8 * |regs| <= U64
    ensures Exec(code, h) == h.(x := LoadRegs(h.x, regs, LoadWords(h.mem, h.x[base] + off, |regs|)))
    decreases |code|
  {
    hide Address, Load64;
    if code != [] {
      AddressInRange(h.x, base, off);
      var g := Exec1(code[0], h);
      forall k | 0 <= k < |code| - 1 ensures code[1..][k] == Ld(regs[1..][k], off + 8 + 8 * k, base) {
        assert code[1..][k] == code[k + 1];
      }
      assert LoadWords(h.mem, h.x[base] + off, |regs|)[1..] == LoadWords(h.mem, h.x[base] + off + 8, |regs| - 1);
      ExecLoads(g, code[1..], regs[1..], off + 8, base);
    }
  }

  /** A block of loads sets the listed registers and no other. */
  lemma {:induction false} RegsLoaded(x: Regs, regs: seq<Reg>, vals: seq<Word>)
    requires |regs| == |vals| && NoDup(regs) && ZERO !in regs
    ensures forall k | 0 <= k < |regs| :: LoadRegs(x, regs, vals)[regs[k]] == vals[k]
    ensures forall r: Reg | r !in regs :: LoadRegs(x, regs, vals)[r] == x[r]
    decreases |regs|
  {
    if regs != [] {
      RegsLoaded(SetReg(x, regs[0], vals[0]), regs[1..], vals[1..]);
      forall k | 0 <= k < |regs| ensures LoadRegs(x, regs, vals)[regs[k]] == vals[k] {
        if k > 0 {
          assert regs[k] == regs[1..][k - 1];
        }
      }
    }
  }

  // ------------------------------------------------------------------ the processor

  /** A hart whose registers and memory change in place. */
  class Cpu {
    var x: Regs
    var mem: Mem
    var csr: Csrs

    constructor (h: Hart)
      ensures State() == h
    {
      x, mem, csr := h.x, h.mem, h.csr;
    }

    function State(): Hart
      reads this
    {
      Hart(x, mem, csr)
    }

    method Step(i: Instr)
      modifies this
      ensures State() == Exec1(i, old(State()))
    {
      match i
      case Sd(rs, off, base) => mem := Store64(mem, Address(x, base, off), x[rs]);
      case Ld(rd, off, base) => x := SetReg(x, rd, Load64(mem, Address(x, base, off)));
      case Mv(rd, rs) => x := SetReg(x, rd, x[rs]);
      case Addi(rd, rs, imm) => x := SetReg(x, rd, (x[rs] + imm) % U64);
      case Slli(rd, rs, factor) => x := SetReg(x, rd, (x[rs] * factor) % U64);
      case Li(rd, imm) => x := SetReg(x, rd, imm);
      case Csrr(rd, r) => x := SetReg(x, rd, GetCsr(csr, r));
      case Csrw(r, rs) => csr := SetCsr(csr, r, x[rs]);
      case Csrrw(rd, r, rs) => csr, x := SetCsr(csr, r, x[rs]), SetReg(x, rd, GetCsr(csr, r));
      case Csrc(r, rs) => csr := SetCsr(csr, r, AndNot(GetCsr(csr, r), x[rs]));
    }

    /** Run straight-line code. */
    method Execute(code: seq<Instr>)
      modifies this
      ensures State() == Exec(code, old(State()))
    {
      var i := 0;
      while i < |code|
        invariant 0 <= i <= |code|
        invariant Exec(code[i..], State()) == Exec(code, old(State()))
      {
        assert code[i..][1..] == code[i + 1..];
        Step(code[i]);
        i := i + 1;
      }
    }
  }
}
