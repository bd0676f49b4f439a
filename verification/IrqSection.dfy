/** Lab 18, part C: interrupt-disabling critical sections around an update of two variables that an
    interrupt handler reads. */
module IrqSection {
  import opened Util
  import opened Bits
  import opened TrapFrame

  /** sstatus, event_count, event_checksum, isr_saw_broken_invariant, and the values of sstatus that
      the open sections have saved, innermost last. */
  datatype State = State(sstatus: Word, count: Word, sum: Word, broken: bool, saved: seq<Word>)

  /** The steps of the update functions. */
  datatype Op = SaveDisable | CountUp | SetSum | Restore | CallIsr

  predicate Consistent(s: State) {
    s.sum == 3 * s.count % U64
  }

  /** simulated_isr. */
  function Isr(s: State): State {
    s.(broken := s.broken || !Consistent(s))
  }

  /** irq_restore(prior). */
  function RestoredTo(s: Word, prior: Word): Word {
    Put(s, SIE, Bit(prior, SIE))
  }

  function Do(op: Op, s: State): State {
    match op
    case SaveDisable => s.(saved := s.saved + [s.sstatus], sstatus := Put(s.sstatus, SIE, false))
    case CountUp => s.(count := (s.count + 1) % U64)
    case SetSum => s.(sum := 3 * s.count % U64)
    case Restore =>
      if s.saved == [] then s
      else s.(sstatus := RestoredTo(s.sstatus, s.saved[|s.saved| - 1]), saved := s.saved[..|s.saved| - 1])
    case CallIsr => Isr(s)
  }

  /** An interrupt in supervisor mode: the hardware turns SIE off, the handler runs, and sret turns it
      on again; SPIE is left set and SPP clear. */
  function Interrupt(s: State): State {
    Isr(s).(sstatus := Put(Put(s.sstatus, SPIE, true), SPP, false))
  }

  // ------------------------------------------------------------------ programs and runs

  /** Programs made of protected updates and of further sections, nested as deep as one likes. */
  datatype Code = Nothing | Update | Section(body: Code) | Then(first: Code, second: Code)

  function Ops(c: Code): seq<Op> {
    match c
    case Nothing => []
    case Update => [SaveDisable, CountUp, SetSum, Restore, CallIsr]
    case Section(body) => [SaveDisable] + Ops(body) + [Restore]
    case Then(a, b) => Ops(a) + Ops(b)
  }

  function Updates(c: Code): nat {
    match c
    case Nothing => 0
    case Update => 1
    case Section(body) => Updates(body)
    case Then(a, b) => Updates(a) + Updates(b)
  }

  /** A program point and the state there. */
  datatype Point = Point(pc: nat, s: State)

  /** The program makes its next step, or an interrupt comes if SIE allows one. */
  datatype Tick = Go | Irq

  predicate Tickable(ops: seq<Op>, p: Point, t: Tick) {
    match t
    case Go => p.pc < |ops|
    case Irq => Bit(p.s.sstatus, SIE)
  }

  function After(ops: seq<Op>, p: Point, t: Tick): Point
    requires Tickable(ops, p, t)
  {
    match t
    case Go => Point(p.pc + 1, Do(ops[p.pc], p.s))
    case Irq => Point(p.pc, Interrupt(p.s))
  }

  predicate IsRun(ops: seq<Op>, s: State, ps: seq<Point>, ts: seq<Tick>) {
    && |ps| == |ts| + 1 && ps[0] == Point(0, s)
    && forall k | 0 <= k < |ts| :: Tickable(ops, ps[k], ts[k]) && ps[k + 1] == After(ops, ps[k], ts[k])
  }

  // ------------------------------------------------------------------ the handler sees no broken pair

  /** Between the two writes of an update interrupts are off. */
  predicate Guarded(ops: seq<Op>) {
    && (forall k | 0 <= k < |ops| && ops[k] == CountUp ::
          0 < k < |ops| - 1 && ops[k - 1] == SaveDisable && ops[k + 1] == SetSum)
    && (forall k | 0 <= k < |ops| && ops[k] == SetSum :: 0 < k && ops[k - 1] == CountUp)
  }

  predicate Sound(ops: seq<Op>, p: Point) {
    && p.pc <= |ops| && !p.s.broken
    && (p.pc > 0 && ops[p.pc - 1] in {SaveDisable, CountUp} ==> !Bit(p.s.sstatus, SIE))
    && (p.pc == 0 || ops[p.pc - 1] != CountUp ==> Consistent(p.s))
  }

  lemma {:induction false} OpsGuarded(c: Code)
    ensures Guarded(Ops(c))
  {
    match c
    case Nothing =>
    case Update =>
    case Section(body) =>
      OpsGuarded(body);
      GuardedThen([SaveDisable], Ops(body));
      GuardedThen([SaveDisable] + Ops(body), [Restore]);
    case Then(a, b) =>
      OpsGuarded(a);
      OpsGuarded(b);
      GuardedThen(Ops(a), Ops(b));
  }

  lemma GuardedThen(a: seq<Op>, b: seq<Op>)
    requires Guarded(a) && Guarded(b)
    ensures Guarded(a + b)
  {
    var ops := a + b;
    forall k | 0 <= k < |ops| && ops[k] == CountUp
      ensures 0 < k < |ops| - 1 && ops[k - 1] == SaveDisable && ops[k + 1] == SetSum
    {
      if k >= |a| {
        assert b[k - |a|] == CountUp;
      }
    }
    forall k | 0 <= k < |ops| && ops[k] == SetSum ensures 0 < k && ops[k - 1] == CountUp {
      if k >= |a| {
        assert b[k - |a|] == SetSum;
      }
    }
  }

  lemma TickSound(ops: seq<Op>, p: Point, t: Tick)
    requires Guarded(ops) && Sound(ops, p) && Tickable(ops, p, t)
    ensures Sound(ops, After(ops, p, t))
  {
    hide Bit, PutBit, Consistent;
    DisabledBit(p.s.sstatus);
    if t == Go && ops[p.pc] == SetSum {
      SetSumConsistent(p.s);
    } else if t == Go && ops[p.pc] != CountUp {
      OthersKeepConsistent(ops[p.pc], p.s);
    } else if t == Irq {
      InterruptKeepsConsistent(p.s);
    }
  }

  lemma DisabledBit(s: Word)
    ensures !Bit(Put(s, SIE, false), SIE)
  {
    BitPut(s, SIE, false, SIE);
  }

  lemma SetSumConsistent(s: State)
    ensures Consistent(Do(SetSum, s))
  {
  }

  lemma OthersKeepConsistent(op: Op, s: State)
    requires op != SetSum && op != CountUp && Consistent(s)
    ensures Consistent(Do(op, s))
  {
    hide PutBit;
  }

  lemma InterruptKeepsConsistent(s: State)
    requires Consistent(s)
    ensures Consistent(Interrupt(s)) && Interrupt(s).broken == s.broken
  {
    hide PutBit;
  }

  /** Wherever interrupts come, and however the sections are nested, the handler never finds the
      checksum different from three times the count modulo 2^64. */
  lemma {:induction false} IsrNeverSeesBroken(c: Code, s: State, ps: seq<Point>, ts: seq<Tick>, k: nat)
    requires IsRun(Ops(c), s, ps, ts) && k <= |ts| < |ps|
    requires Consistent(s) && !s.broken
    ensures Sound(Ops(c), ps[k]) && !ps[k].s.broken
    decreases k
  {
    hide Tickable, After, Consistent, Bit, Ops;
    if k > 0 {
      IsrNeverSeesBroken(c, s, ps, ts, k - 1);
      OpsGuarded(c);
      TickSound(Ops(c), ps[k - 1], ts[k - 1]);
    }
  }

  // ------------------------------------------------------------------ sstatus is restored

  /** Open sections after the steps. */
  function Depth(ops: seq<Op>): int {
    if ops == [] then 0
    else Depth(ops[..|ops| - 1]) +
         (match ops[|ops| - 1] case SaveDisable => 1 case Restore => -1 case _ => 0)
  }

  lemma {:induction false} DepthAppend(a: seq<Op>, b: seq<Op>)
    ensures Depth(a + b) == Depth(a) + Depth(b)
    decreases |b|
  {
    if b == [] {
      assert a + b == a;
    } else {
      assert (a + b)[..|a + b| - 1] == a + b[..|b| - 1];
      DepthAppend(a, b[..|b| - 1]);
    }
  }

  /** No section is closed before it is opened. */
  ghost predicate Matched(ops: seq<Op>) {
    Depth(ops) == 0 && forall k | 0 <= k <= |ops| :: Depth(ops[..k]) >= 0
  }

  lemma MatchedPrefix(ops: seq<Op>, k: nat)
    requires Matched(ops) && k <= |ops|
    ensures Depth(ops[..k]) >= 0
  {
    hide Depth;
  }

  lemma SectionMatched(inner: seq<Op>)
    requires Matched(inner)
    ensures Matched([SaveDisable] + inner + [Restore])
  {
    hide Depth;
    DepthOne();
    var before := [SaveDisable] + inner;
    var ops := before + [Restore];
    DepthAppend([SaveDisable], inner);
    DepthAppend(before, [Restore]);
    MatchedPrefix(inner, |inner|);
    forall k | 0 <= k <= |ops| ensures Depth(ops[..k]) >= 0 {
      if k == |ops| {
        assert ops[..k] == ops;
      } else if k > 0 {
        assert ops[..k] == [SaveDisable] + inner[..k - 1];
        DepthAppend([SaveDisable], inner[..k - 1]);
        MatchedPrefix(inner, k - 1);
      } else {
        assert ops[..k] == [];
        DepthNothing();
      }
    }
  }

  lemma ThenMatched(a: seq<Op>, b: seq<Op>)
    requires Matched(a) && Matched(b)
    ensures Matched(a + b)
  {
    hide Depth;
    DepthAppend(a, b);
    forall k | 0 <= k <= |a + b| ensures Depth((a + b)[..k]) >= 0 {
      if k <= |a| {
        assert (a + b)[..k] == a[..k];
        MatchedPrefix(a, k);
      } else {
        assert (a + b)[..k] == a + b[..k - |a|];
        DepthAppend(a, b[..k - |a|]);
        MatchedPrefix(b, k - |a|);
      }
    }
  }

  lemma DepthNothing()
    ensures Depth([]) == 0
  {
  }

  /** Sections are properly nested. */
  lemma {:induction false} Balanced(c: Code)
    ensures Matched(Ops(c))
  {
    hide Matched;
    match c
    case Nothing =>
      NothingMatched();
    case Update =>
      UpdateMatched();
    case Section(body) =>
      Balanced(body);
      SectionMatched(Ops(body));
    case Then(a, b) =>
      Balanced(a);
      Balanced(b);
      ThenMatched(Ops(a), Ops(b));
  }

  lemma DepthOne()
    ensures Depth([SaveDisable]) == 1 && Depth([Restore]) == -1
  {
    assert [SaveDisable][..0] == [] && [Restore][..0] == [];
  }

  lemma NothingMatched()
    ensures Matched([])
  {
  }

  lemma UpdateMatched()
    ensures Matched(Ops(Update))
  {
    var ops := Ops(Update);
    forall k | 0 < k <= 5 ensures ops[..k][..k - 1] == ops[..k - 1] && ops[..k][k - 1] == ops[k - 1] {
    }
    assert Depth(ops[..0]) == 0;
    assert Depth(ops[..1]) == 1;
    assert Depth(ops[..2]) == 1;
    assert Depth(ops[..3]) == 1;
    assert Depth(ops[..4]) == 0;
    assert Depth(ops[..5]) == 0;
    assert ops[..5] == ops;
  }

  /** Bits that neither a section nor, unless `calm`, an interrupt changes. */
  predicate Stable(j: nat, calm: bool) {
    j != SIE && (calm || (j != SPIE && j != SPP))
  }

  /** SIE is the start's outside all sections and off inside; the outermost section keeps the start's
      value; other bits stay. */
  ghost predicate Nested(start: Word, s: State, calm: bool) {
    && Bit(s.sstatus, SIE) == (s.saved == [] && Bit(start, SIE))
    && (forall i | 0 <= i < |s.saved| :: Bit(s.saved[i], SIE) == (i == 0 && Bit(start, SIE)))
    && (forall j: nat | Stable(j, calm) :: Bit(s.sstatus, j) == Bit(start, j))
  }

  lemma TickNested(ops: seq<Op>, p: Point, t: Tick, start: Word, calm: bool)
    requires Nested(start, p.s, calm) && Tickable(ops, p, t) && p.pc <= |ops|
    requires |p.s.saved| == Depth(ops[..p.pc]) && (calm ==> t == Go)
    requires t == Go ==> Depth(ops[..p.pc + 1]) >= 0
    ensures var q := After(ops, p, t); Nested(start, q.s, calm) && q.pc <= |ops| && |q.s.saved| == Depth(ops[..q.pc])
  {
    hide Bit, PutBit, Consistent;
    var s := p.s.sstatus;
    if t == Go {
      var op := ops[p.pc];
      assert ops[..p.pc + 1][..p.pc] == ops[..p.pc] && ops[..p.pc + 1][p.pc] == op;
      if op == SaveDisable {
        forall j: nat ensures Bit(Put(s, SIE, false), j) == (j != SIE && Bit(s, j)) {
          BitPut(s, SIE, false, j);
        }
      } else if op == Restore {
        var prior := p.s.saved[|p.s.saved| - 1];
        forall j: nat ensures Bit(RestoredTo(s, prior), j) == if j == SIE then Bit(prior, SIE) else Bit(s, j) {
          BitPut(s, SIE, Bit(prior, SIE), j);
        }
      }
    } else {
      forall j: nat
        ensures Bit(Put(Put(s, SPIE, true), SPP, false), j) ==
                if j == SPP then false else if j == SPIE then true else Bit(s, j)
      {
        BitPut(s, SPIE, true, j);
        BitPut(Put(s, SPIE, true), SPP, false, j);
      }
    }
  }

  lemma {:induction false} RunNested(c: Code, s: State, ps: seq<Point>, ts: seq<Tick>, k: nat, calm: bool)
    requires IsRun(Ops(c), s, ps, ts) && k <= |ts| < |ps| && s.saved == []
    requires calm ==> forall i | 0 <= i < k :: ts[i] == Go
    ensures var q := ps[k]; Nested(s.sstatus, q.s, calm) && q.pc <= |Ops(c)| && |q.s.saved| == Depth(Ops(c)[..q.pc])
    decreases k
  {
    hide Tickable, Bit, Ops, Do, Interrupt;
    if k == 0 {
      assert Ops(c)[..0] == [];
    } else {
      RunNested(c, s, ps, ts, k - 1, calm);
      Balanced(c);
      GoInRange(Ops(c), ps[k - 1], ts[k - 1]);
      TickNested(Ops(c), ps[k - 1], ts[k - 1], s.sstatus, calm);
    }
  }

  lemma GoInRange(ops: seq<Op>, p: Point, t: Tick)
    requires Tickable(ops, p, t)
    ensures t == Go ==> p.pc < |ops|
  {
  }

  /** At the end of the program SIE is what it was, and so are all other bits but the two that
      interrupts use; without interrupts in between, sstatus is the very same word. */
  lemma SectionsRestoreStatus(c: Code, s: State, ps: seq<Point>, ts: seq<Tick>, k: nat)
    requires IsRun(Ops(c), s, ps, ts) && k <= |ts| < |ps| && s.saved == [] && ps[k].pc == |Ops(c)|
    ensures ps[k].s.saved == []
    ensures forall j: nat | j != SPIE && j != SPP :: Bit(ps[k].s.sstatus, j) == Bit(s.sstatus, j)
    ensures (forall i | 0 <= i < k :: ts[i] == Go) ==> ps[k].s.sstatus == s.sstatus
  {
    hide Bit, Ops, IsRun;
    RunNested(c, s, ps, ts, k, false);
    Balanced(c);
    assert Ops(c)[..|Ops(c)|] == Ops(c);
    if forall i | 0 <= i < k :: ts[i] == Go {
      RunNested(c, s, ps, ts, k, true);
      SameWords(ps[k].s.sstatus, s.sstatus);
    }
  }

  /** Inside a section no interrupt can come. */
  lemma NoInterruptInside(c: Code, s: State, ps: seq<Point>, ts: seq<Tick>, k: nat)
    requires IsRun(Ops(c), s, ps, ts) && k < |ts| < |ps| && s.saved == []
    requires ps[k].pc <= |Ops(c)| && Depth(Ops(c)[..ps[k].pc]) > 0
    ensures ts[k] == Go
  {
    hide Ops, Bit, Depth;
    RunNested(c, s, ps, ts, k, false);
  }

  // ------------------------------------------------------------------ what the updates add up to

  function CountUps(ops: seq<Op>): nat {
    if ops == [] then 0
    else CountUps(ops[..|ops| - 1]) + (if ops[|ops| - 1] == CountUp then 1 else 0)
  }

  lemma {:induction false} CountUpsAppend(a: seq<Op>, b: seq<Op>)
    ensures CountUps(a + b) == CountUps(a) + CountUps(b)
    decreases |b|
  {
    if b == [] {
      assert a + b == a;
    } else {
      assert (a + b)[..|a + b| - 1] == a + b[..|b| - 1];
      CountUpsAppend(a, b[..|b| - 1]);
    }
  }

  lemma {:induction false} UpdatesCounted(c: Code)
    ensures CountUps(Ops(c)) == Updates(c)
  {
    match c
    case Nothing =>
    case Update =>
      OneCountUp();
    case Section(body) =>
      UpdatesCounted(body);
      CountUpsAppend([SaveDisable] + Ops(body), [Restore]);
      CountUpsAppend([SaveDisable], Ops(body));
      assert [SaveDisable][..0] == [] && [Restore][..0] == [];
    case Then(a, b) =>
      UpdatesCounted(a);
      UpdatesCounted(b);
      CountUpsAppend(Ops(a), Ops(b));
  }

  lemma OneCountUp()
    ensures CountUps(Ops(Update)) == 1
  {
    var ops := Ops(Update);
    assert ops == [SaveDisable, CountUp] + [SetSum, Restore, CallIsr];
    CountUpsAppend([SaveDisable, CountUp], [SetSum, Restore, CallIsr]);
    assert [SaveDisable, CountUp][..1] == [SaveDisable] && [SaveDisable][..0] == [];
    assert [SetSum, Restore, CallIsr][..2] == [SetSum, Restore];
    assert [SetSum, Restore][..1] == [SetSum] && [SetSum][..0] == [];
  }

  lemma {:induction false} RunCounts(ops: seq<Op>, s: State, ps: seq<Point>, ts: seq<Tick>, k: nat)
    requires IsRun(ops, s, ps, ts) && k <= |ts| < |ps|
    ensures ps[k].pc <= |ops| && ps[k].s.count == (s.count + CountUps(ops[..ps[k].pc])) % U64
    decreases k
  {
    hide Bit, PutBit, Isr;
    if k == 0 {
      assert ops[..0] == [];
    } else {
      RunCounts(ops, s, ps, ts, k - 1);
      var p := ps[k - 1];
      IsrCounts(p.s);
      if ts[k - 1] == Go {
        assert ops[..p.pc + 1][..p.pc] == ops[..p.pc];
        IncrementWraps(s.count + CountUps(ops[..p.pc]));
      }
    }
  }

  lemma IsrCounts(s: State)
    ensures Isr(s).count == s.count && Isr(s).sstatus == s.sstatus && Isr(s).saved == s.saved
  {
  }

  /** A finished program has counted every update once, and the checksum agrees. */
  lemma ProtectedUpdatesAddUp(c: Code, s: State, ps: seq<Point>, ts: seq<Tick>, k: nat)
    requires IsRun(Ops(c), s, ps, ts) && k <= |ts| < |ps| && ps[k].pc == |Ops(c)|
    requires Consistent(s) && !s.broken
    ensures ps[k].s.count == (s.count + Updates(c)) % U64 && ps[k].s.sum == 3 * ps[k].s.count % U64
  {
    hide IsRun, Ops, Bit;
    RunCounts(Ops(c), s, ps, ts, k);
    UpdatesCounted(c);
    assert Ops(c)[..|Ops(c)|] == Ops(c);
    IsrNeverSeesBroken(c, s, ps, ts, k);
    OpsGuarded(c);
  }

  // ------------------------------------------------------------------ the unprotected update

  lemma TripleMoves(n: Word)
    ensures 3 * ((n + 1) % U64) % U64 != 3 * n % U64
  {
  }

  /** The update without a section always shows its handler a broken pair, from every consistent
      state, although it ends in a consistent one. */
  lemma UnprotectedShowsBroken(s: State)
    requires Consistent(s)
    ensures var t := Do(CallIsr, Do(CountUp, s)); t.broken && Consistent(Do(SetSum, t))
  {
    TripleMoves(s.count);
  }

  // ------------------------------------------------------------------ the code itself

  datatype Verdict = Pass | FailBaseline | FailSection

  /** The kernel's variables and sstatus. */
  class Events {
    var sstatus: Word
    var count: Word
    var sum: Word
    var broken: bool

    constructor (status: Word)
      ensures sstatus == status
    {
      sstatus, count, sum, broken := status, 0, 0, false;
    }

    function View(saved: seq<Word>): State
      reads this
    {
      State(sstatus, count, sum, broken, saved)
    }

    method IrqSaveDisable(ghost saved: seq<Word>) returns (prior: Word)
      modifies this`sstatus
      ensures prior == old(sstatus) && !Bit(sstatus, SIE)
      ensures forall j: nat :: Bit(sstatus, j) == (j != 1 && Bit(old(sstatus), j))
      ensures View(saved + [prior]) == Do(SaveDisable, old(View(saved)))
    {
      hide PutBit, Bit;
      prior := sstatus;
      sstatus := Put(sstatus, SIE, false);
      forall j: nat ensures Bit(sstatus, j) == (j != 1 && Bit(prior, j)) {
        BitPut(prior, SIE, false, j);
      }
    }

    method IrqRestore(prior: Word, ghost saved: seq<Word>)
      modifies this`sstatus
      ensures forall j: nat :: Bit(sstatus, j) == if j == 1 then Bit(prior, 1) else Bit(old(sstatus), j)
      ensures View(saved) == Do(Restore, old(View(saved + [prior])))
    {
      hide PutBit, Bit;
      forall j: nat ensures Bit(RestoredTo(sstatus, prior), j) == if j == 1 then Bit(prior, 1) else Bit(sstatus, j) {
        BitPut(sstatus, SIE, Bit(prior, SIE), j);
      }
      assert (saved + [prior])[..|saved|] == saved;
      if Bit(prior, SIE) {
        sstatus := Put(sstatus, SIE, true);
      } else {
        sstatus := Put(sstatus, SIE, false);
      }
    }

    method SimulatedIsr()
      modifies this`broken
      ensures broken <==> old(broken) || sum != 3 * count % U64
      ensures forall saved :: View(saved) == Isr(old(View(saved)))
    {
      if sum != 3 * count % U64 {
        broken := true;
      }
    }

    /** Always shows the handler the broken pair. */
    method UnprotectedEventUpdate()
      requires sum == 3 * count % U64
      modifies this`count, this`sum, this`broken
      ensures broken && count == (old(count) + 1) % U64 && sum == 3 * count % U64
    {
      TripleMoves(count);
      count := (count + 1) % U64;
      SimulatedIsr();
      assert View([]).broken;
      sum := 3 * count % U64;
    }

    /** Never does, and leaves sstatus as it was. */
    method ProtectedEventUpdate()
      requires sum == 3 * count % U64
      modifies this
      ensures broken == old(broken) && count == (old(count) + 1) % U64 && sum == 3 * count % U64
      ensures sstatus == old(sstatus)
    {
      hide PutBit, Bit;
      ghost var status := sstatus;
      var before := IrqSaveDisable([]);
      count := (count + 1) % U64;
      sum := 3 * count % U64;
      IrqRestore(before, []);
      assert View([]) == Do(Restore, State(Put(before, SIE, false), count, sum, broken, [before]));
      PutTwice(before, SIE, false, Bit(before, SIE));
      PutSame(before, SIE);
      SimulatedIsr();
      assert View([]).broken == old(broken);
    }

    /** Part C of lab18_main. */
    method PartC() returns (v: Verdict)
      modifies this
      ensures v == Pass && sstatus == old(sstatus) && count == 1 && sum == 3 && !broken
    {
      count, sum, broken := 0, 0, false;
      UnprotectedEventUpdate();
      if !broken {
        return FailBaseline;
      }
      count, sum, broken := 0, 0, false;
      ProtectedEventUpdate();
      if broken {
        return FailSection;
      }
      return Pass;
    }
  }
}
