/** Lab 15 in C: the trap dispatcher, the UART handler and the PLIC operations, on the registers of
    the devices and on the byte memory that holds the trap frame. */
module TrapDispatch {
  import opened Util
  import opened Memory
  import opened Riscv
  import opened Bits
  import opened TrapFrame

  const UART0_IRQ: nat := 10
  const SOURCES: nat := 32
  const SEIE: nat := 9
  const USER_IRQ_FLAG: nat := 0x80401000
  const USER_IRQ_BYTE: nat := 0x80401008
  const SCAUSE_INTERRUPT: nat := 0x8000_0000_0000_0000
  const SCAUSE_ECALL_U: nat := 8
  const SCAUSE_EXTERNAL_S: nat := 9
  const SYS_REGCHECK: nat := 1
  const SYS_ENABLE_IRQ: nat := 2
  const SYS_EXIT: nat := 3

  datatype PlicOp = Claim(source: nat) | Complete(source: nat)

  type Priorities = p: seq<nat> | |p| == SOURCES witness seq(SOURCES, _ => 0)

  /** The PLIC as hart 0's supervisor context sees it, the UART receiver, sie, and the handler's two
      globals. claims and taken record the accesses to the claim/complete and receive registers. */
  datatype Dev = Dev(
    priority: Priorities,
    enable: nat,
    threshold: nat,
    pending: set<nat>,
    inService: set<nat>,
    rx: seq<Byte>,
    drie: bool,
    sie: Word,
    lastClaim: nat,
    lastByte: nat,
    claims: seq<PlicOp>,
    taken: seq<Byte>
  )

  // ------------------------------------------------------------------ the devices

  /** The UART keeps its request up while it holds a byte; the gateway forwards it unless the last
      one is still in service. */
  function Gate(d: Dev): Dev {
    if d.rx != [] && d.drie && UART0_IRQ !in d.inService then d.(pending := d.pending + {UART0_IRQ}) else d
  }

  predicate Candidate(d: Dev, s: nat) {
    1 <= s < SOURCES && s in d.pending && Bit(d.enable, s) && d.priority[s] > 0
  }

  /** The candidate among sources 1 to n that the PLIC presents, or 0. */
  function Best(d: Dev, n: nat): nat
    requires n < SOURCES
  {
    if n == 0 then 0
    else
      var b := Best(d, n - 1);
      if Candidate(d, n) && (b == 0 || (b < SOURCES && d.priority[n] > d.priority[b])) then n else b
  }

  /** Highest priority first, then lowest number. */
  lemma {:induction false} BestIsBest(d: Dev, n: nat)
    requires n < SOURCES
    ensures var b := Best(d, n);
            && b <= n
            && (b == 0 <==> forall s | 1 <= s <= n :: !Candidate(d, s))
            && (b != 0 ==> Candidate(d, b) && forall s | 1 <= s <= n && Candidate(d, s) ::
                  d.priority[s] < d.priority[b] || (d.priority[s] == d.priority[b] && b <= s))
  {
    hide Candidate;
    if n > 0 {
      BestIsBest(d, n - 1);
    }
  }

  /** What the claim register shows, in the PLIC's registers: of the pending, enabled sources of positive
      priority one of highest priority, the lowest number among equals; 0 if there is none. */
  lemma PresentsBest(d: Dev)
    ensures var b := Best(d, SOURCES - 1);
            && (b == 0 <==> forall s | 1 <= s < 32 && s in d.pending && Bit(d.enable, s) :: d.priority[s] == 0)
            && (b != 0 ==>
                  && 1 <= b < 32 && b in d.pending && Bit(d.enable, b) && d.priority[b] > 0
                  && forall s | 1 <= s < 32 && s != b && s in d.pending && Bit(d.enable, s) && d.priority[s] > 0 ::
                       d.priority[s] < d.priority[b] || (d.priority[s] == d.priority[b] && b < s))
  {
    hide Bit, Best;
    BestIsBest(d, SOURCES - 1);
    assert forall s: nat | 1 <= s < SOURCES ::
      Candidate(d, s) <==> s in d.pending && Bit(d.enable, s) && d.priority[s] > 0;
  }

  lemma CandidateInRange(d: Dev, s: nat)
    requires Candidate(d, s)
    ensures 1 <= s < SOURCES && s in d.pending && Bit(d.enable, s) && d.priority[s] > 0
  {
  }

  /** An external interrupt reaches the hart in user mode: SIE does not matter there. */
  ghost predicate Deliverable(d: Dev) {
    Bit(d.sie, SEIE) && exists s: nat :: Candidate(d, s) && d.priority[s] > d.threshold
  }

  /** Reading the claim register. */
  function Claimed(d: Dev): Dev {
    var b := Best(d, SOURCES - 1);
    d.(pending := d.pending - {b}, inService := if b == 0 then d.inService else d.inService + {b},
       claims := d.claims + [Claim(b)], lastClaim := b)
  }

  /** Writing the claim/complete register; the PLIC ignores a source that is not enabled. */
  function Completed(d: Dev, s: nat): Dev {
    var e := d.(claims := d.claims + [Complete(s)]);
    if Bit(d.enable, s) then Gate(e.(inService := d.inService - {s})) else e
  }

  /** plic_enable_uart. */
  function UartEnabled(d: Dev): Dev {
    d.(priority := d.priority[UART0_IRQ := 1], enable := PutBit(d.enable, UART0_IRQ, true), threshold := 0)
  }

  // ------------------------------------------------------------------ the C functions

  datatype Outcome = Return(mem: Mem, dev: Dev) | Halt | Exit(code: Word)

  /** Reading the receive register. */
  function ByteTaken(d: Dev): Dev
    requires d.rx != []
  {
    d.(rx := d.rx[1..], taken := d.taken + [d.rx[0]], lastByte := d.rx[0])
  }

  /** The cells as the handler leaves them. */
  function BytePublished(m: Mem, byte: Byte): Mem {
    Store64(Store64(m, USER_IRQ_BYTE, byte), USER_IRQ_FLAG, 1)
  }

  /** handle_external_interrupt. */
  function HandleExternal(m: Mem, d: Dev): Outcome {
    var c := Claimed(d);
    if c.lastClaim != UART0_IRQ || c.rx == [] then Halt
    else Return(BytePublished(m, c.rx[0]), Completed(ByteTaken(c), UART0_IRQ))
  }

  /** enable_uart_external_interrupt. */
  function EnableUart(d: Dev): Dev {
    Gate(UartEnabled(d).(drie := true)).(sie := Put(d.sie, SEIE, true))
  }

  function CellsCleared(m: Mem): Mem {
    Store64(Store64(m, USER_IRQ_FLAG, 0), USER_IRQ_BYTE, 0)
  }

  function StatusEnabled(m: Mem, frame: int): Mem {
    Store64(m, frame + TF_SSTATUS, Put(Load64(m, frame + TF_SSTATUS), SPIE, true))
  }

  /** supervisor_trap_dispatch(frame). */
  function Dispatch(frame: Word, m: Mem, d: Dev): Outcome {
    if frame == 0 then Halt
    else
      var scause := Load64(m, frame + TF_SCAUSE);
      var code := scause % SCAUSE_INTERRUPT;
      if scause >= SCAUSE_INTERRUPT then
        if code == SCAUSE_EXTERNAL_S then HandleExternal(m, d) else Halt
      else if code != SCAUSE_ECALL_U then Halt
      else
        var m1 := Store64(m, frame + TF_SEPC, (Load64(m, frame + TF_SEPC) + 4) % U64);
        var call := Load64(m1, frame + TF_A7);
        if call == SYS_REGCHECK then Return(m1, d)
        else if call == SYS_ENABLE_IRQ then Return(StatusEnabled(CellsCleared(m1), frame), EnableUart(d))
        else if call == SYS_EXIT then Exit(Load64(m1, frame + TF_A0))
        else Halt
  }

  // ------------------------------------------------------------------ what the handler achieves

  /** The handler returns exactly when the PLIC presents the UART and the UART holds a byte; then it
      has taken the oldest byte, shown it to the user and noted it in lab15_last_uart_byte, has claimed and
      completed source 10 once and noted it in lab15_last_claim, and the source can be presented again as
      long as bytes are left. */
  lemma HandlerOutcome(m: Mem, d: Dev)
    ensures var o := HandleExternal(m, d);
            && (o.Return? <==> Best(d, SOURCES - 1) == UART0_IRQ && d.rx != [])
            && (!o.Return? ==> o.Halt?)
            && (o.Return? ==>
                  && o.dev.taken == d.taken + [d.rx[0]] && o.dev.rx == d.rx[1..]
                  && o.dev.taken + o.dev.rx == d.taken + d.rx
                  && o.dev.claims == d.claims + [Claim(UART0_IRQ), Complete(UART0_IRQ)]
                  && o.dev.inService == d.inService - {UART0_IRQ}
                  && (UART0_IRQ in o.dev.pending <==> o.dev.rx != [] && d.drie)
                  && (forall s | s != UART0_IRQ :: s in o.dev.pending <==> s in d.pending)
                  && o.dev.priority == d.priority && o.dev.enable == d.enable && o.dev.threshold == d.threshold
                  && o.dev.sie == d.sie && o.dev.drie == d.drie
                  && o.dev.lastClaim == 10 && o.dev.lastByte == d.rx[0]
                  && o.mem == Store64(Store64(m, 0x8040_1008, d.rx[0]), 0x8040_1000, 1))
  {
    hide Bit, Store64, Best;
    BestIsBest(d, SOURCES - 1);
    if Best(d, SOURCES - 1) == UART0_IRQ && d.rx != [] {
      CandidateInRange(d, UART0_IRQ);
      assert d.taken + [d.rx[0]] + d.rx[1..] == d.taken + d.rx;
      assert d.claims + [Claim(UART0_IRQ)] + [Complete(UART0_IRQ)] ==
             d.claims + [Claim(UART0_IRQ), Complete(UART0_IRQ)];
    }
  }

  /** Bytes received one after the other. */
  function Received(d: Dev, bytes: seq<Byte>): Dev
    decreases |bytes|
  {
    if bytes == [] then d else Received(Gate(d.(rx := d.rx + [bytes[0]])), bytes[1..])
  }

  lemma {:induction false} ReceivedIs(d: Dev, bytes: seq<Byte>)
    ensures Received(d, bytes) ==
            d.(rx := d.rx + bytes,
               pending := if bytes != [] && d.drie && UART0_IRQ !in d.inService then d.pending + {UART0_IRQ}
                          else d.pending)
    decreases |bytes|
  {
    if bytes == [] {
      assert d.rx + bytes == d.rx;
    } else {
      ReceivedIs(Gate(d.(rx := d.rx + [bytes[0]])), bytes[1..]);
      assert d.rx + [bytes[0]] + bytes[1..] == d.rx + bytes;
      assert d.pending + {UART0_IRQ} + {UART0_IRQ} == d.pending + {UART0_IRQ};
    }
  }

  /** handle_external_interrupt with bytes that arrive between its claim and its look at the UART, and
      between its read and its completion. (Earlier and later bytes are arrivals in user mode.) */
  function HandleDuring(m: Mem, d: Dev, early: seq<Byte>, late: seq<Byte>): Outcome {
    var c := Received(Claimed(d), early);
    if c.lastClaim != UART0_IRQ || c.rx == [] then Halt
    else Return(BytePublished(m, c.rx[0]), Completed(Received(ByteTaken(c), late), UART0_IRQ))
  }

  /** Such bytes are neither lost nor taken early: it is as if they had arrived after the handler. The
      condition holds in every user-mode state, where the UART is pending only if it holds a byte. */
  lemma LateBytesWait(m: Mem, d: Dev, early: seq<Byte>, late: seq<Byte>)
    requires UART0_IRQ in d.pending ==> d.rx != []
    ensures var o := HandleExternal(m, d);
            HandleDuring(m, d, early, late) == if o.Return? then Return(o.mem, Received(o.dev, early + late)) else o
  {
    hide Bit, BytePublished, Best, Completed, Received, ByteTaken;
    var c := Claimed(d);
    ReceivedIs(c, early);
    BestIsBest(d, SOURCES - 1);
    if c.lastClaim == UART0_IRQ {
      CandidateInRange(d, UART0_IRQ);
      TakenBeforeLate(c, early, late);
      CompletedBeforeLate(ByteTaken(c), early + late);
    }
  }

  /** While source 10 is in service, an arrival changes nothing but the receive queue, ... */
  lemma TakenBeforeLate(c: Dev, early: seq<Byte>, late: seq<Byte>)
    requires c.rx != [] && UART0_IRQ in c.inService
    ensures Received(c, early).rx != [] && Received(c, early).rx[0] == c.rx[0]
    ensures Received(ByteTaken(Received(c, early)), late) == Received(ByteTaken(c), early + late)
    ensures ByteTaken(c).enable == c.enable && ByteTaken(c).inService == c.inService
  {
    hide Received, Gate, ByteTaken;
    ReceivedInService(c, early);
    var e := c.(rx := c.rx + early);
    OneByteTaken(c);
    OneByteTaken(e);
    ReceivedInService(ByteTaken(e), late);
    ReceivedInService(ByteTaken(c), early + late);
    assert e.rx[1..] + late == c.rx[1..] + (early + late);
  }

  lemma OneByteTaken(d: Dev)
    requires d.rx != [] && UART0_IRQ in d.inService
    ensures ByteTaken(d) == d.(rx := d.rx[1..], taken := d.taken + [d.rx[0]], lastByte := d.rx[0])
  {
  }

  lemma ReceivedInService(d: Dev, bytes: seq<Byte>)
    requires UART0_IRQ in d.inService
    ensures Received(d, bytes) == d.(rx := d.rx + bytes)
  {
    hide Received;
    ReceivedIs(d, bytes);
  }

  /** ... and the completion lets it be forwarded. */
  lemma CompletedBeforeLate(e: Dev, bytes: seq<Byte>)
    requires UART0_IRQ in e.inService && Bit(e.enable, UART0_IRQ)
    ensures Completed(Received(e, bytes), UART0_IRQ) == Received(Completed(e, UART0_IRQ), bytes)
  {
    hide Bit;
    ReceivedIs(e, bytes);
    ReceivedIs(Completed(e, UART0_IRQ), bytes);
    assert e.rx + bytes == [] <==> e.rx == [] && bytes == [];
    assert e.pending + {UART0_IRQ} + {UART0_IRQ} == e.pending + {UART0_IRQ};
  }

  lemma {:induction false} ReceivedAppend(d: Dev, a: seq<Byte>, b: seq<Byte>)
    ensures Received(Received(d, a), b) == Received(d, a + b)
    decreases |a|
  {
    if a == [] {
      assert a + b == b;
    } else {
      assert (a + b)[1..] == a[1..] + b;
      ReceivedAppend(Gate(d.(rx := d.rx + [a[0]])), a[1..], b);
    }
  }

  lemma EnabledBeforeLate(d: Dev, bytes: seq<Byte>)
    ensures EnableUart(Received(d, bytes)) == Received(EnableUart(d), bytes)
  {
    hide Bit, PutBit, Received;
    ReceivedIs(d, bytes);
    ReceivedIs(EnableUart(d), bytes);
    assert d.rx + bytes == [] <==> d.rx == [] && bytes == [];
    assert d.pending + {UART0_IRQ} + {UART0_IRQ} == d.pending + {UART0_IRQ};
  }

  /** supervisor_trap_dispatch with bytes that arrive at two moments while it runs. */
  function DispatchDuring(frame: Word, m: Mem, d: Dev, early: seq<Byte>, late: seq<Byte>): Outcome {
    if frame != 0 && Load64(m, frame + TF_SCAUSE) == SCAUSE_INTERRUPT + SCAUSE_EXTERNAL_S then
      HandleDuring(m, d, early, late)
    else
      var o := Dispatch(frame, m, Received(d, early));
      if o.Return? then Return(o.mem, Received(o.dev, late)) else o
  }

  /** For both kinds of trap it is as if they had arrived afterwards. */
  lemma DispatchBeforeLate(frame: Word, m: Mem, d: Dev, early: seq<Byte>, late: seq<Byte>)
    requires UART0_IRQ in d.pending ==> d.rx != []
    ensures var o := Dispatch(frame, m, d);
            DispatchDuring(frame, m, d, early, late) ==
              if o.Return? then Return(o.mem, Received(o.dev, early + late)) else o
  {
    hide Bit, PutBit, Store64, Load64, Received, HandleExternal, HandleDuring, EnableUart, StatusEnabled, CellsCleared;
    if frame != 0 && Load64(m, frame + TF_SCAUSE) == SCAUSE_INTERRUPT + SCAUSE_EXTERNAL_S {
      LateBytesWait(m, d, early, late);
    } else {
      ReceivedAppend(d, early, late);
      EnabledBeforeLate(d, early);
      ReceivedAppend(EnableUart(d), early, late);
    }
  }

  /** plic_enable_uart enables source 10 and leaves every other source as it was. */
  lemma UartEnabledOnly(d: Dev, s: nat)
    requires 1 <= s < SOURCES
    ensures var e := UartEnabled(d);
            && Bit(e.enable, s) == (s == UART0_IRQ || Bit(d.enable, s))
            && (s != UART0_IRQ ==> e.priority[s] == d.priority[s])
            && e.priority[UART0_IRQ] > e.threshold
            && e.priority[10] == 1 && e.threshold == 0
            && e == d.(priority := e.priority, enable := e.enable, threshold := e.threshold)
  {
    hide Bit, PutBit;
    BitPut(d.enable, UART0_IRQ, true, s);
  }

  /** enable_uart_external_interrupt in the bits of the registers: source 10 with priority 1 above threshold
      0, the UART's receive interrupt and sie.SEIE; nothing else, but that a byte that waits is requested. */
  lemma EnableOutcome(d: Dev)
    ensures var e := EnableUart(d);
            && e.priority == d.priority[10 := 1] && e.threshold == 0 && e.drie
            && (forall s: nat :: Bit(e.enable, s) == (s == 10 || Bit(d.enable, s)))
            && (forall j: nat :: Bit(e.sie, j) == (j == 9 || Bit(d.sie, j)))
            && (forall s: nat :: s in e.pending <==> s in d.pending || (s == 10 && d.rx != [] && 10 !in d.inService))
            && e.inService == d.inService && e.rx == d.rx && e.taken == d.taken && e.claims == d.claims
            && e.lastClaim == d.lastClaim && e.lastByte == d.lastByte
  {
    hide Bit, PutBit;
    var e := EnableUart(d);
    forall s: nat ensures Bit(e.enable, s) == (s == 10 || Bit(d.enable, s)) {
      BitPut(d.enable, UART0_IRQ, true, s);
    }
    forall j: nat ensures Bit(e.sie, j) == (j == 9 || Bit(d.sie, j)) {
      BitPut(d.sie, SEIE, true, j);
    }
  }

  /** After the enabling system call a byte that waits or arrives is delivered in user mode. */
  lemma EnabledDelivers(d: Dev)
    requires d.inService == {}
    ensures var e := EnableUart(d);
            && (e.rx != [] ==> Deliverable(e))
            && (e.rx != [] ==> 10 in e.pending && Bit(e.enable, 10) && e.priority[10] > e.threshold && Bit(e.sie, 9))
            && forall b: Byte :: Deliverable(Gate(e.(rx := e.rx + [b])))
  {
    hide Bit, PutBit;
    var e := EnableUart(d);
    BitPut(d.sie, SEIE, true, SEIE);
    BitPut(d.enable, UART0_IRQ, true, UART0_IRQ);
    if e.rx != [] {
      assert Candidate(e, UART0_IRQ);
    }
    forall b: Byte ensures Deliverable(Gate(e.(rx := e.rx + [b]))) {
      assert Candidate(Gate(e.(rx := e.rx + [b])), UART0_IRQ);
    }
  }

  // ------------------------------------------------------------------ what the dispatcher decides

  /** By the numbers in the frame: which traps and which calls halt the machine, exit, or return, and what
      a returning call leaves. */
  lemma DispatchDecides(frame: Word, m: Mem, d: Dev)
    ensures var o := Dispatch(frame, m, d); var scause := Load64(m, frame + 264); var call := Load64(m, frame + 120);
            && (frame == 0 ==> o == Halt)
            && (scause != 8 && scause != 0x8000_0000_0000_0009 ==> o == Halt)
            && (frame != 0 && scause == 0x8000_0000_0000_0009 ==> o == HandleExternal(m, d))
            && (frame != 0 && scause == 8 ==>
                  var sepc := (Load64(m, frame + 248) + 4) % U64;
                  var m1 := Store64(m, frame + 248, sepc);
                  var m2 := Store64(Store64(m1, 0x8040_1000, 0), 0x8040_1008, 0);
                  if call == 1 then o == Return(m1, d)
                  else if call == 2 then
                    o == Return(Store64(m2, frame + 256, Put(Load64(m2, frame + 256), 5, true)), EnableUart(d))
                  else if call == 3 then o == Exit(Load64(m, frame + 64))
                  else o == Halt)
  {
    hide Bit, PutBit, Store64, Load64, EnableUart, HandleExternal;
    CallWordsKept(m, frame, (Load64(m, frame + 248) + 4) % U64);
  }

  /** Advancing the saved pc changes neither the call's number nor its argument. */
  lemma CallWordsKept(m: Mem, frame: int, v: Word)
    ensures Load64(Store64(m, frame + TF_SEPC, v), frame + TF_A7) == Load64(m, frame + TF_A7)
    ensures Load64(Store64(m, frame + TF_SEPC, v), frame + TF_A0) == Load64(m, frame + TF_A0)
  {
    var n := Store64(m, frame + TF_SEPC, v);
    LoadAgrees(n, m, frame + TF_A7);
    LoadAgrees(n, m, frame + TF_A0);
  }

  // ------------------------------------------------------------------ the code itself

  /** How a call of a C function ends. */
  datatype Ending = Returned | Halted | Exited(code: Word)

  /** What an outcome says about a call's ending and the state it leaves. */
  predicate Ends(o: Outcome, e: Ending, m: Mem, d: Dev) {
    match o
    case Return(m', d') => e == Returned && m == m' && d == d'
    case Halt => e == Halted
    case Exit(code) => e == Exited(code)
  }

  /** The hart's memory and the devices, changed in place. */
  class Board {
    const cpu: Cpu
    var priority: Priorities
    var enable: nat
    var threshold: nat
    var pending: set<nat>
    var inService: set<nat>
    var rx: seq<Byte>
    var drie: bool
    var sie: Word
    var lastClaim: nat
    var lastByte: nat
    var claims: seq<PlicOp>
    var taken: seq<Byte>

    constructor (hart: Cpu, d: Dev)
      ensures cpu == hart && State() == d
    {
      cpu := hart;
      priority, enable, threshold, pending, inService := d.priority, d.enable, d.threshold, d.pending, d.inService;
      rx, drie, sie, lastClaim, lastByte := d.rx, d.drie, d.sie, d.lastClaim, d.lastByte;
      claims, taken := d.claims, d.taken;
    }

    function State(): Dev
      reads this
    {
      Dev(priority, enable, threshold, pending, inService, rx, drie, sie, lastClaim, lastByte, claims, taken)
    }

    /** The interrupt gateway reacts to the UART's level. */
    method Sense()
      modifies this
      ensures State() == Gate(old(State()))
    {
      if rx != [] && drie && UART0_IRQ !in inService {
        pending := pending + {UART0_IRQ};
      }
    }

    method PlicEnableUart()
      modifies this
      ensures State() == UartEnabled(old(State()))
      ensures priority == old(priority)[10 := 1] && threshold == 0
      ensures forall s: nat :: Bit(enable, s) == (s == 10 || Bit(old(enable), s))
    {
      hide Bit, PutBit;
      forall s: nat ensures Bit(PutBit(enable, UART0_IRQ, true), s) == (s == 10 || Bit(enable, s)) {
        BitPut(enable, UART0_IRQ, true, s);
      }
      priority := priority[UART0_IRQ := 1];
      var enabledSources := enable;
      enable := PutBit(enabledSources, UART0_IRQ, true);
      threshold := 0;
    }

    method PlicClaim() returns (source: nat)
      modifies this
      ensures source == Best(old(State()), SOURCES - 1)
      ensures State() == Claimed(old(State())).(lastClaim := old(lastClaim))
      ensures pending == old(pending) - {source} && claims == old(claims) + [Claim(source)]
      ensures inService == if source == 0 then old(inService) else old(inService) + {source}
      ensures State() == old(State()).(pending := pending, inService := inService, claims := claims)
    {
      source := 0;
      var s := 1;
      while s < SOURCES
        invariant 1 <= s <= SOURCES && source == Best(State(), s - 1) && source < SOURCES
      {
        if Candidate(State(), s) && (source == 0 || priority[s] > priority[source]) {
          source := s;
        }
        s := s + 1;
      }
      pending := pending - {source};
      if source != 0 {
        inService := inService + {source};
      }
      claims := claims + [Claim(source)];
    }

    method PlicComplete(source: nat)
      modifies this
      ensures State() == Completed(old(State()), source)
      ensures claims == old(claims) + [Complete(source)]
      ensures inService == if Bit(enable, source) then old(inService) - {source} else old(inService)
      ensures pending == if Bit(enable, source) && rx != [] && drie && 10 !in inService then old(pending) + {10}
                         else old(pending)
      ensures State() == old(State()).(pending := pending, inService := inService, claims := claims)
    {
      claims := claims + [Complete(source)];
      if Bit(enable, source) {
        inService := inService - {source};
        Sense();
      }
    }

    /** The oldest received byte, or -1. */
    method UartReceiveInterrupt() returns (byte: int)
      modifies this
      ensures byte == if old(rx) == [] then -1 else old(rx[0])
      ensures State() == if old(rx) == [] then old(State())
                         else old(State()).(rx := old(rx[1..]), taken := old(taken) + [old(rx[0])])
    {
      if rx == [] {
        return -1;
      }
      byte := rx[0];
      taken := taken + [rx[0]];
      rx := rx[1..];
    }

    method HandleExternalInterrupt() returns (e: Ending)
      modifies this, cpu`mem
      ensures Ends(HandleExternal(old(cpu.mem), old(State())), e, cpu.mem, State())
      ensures e == Returned ==> old(rx) != [] && lastClaim == 10 && lastByte == old(rx[0]) && rx == old(rx[1..])
    {
      hide Best, Store64, Bit;
      var source := PlicClaim();
      lastClaim := source;
      if source != UART0_IRQ {
        return Halted;
      }
      var byte := UartReceiveInterrupt();
      if byte < 0 {
        return Halted;
      }
      lastByte := byte;
      cpu.mem := Store64(cpu.mem, USER_IRQ_BYTE, byte);
      cpu.mem := Store64(cpu.mem, USER_IRQ_FLAG, 1);
      PlicComplete(source);
      return Returned;
    }

    method EnableUartExternalInterrupt()
      modifies this, cpu`mem
      ensures cpu.mem == CellsCleared(old(cpu.mem)) && State() == EnableUart(old(State()))
      ensures cpu.mem == Store64(Store64(old(cpu.mem), 0x8040_1000, 0), 0x8040_1008, 0)
      ensures priority == old(priority)[10 := 1] && threshold == 0 && drie
      ensures forall s: nat :: Bit(enable, s) == (s == 10 || Bit(old(enable), s))
      ensures forall j: nat :: Bit(sie, j) == (j == 9 || Bit(old(sie), j))
    {
      hide Store64, Bit, PutBit;
      EnableOutcome(State());
      cpu.mem := Store64(cpu.mem, USER_IRQ_FLAG, 0);
      cpu.mem := Store64(cpu.mem, USER_IRQ_BYTE, 0);
      PlicEnableUart();
      drie := true;
      Sense();
      sie := Put(sie, SEIE, true);
    }

    method SupervisorTrapDispatch(frame: Word) returns (e: Ending)
      modifies this, cpu`mem
      ensures Ends(Dispatch(frame, old(cpu.mem), old(State())), e, cpu.mem, State())
    {
      hide Load64, Store64, Bit, PutBit, CellsCleared, EnableUart, HandleExternal;
      if frame == 0 {
        return Halted;
      }
      var scause := Load64(cpu.mem, frame + TF_SCAUSE);
      var code := scause % SCAUSE_INTERRUPT;
      if scause >= SCAUSE_INTERRUPT {
        if code == SCAUSE_EXTERNAL_S {
          e := HandleExternalInterrupt();
          return;
        }
        return Halted;
      }
      if code != SCAUSE_ECALL_U {
        return Halted;
      }
      cpu.mem := Store64(cpu.mem, frame + TF_SEPC, (Load64(cpu.mem, frame + TF_SEPC) + 4) % U64);
      var call := Load64(cpu.mem, frame + TF_A7);
      if call == SYS_REGCHECK {
        return Returned;
      } else if call == SYS_ENABLE_IRQ {
        EnableUartExternalInterrupt();
        cpu.mem := Store64(cpu.mem, frame + TF_SSTATUS, Put(Load64(cpu.mem, frame + TF_SSTATUS), SPIE, true));
        return Returned;
      } else if call == SYS_EXIT {
        return Exited(Load64(cpu.mem, frame + TF_A0));
      }
      return Halted;
    }
  }
}
