/** The ELF64 file header and program headers as bytes (System V gABI, chapters 4 and 5). */
module ElfFormat {
  import opened Util
  import opened Memory

  const EHDR_SIZE: nat := 64
  const PHDR_SIZE: nat := 56

  type Image = b: seq<Byte> | |b| < U64

  /** An unsigned little-endian number of n bytes. */
  function Field(b: seq<Byte>, at: nat, n: nat): nat
    requires at + n <= |b|
  {
    Le(b[at..at + n])
  }

  datatype Header = Header(
    ident: seq<Byte>, kind: nat, machine: nat, version: nat, entry: nat, phoff: nat, shoff: nat,
    flags: nat, ehsize: nat, phentsize: nat, phnum: nat, shentsize: nat, shnum: nat, shstrndx: nat)

  datatype Segment = Segment(
    kind: nat, flags: nat, offset: nat, vaddr: nat, paddr: nat, filesz: nat, memsz: nat, align: nat)

  function HeaderOf(b: seq<Byte>): (h: Header)
    requires |b| >= EHDR_SIZE
  {
    Header(b[..16], Field(b, 16, 2), Field(b, 18, 2), Field(b, 20, 4), Field(b, 24, 8), Field(b, 32, 8),
           Field(b, 40, 8), Field(b, 48, 4), Field(b, 52, 2), Field(b, 54, 2), Field(b, 56, 2),
           Field(b, 58, 2), Field(b, 60, 2), Field(b, 62, 2))
  }

  function SegmentAt(b: seq<Byte>, at: nat): (s: Segment)
    requires at + PHDR_SIZE <= |b|
  {
    Segment(Field(b, at, 4), Field(b, at + 4, 4), Field(b, at + 8, 8), Field(b, at + 16, 8),
            Field(b, at + 24, 8), Field(b, at + 32, 8), Field(b, at + 40, 8), Field(b, at + 48, 8))
  }

  /** The first n program headers of a table at phoff. */
  function Segments(b: seq<Byte>, phoff: nat, n: nat): (r: seq<Segment>)
    requires phoff + n * PHDR_SIZE <= |b|
    ensures |r| == n
  {
    seq(n, i requires 0 <= i < n => SegmentAt(b, phoff + i * PHDR_SIZE))
  }

  lemma FieldsFit(b: seq<Byte>, at: nat)
    ensures at + 8 <= |b| ==> Field(b, at, 8) < U64
    ensures at + 2 <= |b| ==> Field(b, at, 2) < 0x1_0000
  {
    WordBytes();
    if at + 8 <= |b| {
      LeBounded(b[at..at + 8]);
    }
    if at + 2 <= |b| {
      LeBounded(b[at..at + 2]);
      assert Pow256(2) == 0x1_0000;
    }
  }

  // ------------------------------------------------------------------ writing headers

  /** A number and the bytes it takes. */
  datatype Num = Num(value: nat, width: nat)

  predicate Fits(n: Num) {
    n.value < Pow256(n.width)
  }

  /** A C structure without padding. */
  function Pack(ns: seq<Num>): seq<Byte> {
    if ns == [] then [] else Bytes(ns[0].value, ns[0].width) + Pack(ns[1..])
  }

  function Offset(ns: seq<Num>, i: nat): nat
    requires i <= |ns|
  {
    if i == 0 then 0 else ns[0].width + Offset(ns[1..], i - 1)
  }

  lemma {:induction false} PackLength(ns: seq<Num>)
    ensures |Pack(ns)| == Offset(ns, |ns|)
  {
    if ns != [] {
      PackLength(ns[1..]);
    }
  }

  /** Every number reads back from its own place. */
  lemma {:induction false} PackedField(ns: seq<Num>, i: nat)
    requires i < |ns| && Fits(ns[i])
    ensures Offset(ns, i) + ns[i].width <= |Pack(ns)|
    ensures Field(Pack(ns), Offset(ns, i), ns[i].width) == ns[i].value
  {
    hide Bytes, Pow256, Field;
    var first := Bytes(ns[0].value, ns[0].width);
    var rest := Pack(ns[1..]);
    if i == 0 {
      FieldOfBytes(ns[0], rest);
    } else {
      PackedField(ns[1..], i - 1);
      FieldBehind(first, rest, Offset(ns[1..], i - 1), ns[i].width);
    }
  }

  lemma FieldOfBytes(n: Num, rest: seq<Byte>)
    requires Fits(n)
    ensures Field(Bytes(n.value, n.width) + rest, 0, n.width) == n.value
  {
    hide Bytes, Pow256, Le;
    var first := Bytes(n.value, n.width);
    assert (first + rest)[0..n.width] == first;
    LeOfBytes(n.value, n.width);
  }

  lemma FieldBehind(first: seq<Byte>, rest: seq<Byte>, at: nat, width: nat)
    requires at + width <= |rest|
    ensures Field(first + rest, |first| + at, width) == Field(rest, at, width)
  {
    hide Le;
    assert (first + rest)[|first| + at..|first| + at + width] == rest[at..at + width];
  }

  function SegmentNums(s: Segment): seq<Num> {
    [Num(s.kind, 4), Num(s.flags, 4), Num(s.offset, 8), Num(s.vaddr, 8),
     Num(s.paddr, 8), Num(s.filesz, 8), Num(s.memsz, 8), Num(s.align, 8)]
  }

  function HeaderNums(h: Header): seq<Num> {
    [Num(h.kind, 2), Num(h.machine, 2), Num(h.version, 4), Num(h.entry, 8), Num(h.phoff, 8), Num(h.shoff, 8),
     Num(h.flags, 4), Num(h.ehsize, 2), Num(h.phentsize, 2), Num(h.phnum, 2), Num(h.shentsize, 2),
     Num(h.shnum, 2), Num(h.shstrndx, 2)]
  }

  ghost predicate AllFit(ns: seq<Num>) {
    forall n | n in ns :: Fits(n)
  }

  lemma SegmentOffsets(s: Segment)
    ensures var ns := SegmentNums(s);
            && |ns| == 8 && |Pack(ns)| == PHDR_SIZE
            && Offset(ns, 1) == 4 && (forall i | 2 <= i < 8 :: Offset(ns, i) == 8 * (i - 1))
  {
    var ns := SegmentNums(s);
    PackLength(ns);
    OffsetStep(ns, 0);
    OffsetStep(ns, 1);
    OffsetStep(ns, 2);
    OffsetStep(ns, 3);
    OffsetStep(ns, 4);
    OffsetStep(ns, 5);
    OffsetStep(ns, 6);
    OffsetStep(ns, 7);
  }

  lemma {:induction false} OffsetStep(ns: seq<Num>, i: nat)
    requires i < |ns|
    ensures Offset(ns, i + 1) == Offset(ns, i) + ns[i].width
  {
    if i > 0 {
      OffsetStep(ns[1..], i - 1);
    }
  }

  /** Reading a program header that was written gives it back. */
  lemma SegmentRoundTrip(s: Segment)
    requires AllFit(SegmentNums(s))
    ensures |Pack(SegmentNums(s))| == PHDR_SIZE && SegmentAt(Pack(SegmentNums(s)), 0) == s
  {
    hide Pack, Offset, Field, Fits;
    var ns := SegmentNums(s);
    SegmentOffsets(s);
    OffsetZero(ns);
    forall i | 0 <= i < 8
      ensures Offset(ns, i) + ns[i].width <= |Pack(ns)| && Field(Pack(ns), Offset(ns, i), ns[i].width) == ns[i].value
    {
      PackedField(ns, i);
    }
    assert ns[0] == Num(s.kind, 4) && ns[1] == Num(s.flags, 4) && ns[2] == Num(s.offset, 8);
    assert ns[3] == Num(s.vaddr, 8) && ns[4] == Num(s.paddr, 8) && ns[5] == Num(s.filesz, 8);
    assert ns[6] == Num(s.memsz, 8) && ns[7] == Num(s.align, 8);
    assert Offset(ns, 2) == 8 && Offset(ns, 3) == 16 && Offset(ns, 4) == 24;
    assert Offset(ns, 5) == 32 && Offset(ns, 6) == 40 && Offset(ns, 7) == 48;
  }

  lemma OffsetZero(ns: seq<Num>)
    ensures Offset(ns, 0) == 0
  {
  }

  lemma HeaderOffsets(h: Header)
    ensures var ns := HeaderNums(h);
            && |ns| == 13 && |Pack(ns)| == 48
            && Offset(ns, 0) == 0 && Offset(ns, 1) == 2 && Offset(ns, 2) == 4 && Offset(ns, 3) == 8
            && Offset(ns, 4) == 16 && Offset(ns, 5) == 24 && Offset(ns, 6) == 32 && Offset(ns, 7) == 36
            && Offset(ns, 8) == 38 && Offset(ns, 9) == 40 && Offset(ns, 10) == 42 && Offset(ns, 11) == 44
            && Offset(ns, 12) == 46
  {
    hide Offset;
    var ns := HeaderNums(h);
    PackLength(ns);
    OffsetZero(ns);
    OffsetStep(ns, 0);
    OffsetStep(ns, 1);
    OffsetStep(ns, 2);
    OffsetStep(ns, 3);
    OffsetStep(ns, 4);
    OffsetStep(ns, 5);
    OffsetStep(ns, 6);
    OffsetStep(ns, 7);
    OffsetStep(ns, 8);
    OffsetStep(ns, 9);
    OffsetStep(ns, 10);
    OffsetStep(ns, 11);
    OffsetStep(ns, 12);
  }

  /** A part of a longer sequence. */
  lemma FieldShift(a: seq<Byte>, b: seq<Byte>, c: seq<Byte>, at: nat, n: nat)
    requires at + n <= |b|
    ensures Field(a + b + c, |a| + at, n) == Field(b, at, n)
  {
    assert (a + b + c)[|a| + at..|a| + at + n] == b[at..at + n];
  }

  function EncodeHeader(h: Header): seq<Byte> {
    h.ident + Pack(HeaderNums(h))
  }

  /** Reading a file header that was written gives it back, whatever follows it. */
  lemma HeaderRoundTrip(h: Header, rest: seq<Byte>)
    requires |h.ident| == 16 && AllFit(HeaderNums(h))
    ensures |EncodeHeader(h)| == EHDR_SIZE && HeaderOf(EncodeHeader(h) + rest) == h
  {
    hide Pack, Offset, Field, Fits, HeaderNums;
    var ns := HeaderNums(h);
    HeaderOffsets(h);
    var b := EncodeHeader(h) + rest;
    assert b[..16] == h.ident;
    forall i | 0 <= i < 13
      ensures 16 + Offset(ns, i) + ns[i].width <= |b| && Field(b, 16 + Offset(ns, i), ns[i].width) == ns[i].value
    {
      PackedField(ns, i);
      FieldShift(h.ident, Pack(ns), rest, Offset(ns, i), ns[i].width);
    }
    HeaderFields(h, b);
  }

  lemma HeaderFields(h: Header, b: seq<Byte>)
    requires |b| >= EHDR_SIZE && b[..16] == h.ident
    requires var ns := HeaderNums(h);
             && |ns| == 13
             && Offset(ns, 0) == 0 && Offset(ns, 1) == 2 && Offset(ns, 2) == 4 && Offset(ns, 3) == 8
             && Offset(ns, 4) == 16 && Offset(ns, 5) == 24 && Offset(ns, 6) == 32 && Offset(ns, 7) == 36
             && Offset(ns, 8) == 38 && Offset(ns, 9) == 40 && Offset(ns, 10) == 42 && Offset(ns, 11) == 44
             && Offset(ns, 12) == 46
    requires var ns := HeaderNums(h); forall i | 0 <= i < 13 ::
               16 + Offset(ns, i) + ns[i].width <= |b| && Field(b, 16 + Offset(ns, i), ns[i].width) == ns[i].value
    ensures HeaderOf(b) == h
  {
    hide Offset, Field;
    var ns := HeaderNums(h);
    assert ns[0] == Num(h.kind, 2) && ns[1] == Num(h.machine, 2) && ns[2] == Num(h.version, 4);
    assert ns[3] == Num(h.entry, 8) && ns[4] == Num(h.phoff, 8) && ns[5] == Num(h.shoff, 8);
    assert ns[6] == Num(h.flags, 4) && ns[7] == Num(h.ehsize, 2) && ns[8] == Num(h.phentsize, 2);
    assert ns[9] == Num(h.phnum, 2) && ns[10] == Num(h.shentsize, 2) && ns[11] == Num(h.shnum, 2);
    assert ns[12] == Num(h.shstrndx, 2);
  }

  function EncodeSegments(ss: seq<Segment>): seq<Byte> {
    if ss == [] then [] else Pack(SegmentNums(ss[0])) + EncodeSegments(ss[1..])
  }

  /** A written table reads back, whatever stands before and after it. */
  lemma {:induction false} SegmentsRoundTrip(a: seq<Byte>, ss: seq<Segment>, data: seq<Byte>)
    requires forall s | s in ss :: AllFit(SegmentNums(s))
    ensures |EncodeSegments(ss)| == |ss| * PHDR_SIZE
    ensures Segments(a + EncodeSegments(ss) + data, |a|, |ss|) == ss
    decreases |ss|
  {
    hide Pack, Field, SegmentNums, AllFit;
    if ss != [] {
      var s := ss[0];
      SegmentRoundTrip(s);
      var first := Pack(SegmentNums(s));
      var rest := EncodeSegments(ss[1..]);
      SegmentsRoundTrip(a + first, ss[1..], data);
      assert a + (first + rest) + data == a + first + rest + data;
      assert a + (first + rest) + data == a + first + (rest + data);
      SegmentShift(a, first, rest + data);
      var all := a + EncodeSegments(ss) + data;
      forall i | 0 <= i < |ss| ensures SegmentAt(all, |a| + i * PHDR_SIZE) == ss[i] {
        if i > 0 {
          assert |a| + i * PHDR_SIZE == |a + first| + (i - 1) * PHDR_SIZE;
          assert Segments(all, |a + first|, |ss| - 1)[i - 1] == ss[i];
        }
      }
    }
  }

  lemma SegmentShift(a: seq<Byte>, b: seq<Byte>, c: seq<Byte>)
    requires |b| == PHDR_SIZE
    ensures SegmentAt(a + b + c, |a|) == SegmentAt(b, 0)
  {
    hide Field;
    FieldShift(a, b, c, 0, 4);
    FieldShift(a, b, c, 4, 4);
    FieldShift(a, b, c, 8, 8);
    FieldShift(a, b, c, 16, 8);
    FieldShift(a, b, c, 24, 8);
    FieldShift(a, b, c, 32, 8);
    FieldShift(a, b, c, 40, 8);
    FieldShift(a, b, c, 48, 8);
  }
}
