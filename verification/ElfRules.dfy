/** What the ELF64 format (System V gABI, chapters 4 and 5) and the user's window say about a file, in the
    numbers that stand at fixed places of its bytes: the reference for the loader. */
module ElfRules {
  import opened Memory
  import opened ElfFormat

  /** Little-endian numbers of two, four and eight bytes. */
  function U16(b: seq<Byte>, at: nat): nat
    requires at + 2 <= |b|
  {
    b[at] as int + 0x100 * b[at + 1] as int
  }

  function U32(b: seq<Byte>, at: nat): nat
    requires at + 4 <= |b|
  {
    U16(b, at) + 0x1_0000 * U16(b, at + 2)
  }

  function U64At(b: seq<Byte>, at: nat): nat
    requires at + 8 <= |b|
  {
    U32(b, at) + 0x1_0000_0000 * U32(b, at + 4)
  }

  lemma FieldIsNumber(b: seq<Byte>, at: nat)
    ensures at + 2 <= |b| ==> Field(b, at, 2) == U16(b, at)
    ensures at + 4 <= |b| ==> Field(b, at, 4) == U32(b, at)
    ensures at + 8 <= |b| ==> Field(b, at, 8) == U64At(b, at)
  {
    hide Le;
    if at + 2 <= |b| {
      LittleEndian(b[at..at + 2]);
    }
    if at + 4 <= |b| {
      LittleEndian(b[at..at + 4]);
    }
    if at + 8 <= |b| {
      LittleEndian(b[at..at + 8]);
    }
  }

  /** Where a segment goes: p_paddr unless it is zero. */
  function Start(s: Segment): nat {
    if s.paddr != 0 then s.paddr else s.vaddr
  }

  predicate FromFile(s: Segment, size: nat) {
    s.filesz <= s.memsz && s.offset + s.filesz <= size
  }

  predicate IntoWindow(s: Segment) {
    0x8040_0000 <= Start(s) && Start(s) + s.memsz <= 0x8041_0000
  }

  /** A program header that may be loaded or skipped. */
  predicate Sound(s: Segment, size: nat) {
    s.kind == 1 ==> FromFile(s, size) && IntoWindow(s)
  }

  predicate Spans(s: Segment, a: int) {
    s.kind == 1 && Start(s) <= a < Start(s) + s.memsz
  }

  /** Segment i is the last that spans a. */
  predicate LastSpan(ss: seq<Segment>, i: nat, a: int) {
    i < |ss| && Spans(ss[i], a) && forall j | i < j < |ss| :: !Spans(ss[j], a)
  }

  /** n is m after the segments were loaded one after the other: the last one that spans an address gives
      its byte, from the file as far as p_filesz goes and zero from there on; all other bytes stay. */
  ghost predicate LoadedFrom(image: Image, ss: seq<Segment>, m: Mem, n: Mem) {
    && (forall i: nat, a: int | LastSpan(ss, i, a) ::
          var k := a - Start(ss[i]);
          if k < ss[i].filesz then ss[i].offset + k < |image| && Peek(n, a) == image[ss[i].offset + k]
          else Peek(n, a) == 0)
    && (forall a: int | forall i | 0 <= i < |ss| :: !Spans(ss[i], a) :: Peek(n, a) == Peek(m, a))
  }
}
