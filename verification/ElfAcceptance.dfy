/** Which files the loader accepts and with which code it refuses the others, in the numbers of the file. */
module ElfAcceptance {
  import opened Memory
  import opened ElfFormat
  import opened ElfRules
  import opened ElfLoader

  /** The identification bytes: magic number, 64-bit class, little-endian data. */
  predicate Magic(b: seq<Byte>) {
    |b| >= 64 && b[0] == 0x7f && b[1] == 0x45 && b[2] == 0x4c && b[3] == 0x46
  }

  predicate Elf64(b: seq<Byte>) {
    Magic(b) && b[4] == 2 && b[5] == 1
  }

  /** e_machine is RISC-V, and e_phentsize the size of a program header. */
  predicate ForRiscv(b: seq<Byte>) {
    Elf64(b) && U16(b, 18) == 243 && U16(b, 54) == 56
  }

  /** The table, e_phnum headers from e_phoff on, lies inside the file. */
  predicate HasTable(b: seq<Byte>) {
    ForRiscv(b) && U64At(b, 32) + U16(b, 56) * 56 <= |b|
  }

  /** The codes of the checks before the loop: each means that the checks before it passed and its own did
      not. */
  lemma HeaderCodes(image: Image)
    ensures HeaderStatus(image) == -1 <==> |image| < 64
    ensures HeaderStatus(image) == -2 <==> |image| >= 64 && !Magic(image)
    ensures HeaderStatus(image) == -3 <==> Magic(image) && !Elf64(image)
    ensures HeaderStatus(image) == -4 <==> Elf64(image) && !ForRiscv(image)
    ensures HeaderStatus(image) == -5 <==> ForRiscv(image) && !HasTable(image)
    ensures HeaderStatus(image) == 0 <==> HasTable(image)
  {
    hide Field, U16, U64At;
    FieldIsNumber(image, 18);
    FieldIsNumber(image, 54);
    FieldIsNumber(image, 32);
    FieldIsNumber(image, 56);
    if |image| >= 64 {
      assert image[..16][..4] == [image[0], image[1], image[2], image[3]];
    }
  }

  /** The program header at a place of the file, field by field. */
  function SegmentIn(b: seq<Byte>, at: nat): Segment
    requires at + 56 <= |b|
  {
    Segment(U32(b, at), U32(b, at + 4), U64At(b, at + 8), U64At(b, at + 16),
            U64At(b, at + 24), U64At(b, at + 32), U64At(b, at + 40), U64At(b, at + 48))
  }

  /** Its e_phnum program headers. */
  function TableIn(b: seq<Byte>): (r: seq<Segment>)
    requires HasTable(b)
    ensures |r| == U16(b, 56)
  {
    seq(U16(b, 56), i requires 0 <= i < U16(b, 56) => SegmentIn(b, U64At(b, 32) + 56 * i))
  }

  /** The loader's table is that one, and its entry is e_entry. */
  lemma TableIsInFile(image: Image)
    requires HasTable(image)
    ensures |image| >= 64
    ensures HeaderStatus(image) == 0 && Table(image) == TableIn(image) && HeaderOf(image).entry == U64At(image, 24)
  {
    hide Field, U16, U32, U64At, HeaderStatus;
    HeaderCodes(image);
    FieldIsNumber(image, 24);
    FieldIsNumber(image, 32);
    FieldIsNumber(image, 56);
    forall i | 0 <= i < U16(image, 56)
      ensures SegmentAt(image, U64At(image, 32) + i * PHDR_SIZE) == SegmentIn(image, U64At(image, 32) + 56 * i)
    {
      SegmentIsNumbers(image, U64At(image, 32) + 56 * i);
    }
  }

  lemma SegmentIsNumbers(b: seq<Byte>, at: nat)
    requires at + 56 <= |b|
    ensures SegmentAt(b, at) == SegmentIn(b, at)
  {
    hide Field, U32, U64At;
    FieldIsNumber(b, at);
    FieldIsNumber(b, at + 4);
    FieldIsNumber(b, at + 8);
    FieldIsNumber(b, at + 16);
    FieldIsNumber(b, at + 24);
    FieldIsNumber(b, at + 32);
    FieldIsNumber(b, at + 40);
    FieldIsNumber(b, at + 48);
  }

  // ------------------------------------------------------------------ the whole decision

  /** Every program header is sound, and the entry lies between the start of one PT_LOAD and the end of
      one. */
  ghost predicate Loadable(ss: seq<Segment>, size: nat, entry: nat) {
    && (forall i | 0 <= i < |ss| :: Sound(ss[i], size))
    && (exists i :: 0 <= i < |ss| && ss[i].kind == 1 && Start(ss[i]) <= entry)
    && (exists i :: 0 <= i < |ss| && ss[i].kind == 1 && entry < Start(ss[i]) + ss[i].memsz)
  }

  /** Header k is the first that is not sound. */
  predicate FirstUnsound(ss: seq<Segment>, size: nat, k: nat) {
    k < |ss| && !Sound(ss[k], size) && forall j | 0 <= j < k :: Sound(ss[j], size)
  }

  lemma SoundIsAccepted(s: Segment, size: nat)
    ensures Sound(s, size) <==> Accepted(s, size)
    ensures FromFile(s, size) <==> FileFits(s, size)
  {
  }

  lemma FirstBadIsUnsound(ss: seq<Segment>, size: nat)
    ensures var k := FirstBad(ss, size);
            if k < |ss| then FirstUnsound(ss, size, k) else forall j | 0 <= j < |ss| :: Sound(ss[j], size)
  {
    hide Sound, Accepted;
    forall j | 0 <= j < |ss| ensures Sound(ss[j], size) <==> Accepted(ss[j], size) {
      SoundIsAccepted(ss[j], size);
    }
  }

  /** The status of a file that has a table. */
  lemma StatusOfTable(image: Image)
    requires HasTable(image)
    ensures var ss := TableIn(image); var k := FirstBad(ss, |image|);
            Status(image) == if k < |ss| then (if !FromFile(ss[k], |image|) then -6 else -7)
                             else if Loadable(ss, |image|, U64At(image, 24)) then 0 else -8
  {
    hide Sound, Accepted, U64At, U16, Lowest, Highest, AnyLoad, HeaderOf, Table, TableIn, HasTable, Loadable,
         FileFits, FromFile, HeaderStatus;
    TableIsInFile(image);
    var ss := TableIn(image);
    FirstBadIsUnsound(ss, |image|);
    if FirstBad(ss, |image|) == |ss| {
      HullDecides(ss, |image|, U64At(image, 24));
    } else {
      SoundIsAccepted(ss[FirstBad(ss, |image|)], |image|);
    }
  }

  /** Status 0 for exactly the files that have a table and are loadable. */
  lemma AcceptedIff(image: Image)
    ensures Status(image) == 0 <==> HasTable(image) && Loadable(TableIn(image), |image|, U64At(image, 24))
  {
    hide Sound, U64At, TableIn, HasTable, Loadable, FromFile, HeaderStatus, Status, FirstBad;
    HeaderCodes(image);
    if HasTable(image) {
      StatusOfTable(image);
      var ss := TableIn(image);
      FirstBadIsUnsound(ss, |image|);
      if FirstBad(ss, |image|) < |ss| {
        UnsoundIsNotLoadable(ss, |image|, U64At(image, 24), FirstBad(ss, |image|));
      }
    } else {
      StatusWithoutTable(image);
    }
  }

  lemma StatusWithoutTable(image: Image)
    requires HeaderStatus(image) != 0
    ensures Status(image) == HeaderStatus(image)
  {
    hide HeaderStatus;
  }

  lemma UnsoundIsNotLoadable(ss: seq<Segment>, size: nat, entry: nat, k: nat)
    requires FirstUnsound(ss, size, k)
    ensures !Loadable(ss, size, entry)
  {
    hide Sound, Start;
  }

  lemma HullDecides(ss: seq<Segment>, size: nat, entry: nat)
    requires forall j | 0 <= j < |ss| :: Sound(ss[j], size)
    ensures Loadable(ss, size, entry) <==> AnyLoad(ss) && Lowest(ss) <= entry < Highest(ss)
  {
    hide Sound, Accepted, Lowest, Highest, AnyLoad, Start, Dest;
    forall j | 0 <= j < |ss|
      ensures Accepted(ss[j], size) && Start(ss[j]) == Dest(ss[j]) && (IsLoad(ss[j]) <==> ss[j].kind == 1)
    {
      SoundIsAccepted(ss[j], size);
      StartIsDest(ss[j]);
    }
    HullIsExact(ss, size);
  }

  lemma StartIsDest(s: Segment)
    ensures Start(s) == Dest(s)
  {
  }

  /** The codes of the loop and of the last check, for files that have a table: -6 and -7 for the first
      header that is not sound, by what is wrong with it, and -8 if all are sound but the entry is out. */
  lemma RefusalCodes(image: Image)
    ensures !HasTable(image) ==> Status(image) == HeaderStatus(image) && -5 <= Status(image) <= -1
    ensures HasTable(image) ==>
              var ss := TableIn(image);
              && Status(image) in {0, -6, -7, -8}
              && (Status(image) == -6 <==> exists k: nat :: FirstUnsound(ss, |image|, k) && !FromFile(ss[k], |image|))
              && (Status(image) == -7 <==> exists k: nat :: FirstUnsound(ss, |image|, k) && FromFile(ss[k], |image|))
  {
    hide Sound, U64At, TableIn, HasTable, Loadable, FromFile, HeaderStatus, Status, FirstBad, FirstUnsound;
    HeaderCodes(image);
    if HasTable(image) {
      StatusOfTable(image);
      var ss := TableIn(image);
      FirstBadIsUnsound(ss, |image|);
      forall k: nat | FirstUnsound(ss, |image|, k) ensures k == FirstBad(ss, |image|) < |ss| {
        OnlyFirst(ss, |image|, k, FirstBad(ss, |image|));
      }
    } else {
      StatusWithoutTable(image);
    }
  }

  lemma OnlyFirst(ss: seq<Segment>, size: nat, j: nat, k: nat)
    requires FirstUnsound(ss, size, j)
    requires if k < |ss| then FirstUnsound(ss, size, k) else forall i | 0 <= i < |ss| :: Sound(ss[i], size)
    ensures j == k < |ss|
  {
    hide Sound;
  }
}
