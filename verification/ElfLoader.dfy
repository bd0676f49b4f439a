/** The ELF loader of labs 14 and 15: what it accepts, what it leaves in memory for every return code,
    and that it stays inside the user's window. */
module ElfLoader {
  import opened Util
  import opened Memory
  import opened ElfFormat
  import opened ElfRules

  const PT_LOAD: nat := 1
  const EM_RISCV: nat := 243
  const USER_LOAD_MIN: Word := 0x80400000
  const USER_LOAD_MAX: Word := 0x80410000

  // ------------------------------------------------------------------ ranges

  /** range_inside, in unsigned 64-bit arithmetic. */
  predicate RangeInside(start: Word, size: Word, lower: Word, upper: Word) {
    start >= lower && start <= upper && size <= (upper - start) % U64
  }

  /** It is the interval test over the integers, for all words. */
  lemma RangeInsideIsInterval(start: Word, size: Word, lower: Word, upper: Word)
    ensures RangeInside(start, size, lower, upper) <==> lower <= start && start + size <= upper
  {
  }

  // ------------------------------------------------------------------ what a program header means

  predicate IsLoad(s: Segment) {
    s.kind == PT_LOAD
  }

  function Dest(s: Segment): nat {
    if s.paddr != 0 then s.paddr else s.vaddr
  }

  predicate FileFits(s: Segment, size: nat) {
    s.filesz <= s.memsz && s.offset + s.filesz <= size
  }

  predicate InWindow(s: Segment) {
    USER_LOAD_MIN <= Dest(s) && Dest(s) + s.memsz <= USER_LOAD_MAX
  }

  predicate Accepted(s: Segment, size: nat) {
    IsLoad(s) ==> FileFits(s, size) && InWindow(s)
  }

  predicate Covers(s: Segment, a: int) {
    IsLoad(s) && Dest(s) <= a < Dest(s) + s.memsz
  }

  /** The segment's byte for address a: from the file below filesz, zero from there on. */
  function ByteAt(image: Image, s: Segment, a: int): Byte {
    var k := a - Dest(s);
    if 0 <= k < s.filesz && s.offset + k < |image| then image[s.offset + k] else 0
  }

  /** The last of the segments that covers a. */
  function LastCover(ss: seq<Segment>, a: int): (r: Option<nat>)
    ensures r.Some? ==> r.value < |ss|
  {
    if ss == [] then None
    else if Covers(ss[|ss| - 1], a) then Some(|ss| - 1)
    else LastCover(ss[..|ss| - 1], a)
  }

  lemma {:induction false} LastCoverIsLast(ss: seq<Segment>, a: int)
    ensures match LastCover(ss, a)
            case Some(i) => Covers(ss[i], a) && forall j | i < j < |ss| :: !Covers(ss[j], a)
            case None => forall j | 0 <= j < |ss| :: !Covers(ss[j], a)
  {
    if ss != [] && !Covers(ss[|ss| - 1], a) {
      LastCoverIsLast(ss[..|ss| - 1], a);
    }
  }

  /** What memory holds at a once the segments are loaded: the last segment that covers a decides. */
  function Meaning(image: Image, ss: seq<Segment>, m: Mem, a: int): Byte {
    match LastCover(ss, a)
    case Some(i) => ByteAt(image, ss[i], a)
    case None => Peek(m, a)
  }

  lemma MeaningStep(image: Image, ss: seq<Segment>, s: Segment, m: Mem, a: int)
    ensures Meaning(image, ss + [s], m, a) ==
            if Covers(s, a) then ByteAt(image, s, a) else Meaning(image, ss, m, a)
  {
    hide Covers, ByteAt;
    assert (ss + [s])[..|ss|] == ss;
  }

  // ------------------------------------------------------------------ which file is accepted

  /** The checks before the loop. */
  function HeaderStatus(image: Image): int {
    if |image| < EHDR_SIZE then -1
    else
      var h := HeaderOf(image);
      if h.ident[..4] != [0x7f, 0x45, 0x4c, 0x46] then -2
      else if h.ident[4] != 2 || h.ident[5] != 1 then -3
      else if h.machine != EM_RISCV || h.phentsize != PHDR_SIZE then -4
      else if h.phoff + h.phnum * PHDR_SIZE > |image| then -5
      else 0
  }

  /** The program headers of a file that passes them. */
  function Table(image: Image): seq<Segment>
    requires HeaderStatus(image) == 0
  {
    Segments(image, HeaderOf(image).phoff, HeaderOf(image).phnum)
  }

  /** The first segment that is refused, or the number of segments. */
  function FirstBad(ss: seq<Segment>, size: nat): (k: nat)
    ensures k <= |ss|
    ensures forall i | 0 <= i < k :: Accepted(ss[i], size)
    ensures k < |ss| ==> !Accepted(ss[k], size)
  {
    if ss == [] || !Accepted(ss[0], size) then 0 else 1 + FirstBad(ss[1..], size)
  }

  predicate AnyLoad(ss: seq<Segment>) {
    ss != [] && (IsLoad(ss[|ss| - 1]) || AnyLoad(ss[..|ss| - 1]))
  }

  /** segment_start and segment_end. */
  function Lowest(ss: seq<Segment>): nat {
    if ss == [] then USER_LOAD_MAX
    else
      var l := Lowest(ss[..|ss| - 1]);
      var s := ss[|ss| - 1];
      if IsLoad(s) && Dest(s) < l then Dest(s) else l
  }

  function Highest(ss: seq<Segment>): nat {
    if ss == [] then USER_LOAD_MIN
    else
      var h := Highest(ss[..|ss| - 1]);
      var s := ss[|ss| - 1];
      if IsLoad(s) && Dest(s) + s.memsz > h then Dest(s) + s.memsz else h
  }

  function Status(image: Image): int {
    if HeaderStatus(image) != 0 then HeaderStatus(image)
    else
      var ss := Table(image);
      var k := FirstBad(ss, |image|);
      var entry := HeaderOf(image).entry;
      if k < |ss| then (if !FileFits(ss[k], |image|) then -6 else -7)
      else if !AnyLoad(ss) || entry < Lowest(ss) || entry >= Highest(ss) then -8
      else 0
  }

  /** The segments that are loaded before the loader returns, whatever it returns. */
  function Loaded(image: Image): seq<Segment> {
    if HeaderStatus(image) != 0 then []
    else Table(image)[..FirstBad(Table(image), |image|)]
  }

  // ------------------------------------------------------------------ properties of the meaning

  /** Nothing outside the window changes, on any return code: not even when a later segment is refused
      after earlier ones were copied. */
  lemma Confined(image: Image, m: Mem, a: int)
    requires a < USER_LOAD_MIN || a >= USER_LOAD_MAX
    ensures Meaning(image, Loaded(image), m, a) == Peek(m, a)
  {
    hide ByteAt, Loaded;
    LastCoverIsLast(Loaded(image), a);
    AllOfLoaded(image);
    assert forall s | s in Loaded(image) && IsLoad(s) :: InWindow(s);
  }

  /** A successful load: every byte that a segment covers is what the last such segment says, which is the
      file's byte at p_offset plus the distance, or zero from p_filesz on; every other byte is what it was;
      and this covers all segments of the file. */
  lemma SuccessLoadsAll(image: Image, m: Mem, a: int)
    requires Status(image) == 0
    ensures HeaderStatus(image) == 0 && Loaded(image) == Table(image)
    ensures forall i | 0 <= i < |Table(image)| && Covers(Table(image)[i], a) &&
                       (forall j | i < j < |Table(image)| :: !Covers(Table(image)[j], a)) ::
              Meaning(image, Loaded(image), m, a) == ByteAt(image, Table(image)[i], a)
    ensures forall i: nat | LastSpan(Table(image), i, a) ::
              var s := Table(image)[i]; var k := a - Start(s);
              if k < s.filesz then s.offset + k < |image| && Meaning(image, Loaded(image), m, a) == image[s.offset + k]
              else Meaning(image, Loaded(image), m, a) == 0
    ensures (forall i | 0 <= i < |Table(image)| :: !Covers(Table(image)[i], a)) ==>
              Meaning(image, Loaded(image), m, a) == Peek(m, a)
  {
    hide ByteAt, Table, Covers, FileFits, InWindow, LastSpan, Status, AllAccepted, Meaning;
    StatusCases(image);
    AllOfLoaded(image);
    forall i: nat | LastSpan(Table(image), i, a)
      ensures i < |Table(image)| && Start(Table(image)[i]) <= a
      ensures var s := Table(image)[i]; var k := a - Start(s);
              if k < s.filesz then s.offset + k < |image| && Meaning(image, Loaded(image), m, a) == image[s.offset + k]
              else Meaning(image, Loaded(image), m, a) == 0
    {
      InTable(Table(image), i, a);
      SpanDecides(image, Table(image), m, i, a);
    }
    ByCover(image, Table(image), m, a);
  }

  lemma ByCover(image: Image, ss: seq<Segment>, m: Mem, a: int)
    ensures forall i | 0 <= i < |ss| && Covers(ss[i], a) && (forall j | i < j < |ss| :: !Covers(ss[j], a)) ::
              Meaning(image, ss, m, a) == ByteAt(image, ss[i], a)
    ensures (forall i | 0 <= i < |ss| :: !Covers(ss[i], a)) ==> Meaning(image, ss, m, a) == Peek(m, a)
  {
    hide ByteAt, Covers;
    LastCoverIsLast(ss, a);
  }

  /** In the numbers of the program headers: the segment that decides a byte of an accepted table. */
  lemma SpanDecides(image: Image, ss: seq<Segment>, m: Mem, i: nat, a: int)
    requires AllAccepted(ss, |image|) && LastSpan(ss, i, a)
    ensures var k := a - Start(ss[i]);
            if k < ss[i].filesz then ss[i].offset + k < |image| && Meaning(image, ss, m, a) == image[ss[i].offset + k]
            else Meaning(image, ss, m, a) == 0
  {
    hide LastCover;
    SpansAreCovers(ss, a);
    LastCoverIsLast(ss, a);
    assert Accepted(ss[i], |image|);
  }

  lemma SpansAreCovers(ss: seq<Segment>, a: int)
    ensures forall i | 0 <= i < |ss| :: Spans(ss[i], a) <==> Covers(ss[i], a)
  {
  }

  lemma InTable(ss: seq<Segment>, i: nat, a: int)
    requires LastSpan(ss, i, a)
    ensures i < |ss| && Start(ss[i]) <= a
  {
  }

  /** Memory that means the loaded segments is loaded from them, in the reference's terms. */
  lemma MeaningIsLoaded(image: Image, ss: seq<Segment>, m: Mem, n: Mem)
    requires AllAccepted(ss, |image|) && forall a: int :: Peek(n, a) == Meaning(image, ss, m, a)
    ensures LoadedFrom(image, ss, m, n)
  {
    hide Meaning, LastCover, Peek, LastSpan, Spans, AllAccepted;
    forall i: nat, a: int | LastSpan(ss, i, a)
      ensures i < |ss| && Start(ss[i]) <= a
      ensures var k := a - Start(ss[i]);
              if k < ss[i].filesz then ss[i].offset + k < |image| && Peek(n, a) == image[ss[i].offset + k]
              else Peek(n, a) == 0
    {
      InTable(ss, i, a);
      SpanDecides(image, ss, m, i, a);
    }
    forall a: int | forall i | 0 <= i < |ss| :: !Spans(ss[i], a) ensures Peek(n, a) == Peek(m, a) {
      Unspanned(image, ss, m, a);
    }
  }

  lemma LoadedInReference(image: Image, m: Mem)
    ensures forall n: Mem {:trigger LoadedFrom(image, Loaded(image), m, n)} ::
              (forall a: int :: Peek(n, a) == Meaning(image, Loaded(image), m, a)) ==>
                LoadedFrom(image, Loaded(image), m, n)
  {
    hide Meaning, Peek, Loaded, LoadedFrom, AllAccepted;
    AllOfLoaded(image);
    forall n: Mem | forall a: int :: Peek(n, a) == Meaning(image, Loaded(image), m, a)
      ensures LoadedFrom(image, Loaded(image), m, n)
    {
      MeaningIsLoaded(image, Loaded(image), m, n);
    }
  }

  lemma Unspanned(image: Image, ss: seq<Segment>, m: Mem, a: int)
    requires forall i | 0 <= i < |ss| :: !Spans(ss[i], a)
    ensures Meaning(image, ss, m, a) == Peek(m, a)
  {
    hide LastCover;
    SpansAreCovers(ss, a);
    LastCoverIsLast(ss, a);
  }

  lemma StatusCases(image: Image)
    requires Status(image) == 0
    ensures HeaderStatus(image) == 0 && Loaded(image) == Table(image)
    ensures AnyLoad(Table(image)) && Lowest(Table(image)) <= HeaderOf(image).entry < Highest(Table(image))
  {
    hide Table, AnyLoad, Lowest, Highest;
  }

  ghost predicate AllAccepted(ss: seq<Segment>, size: nat) {
    forall i | 0 <= i < |ss| :: Accepted(ss[i], size)
  }

  /** segment_start and segment_end are the exact minimum and maximum over the loaded segments. */
  lemma {:induction false} HullIsExact(ss: seq<Segment>, size: nat)
    requires AllAccepted(ss, size)
    ensures USER_LOAD_MIN <= Lowest(ss) <= USER_LOAD_MAX && USER_LOAD_MIN <= Highest(ss) <= USER_LOAD_MAX
    ensures forall i | 0 <= i < |ss| && IsLoad(ss[i]) ::
              Lowest(ss) <= Dest(ss[i]) && Dest(ss[i]) + ss[i].memsz <= Highest(ss)
    ensures AnyLoad(ss) <==> exists i :: 0 <= i < |ss| && IsLoad(ss[i])
    ensures AnyLoad(ss) ==> exists i :: 0 <= i < |ss| && IsLoad(ss[i]) && Dest(ss[i]) == Lowest(ss)
    ensures AnyLoad(ss) ==> exists i :: 0 <= i < |ss| && IsLoad(ss[i]) && Dest(ss[i]) + ss[i].memsz == Highest(ss)
  {
    hide IsLoad, Dest;
    if ss != [] {
      var n := |ss| - 1;
      var front := ss[..n];
      HullIsExact(front, size);
      LoadRange(ss[n], size);
      if AnyLoad(front) {
        var i :| 0 <= i < n && IsLoad(front[i]) && Dest(front[i]) == Lowest(front);
        var j :| 0 <= j < n && IsLoad(front[j]) && Dest(front[j]) + front[j].memsz == Highest(front);
        assert front[i] == ss[i] && front[j] == ss[j];
      } else {
        HullOfNone(front, size);
      }
    }
  }

  lemma LoadRange(s: Segment, size: nat)
    requires Accepted(s, size)
    ensures IsLoad(s) ==> USER_LOAD_MIN <= Dest(s) && Dest(s) + s.memsz <= USER_LOAD_MAX
  {
  }

  lemma {:induction false} HullOfNone(ss: seq<Segment>, size: nat)
    requires !AnyLoad(ss)
    ensures Lowest(ss) == USER_LOAD_MAX && Highest(ss) == USER_LOAD_MIN
  {
    if ss != [] {
      HullOfNone(ss[..|ss| - 1], size);
    }
  }

  /** After a success the entry lies between the first and the last loaded segment. */
  lemma EntryInHull(image: Image)
    requires Status(image) == 0
    ensures var ss := Table(image); var entry := HeaderOf(image).entry;
            && USER_LOAD_MIN <= entry < USER_LOAD_MAX
            && (exists i :: 0 <= i < |ss| && IsLoad(ss[i]) && Dest(ss[i]) <= entry)
            && (exists i :: 0 <= i < |ss| && IsLoad(ss[i]) && entry < Dest(ss[i]) + ss[i].memsz)
  {
    hide Table, IsLoad, Dest, Lowest, Highest, AnyLoad, Status, HeaderOf;
    StatusCases(image);
    var ss := Table(image);
    AllOfLoaded(image);
    HullIsExact(ss, |image|);
    var i :| 0 <= i < |ss| && IsLoad(ss[i]) && Dest(ss[i]) == Lowest(ss);
    var j :| 0 <= j < |ss| && IsLoad(ss[j]) && Dest(ss[j]) + ss[j].memsz == Highest(ss);
  }

  lemma AllOfLoaded(image: Image)
    ensures AllAccepted(Loaded(image), |image|)
  {
    hide Accepted, Table;
  }

  // ------------------------------------------------------------------ when the entry is a loaded byte

  ghost predicate Covered(ss: seq<Segment>, a: int) {
    exists i :: 0 <= i < |ss| && Covers(ss[i], a)
  }

  function End(s: Segment): nat {
    Dest(s) + s.memsz
  }

  /** Every PT_LOAD ends where the last one ends or at a byte of another PT_LOAD. */
  ghost predicate NoGaps(ss: seq<Segment>) {
    forall i | 0 <= i < |ss| && IsLoad(ss[i]) :: End(ss[i]) == Highest(ss) || Covered(ss, End(ss[i]))
  }

  /** Of the PT_LOADs that start at or below a, one that reaches furthest. */
  lemma Furthest(ss: seq<Segment>, a: int, k: nat) returns (i: nat)
    requires k < |ss| && IsLoad(ss[k]) && Dest(ss[k]) <= a
    ensures i < |ss| && IsLoad(ss[i]) && Dest(ss[i]) <= a
    ensures forall j | 0 <= j < |ss| && IsLoad(ss[j]) && Dest(ss[j]) <= a :: End(ss[j]) <= End(ss[i])
  {
    hide IsLoad, Dest, End;
    i := k;
    for n := 0 to |ss|
      invariant i < |ss| && IsLoad(ss[i]) && Dest(ss[i]) <= a
      invariant forall j | 0 <= j < n && IsLoad(ss[j]) && Dest(ss[j]) <= a :: End(ss[j]) <= End(ss[i])
    {
      if IsLoad(ss[n]) && Dest(ss[n]) <= a && End(ss[n]) > End(ss[i]) {
        i := n;
      }
    }
  }

  /** Without gaps every address of the hull is covered, ... */
  lemma HullCovered(ss: seq<Segment>, size: nat, a: int)
    requires AllAccepted(ss, size) && AnyLoad(ss) && NoGaps(ss) && Lowest(ss) <= a < Highest(ss)
    ensures Covered(ss, a)
  {
    hide Lowest, Highest, AnyLoad, AllAccepted;
    HullIsExact(ss, size);
    var k :| 0 <= k < |ss| && IsLoad(ss[k]) && Dest(ss[k]) == Lowest(ss);
    var i := Furthest(ss, a, k);
    assert !Covered(ss, End(ss[i])) || End(ss[i]) > a;
    assert Covers(ss[i], a);
  }

  /** ... and with a gap some address of the hull is not: the end of some PT_LOAD. */
  lemma GapUncovered(ss: seq<Segment>, size: nat) returns (a: Word)
    requires AllAccepted(ss, size) && !NoGaps(ss)
    ensures Lowest(ss) <= a < Highest(ss) && !Covered(ss, a)
  {
    hide Lowest, Highest, AnyLoad, AllAccepted, Covered;
    HullIsExact(ss, size);
    var i :| 0 <= i < |ss| && IsLoad(ss[i]) && End(ss[i]) != Highest(ss) && !Covered(ss, End(ss[i]));
    a := End(ss[i]);
  }

  /** The exact condition on the program headers, for every table that the loader accepts: each
      address between segment_start and segment_end is covered iff the table has no gaps. */
  lemma HullCoveredIff(ss: seq<Segment>, size: nat)
    requires AllAccepted(ss, size) && AnyLoad(ss)
    ensures NoGaps(ss) <==> forall a: int | Lowest(ss) <= a < Highest(ss) :: Covered(ss, a)
  {
    hide Lowest, Highest, AnyLoad, AllAccepted, Covered, NoGaps;
    if NoGaps(ss) {
      forall a: int | Lowest(ss) <= a < Highest(ss) ensures Covered(ss, a) {
        HullCovered(ss, size, a);
      }
    } else {
      var a := GapUncovered(ss, size);
    }
  }

  /** Under that condition the entry of an accepted file is a loaded byte. */
  lemma EntryIsLoaded(image: Image)
    requires Status(image) == 0 && NoGaps(Table(image))
    ensures Covered(Table(image), HeaderOf(image).entry)
  {
    hide Table, Lowest, Highest, AnyLoad, Status, HeaderOf, Covered, NoGaps;
    StatusCases(image);
    AllOfLoaded(image);
    HullCovered(Table(image), |image|, HeaderOf(image).entry);
  }

  /** Without it the table of an accepted file admits an entry that is not: every file of that size
      with this table and that entry is accepted. */
  lemma GapAdmitsEntry(image: Image) returns (entry: Word)
    requires Status(image) == 0 && !NoGaps(Table(image))
    ensures HeaderStatus(image) == 0 && !Covered(Table(image), entry)
    ensures forall other: Image | HeaderStatus(other) == 0 && |other| == |image| && Table(other) == Table(image) &&
                                  HeaderOf(other).entry == entry :: Status(other) == 0
  {
    hide Table, Lowest, Highest, AnyLoad, HeaderOf, Covered, NoGaps;
    StatusCases(image);
    AllOfLoaded(image);
    entry := GapUncovered(Table(image), |image|);
  }

  /** The file with its entry field, bytes 24 to 31, replaced. */
  function WithEntry(image: Image, entry: Word): (r: Image)
    requires |image| >= EHDR_SIZE
    ensures |r| == |image|
  {
    image[..24] + Bytes(entry, 8) + image[32..]
  }

  lemma OtherField(image: Image, entry: Word, at: nat, n: nat)
    requires |image| >= EHDR_SIZE && at + n <= |image| && (at + n <= 24 || at >= 32)
    ensures Field(WithEntry(image, entry), at, n) == Field(image, at, n)
  {
    var r := WithEntry(image, entry);
    forall k | at <= k < at + n ensures r[k] == image[k] {
      assert k < 24 || k >= 32;
    }
    assert r[at..at + n] == image[at..at + n];
  }

  lemma EntryField(image: Image, entry: Word)
    requires |image| >= EHDR_SIZE
    ensures Field(WithEntry(image, entry), 24, 8) == entry
  {
    assert WithEntry(image, entry)[24..32] == Bytes(entry, 8);
    WordBytes();
    LeOfBytes(entry, 8);
  }

  lemma HeaderWithEntry(image: Image, entry: Word)
    requires |image| >= EHDR_SIZE
    ensures HeaderOf(WithEntry(image, entry)) == HeaderOf(image).(entry := entry)
  {
    hide Field;
    EntryField(image, entry);
    assert WithEntry(image, entry)[..16] == image[..16];
    OtherField(image, entry, 16, 2);
    OtherField(image, entry, 18, 2);
    OtherField(image, entry, 20, 4);
    OtherField(image, entry, 32, 8);
    OtherField(image, entry, 40, 8);
    OtherField(image, entry, 48, 4);
    OtherField(image, entry, 52, 2);
    OtherField(image, entry, 54, 2);
    OtherField(image, entry, 56, 2);
    OtherField(image, entry, 58, 2);
    OtherField(image, entry, 60, 2);
    OtherField(image, entry, 62, 2);
  }

  lemma SegmentWithEntry(image: Image, entry: Word, at: nat)
    requires |image| >= EHDR_SIZE && 32 <= at && at + PHDR_SIZE <= |image|
    ensures SegmentAt(WithEntry(image, entry), at) == SegmentAt(image, at)
  {
    hide Field, WithEntry;
    OtherField(image, entry, at, 4);
    OtherField(image, entry, at + 4, 4);
    OtherField(image, entry, at + 8, 8);
    OtherField(image, entry, at + 16, 8);
    OtherField(image, entry, at + 24, 8);
    OtherField(image, entry, at + 32, 8);
    OtherField(image, entry, at + 40, 8);
    OtherField(image, entry, at + 48, 8);
  }

  lemma TableWithEntry(image: Image, entry: Word)
    requires HeaderStatus(image) == 0 && HeaderOf(image).phoff >= 32
    ensures HeaderStatus(WithEntry(image, entry)) == 0 && Table(WithEntry(image, entry)) == Table(image)
  {
    hide WithEntry, SegmentAt, HeaderOf;
    HeaderWithEntry(image, entry);
    var h := HeaderOf(image);
    forall i | 0 <= i < h.phnum
      ensures SegmentAt(WithEntry(image, entry), h.phoff + i * PHDR_SIZE) == SegmentAt(image, h.phoff + i * PHDR_SIZE)
    {
      SegmentWithEntry(image, entry, h.phoff + i * PHDR_SIZE);
    }
  }

  /** Such a file exists whenever the table does not overlap the entry field: an accepted file whose
      table has a gap becomes, by another entry, an accepted file whose entry is not loaded. */
  lemma GapIsReached(image: Image) returns (other: Image)
    requires Status(image) == 0 && !NoGaps(Table(image)) && HeaderOf(image).phoff >= 32
    ensures Status(other) == 0 && |other| == |image| && HeaderStatus(other) == 0
    ensures HeaderStatus(image) == 0 && Table(other) == Table(image)
    ensures !Covered(Table(other), HeaderOf(other).entry)
  {
    hide Table, Lowest, Highest, AnyLoad, HeaderOf, Covered, NoGaps, WithEntry, HeaderStatus, Status;
    StatusCases(image);
    var entry := GapAdmitsEntry(image);
    TableWithEntry(image, entry);
    HeaderSize(image);
    HeaderWithEntry(image, entry);
    other := WithEntry(image, entry);
  }

  lemma HeaderSize(image: Image)
    requires HeaderStatus(image) == 0
    ensures |image| >= EHDR_SIZE
  {
  }

  // ------------------------------------------------------------------ files that are written well

  /** A file with the given headers, its table right behind the file header. */
  function FileOf(h: Header, ss: seq<Segment>, data: seq<Byte>): seq<Byte> {
    EncodeHeader(h) + EncodeSegments(ss) + data
  }

  /** The header of an ELF64 file for RISC-V with this table. */
  ghost predicate WellFormed(h: Header, ss: seq<Segment>) {
    && |h.ident| == 16 && h.ident[..4] == [0x7f, 0x45, 0x4c, 0x46] && h.ident[4] == 2 && h.ident[5] == 1
    && h.machine == EM_RISCV && h.phentsize == PHDR_SIZE && h.phoff == EHDR_SIZE && h.phnum == |ss|
    && AllFit(HeaderNums(h)) && forall s | s in ss :: AllFit(SegmentNums(s))
  }

  /** The loader sees in a well-formed file the very segments that were written, and it accepts the
      file exactly if each PT_LOAD fits the file and the window, there is one, and the entry lies in
      their hull. */
  lemma WrittenFileLoads(h: Header, ss: seq<Segment>, data: seq<Byte>)
    requires WellFormed(h, ss) && |FileOf(h, ss, data)| < U64
    ensures var image := FileOf(h, ss, data);
            && HeaderStatus(image) == 0 && Table(image) == ss
            && (Status(image) == 0 <==>
                  AllAccepted(ss, |image|) && AnyLoad(ss) && Lowest(ss) <= h.entry < Highest(ss))
  {
    hide HeaderOf, EncodeHeader, EncodeSegments, AllFit, Segments, AnyLoad, Lowest, Highest, Accepted;
    var image: Image := FileOf(h, ss, data);
    assert image == EncodeHeader(h) + (EncodeSegments(ss) + data);
    HeaderRoundTrip(h, EncodeSegments(ss) + data);
    SegmentsRoundTrip(EncodeHeader(h), ss, data);
    assert HeaderOf(image) == h;
    assert HeaderStatus(image) == 0;
    assert Table(image) == ss;
  }

  /** For files that are written well the condition is the exact one: the table has no gaps iff every
      entry with which the loader accepts the file is a loaded byte. */
  lemma EntryLoadedIff(h: Header, ss: seq<Segment>, data: seq<Byte>)
    requires WellFormed(h, ss) && |FileOf(h, ss, data)| < U64
    requires AllAccepted(ss, |FileOf(h, ss, data)|) && AnyLoad(ss)
    ensures forall entry: Word :: |FileOf(h.(entry := entry), ss, data)| == |FileOf(h, ss, data)|
    ensures NoGaps(ss) <==>
            forall entry: Word | Status(FileOf(h.(entry := entry), ss, data)) == 0 :: Covered(ss, entry)
  {
    hide Lowest, Highest, AnyLoad, AllAccepted, Covered, NoGaps, FileOf, WellFormed, Status, Table;
    forall entry: Word
      ensures |FileOf(h.(entry := entry), ss, data)| == |FileOf(h, ss, data)|
      ensures Status(FileOf(h.(entry := entry), ss, data)) == 0 <==> Lowest(ss) <= entry < Highest(ss)
    {
      OtherEntry(h, ss, data, entry);
      WrittenFileLoads(h.(entry := entry), ss, data);
    }
    if NoGaps(ss) {
      forall entry: Word | Lowest(ss) <= entry < Highest(ss) ensures Covered(ss, entry) {
        HullCovered(ss, |FileOf(h, ss, data)|, entry);
      }
    } else {
      var entry := GapUncovered(ss, |FileOf(h, ss, data)|);
    }
  }

  /** Another entry makes a well-formed file of the same size. */
  lemma OtherEntry(h: Header, ss: seq<Segment>, data: seq<Byte>, entry: Word)
    requires WellFormed(h, ss)
    ensures WellFormed(h.(entry := entry), ss)
    ensures |FileOf(h.(entry := entry), ss, data)| == |FileOf(h, ss, data)|
  {
    hide EncodeHeader, EncodeSegments, SegmentNums, Fits, HeaderNums;
    EntryFits(h, entry);
    HeaderRoundTrip(h, []);
    HeaderRoundTrip(h.(entry := entry), []);
  }

  lemma EntryFits(h: Header, entry: Word)
    requires AllFit(HeaderNums(h))
    ensures AllFit(HeaderNums(h.(entry := entry)))
  {
    hide Pow256;
    WordBytes();
    var ns, ms := HeaderNums(h), HeaderNums(h.(entry := entry));
    forall n | n in ms ensures Fits(n) {
      assert n == Num(entry, 8) || n in ns;
    }
  }

  // ------------------------------------------------------------------ the entry may be a gap

  const GAP_HEADER: Header := Header(
    [0x7f, 0x45, 0x4c, 0x46, 2, 1, 1, 0, 0, 0, 0, 0, 0, 0, 0, 0],
    2, 243, 1, 0x80400080, 64, 0, 0, 64, 56, 2, 0, 0, 0)

  const GAP_SEGMENTS: seq<Segment> := [
    Segment(1, 5, 0, 0x80400000, 0x80400000, 0, 1, 1),
    Segment(1, 5, 0, 0x80400100, 0x80400100, 0, 1, 1)
  ]

  lemma GapFits()
    ensures WellFormed(GAP_HEADER, GAP_SEGMENTS)
  {
    hide Pow256;
    WordBytes();
    HalfBytes();
  }

  lemma HalfBytes()
    ensures Pow256(2) == 0x1_0000 && Pow256(4) == 0x1_0000_0000
  {
  }

  /** Being inside the hull does not make the entry a loaded byte: a file with two one-byte segments
      and its entry between them is accepted. */
  lemma EntryNeedNotBeLoaded() returns (image: Image)
    ensures Status(image) == 0 && HeaderStatus(image) == 0
    ensures forall i | 0 <= i < |Table(image)| :: !Covers(Table(image)[i], HeaderOf(image).entry)
  {
    hide HeaderOf, EncodeHeader, EncodeSegments, WellFormed, Segments, Status;
    GapFits();
    var none: seq<Byte> := [];
    GapSize();
    WrittenFileLoads(GAP_HEADER, GAP_SEGMENTS, none);
    GapAccepted();
    image := FileOf(GAP_HEADER, GAP_SEGMENTS, none);
    assert image == EncodeHeader(GAP_HEADER) + EncodeSegments(GAP_SEGMENTS);
    GapEntry();
  }

  lemma GapSize()
    ensures |FileOf(GAP_HEADER, GAP_SEGMENTS, [])| == 176
  {
    hide EncodeHeader, EncodeSegments, AllFit;
    GapFits();
    HeaderRoundTrip(GAP_HEADER, []);
    SegmentsRoundTrip([], GAP_SEGMENTS, []);
  }

  lemma GapEntry()
    ensures HeaderOf(EncodeHeader(GAP_HEADER) + EncodeSegments(GAP_SEGMENTS)) == GAP_HEADER
  {
    hide HeaderOf, EncodeHeader, EncodeSegments, AllFit;
    GapFits();
    HeaderRoundTrip(GAP_HEADER, EncodeSegments(GAP_SEGMENTS));
  }

  /** One more segment at the end of a table. */
  lemma HullOfMore(ss: seq<Segment>, s: Segment)
    requires IsLoad(s)
    ensures AnyLoad(ss + [s])
    ensures Lowest(ss + [s]) == if Dest(s) < Lowest(ss) then Dest(s) else Lowest(ss)
    ensures Highest(ss + [s]) == if End(s) > Highest(ss) then End(s) else Highest(ss)
  {
    assert (ss + [s])[..|ss|] == ss;
  }

  lemma GapAccepted()
    ensures FirstBad(GAP_SEGMENTS, 176) == 2 && AnyLoad(GAP_SEGMENTS)
    ensures Lowest(GAP_SEGMENTS) == 0x80400000 && Highest(GAP_SEGMENTS) == 0x80400101
  {
    hide FirstBad, Lowest, Highest, AnyLoad;
    var s := GAP_SEGMENTS;
    var none: seq<Segment> := [];
    HullOfMore(none, s[0]);
    HullOfMore([s[0]], s[1]);
    HullOfNothing();
    assert none + [s[0]] == [s[0]] && [s[0]] + [s[1]] == s;
    forall i | 0 <= i < 2 ensures Accepted(s[..2][i], 176) {
    }
    FirstBadIs(s, 176, 2);
  }

  lemma HullOfNothing()
    ensures Lowest([]) == USER_LOAD_MAX && Highest([]) == USER_LOAD_MIN
  {
  }

  // ------------------------------------------------------------------ the code itself

  /** Memory and struct loaded_user. */
  class Loader {
    var mem: Mem
    var entry: Word
    var segmentStart: Word
    var segmentEnd: Word

    constructor (m: Mem)
      ensures mem == m
    {
      mem, entry, segmentStart, segmentEnd := m, 0, 0, 0;
    }

    method CopyBytes(dst: Word, image: Image, src: Word, count: Word)
      requires dst + count < U64 && src + count <= |image|
      modifies this`mem
      ensures forall a: int ::
                Peek(mem, a) == if dst <= a < dst + count then image[src + (a - dst)] else Peek(old(mem), a)
    {
      var to, from, left := dst, src, count;
      while left != 0
        invariant 0 <= left <= count && to == dst + (count - left) && from == src + (count - left)
        invariant forall a: int :: Peek(mem, a) == if dst <= a < to then image[src + (a - dst)] else Peek(old(mem), a)
      {
        ghost var before := mem;
        mem := mem[to := image[from]];
        assert forall a: int :: Peek(mem, a) == if a == to then image[from] else Peek(before, a);
        to, from, left := to + 1, from + 1, left - 1;
      }
    }

    method ZeroBytes(dst: Word, count: Word)
      requires dst + count < U64
      modifies this`mem
      ensures forall a: int :: Peek(mem, a) == if dst <= a < dst + count then 0 else Peek(old(mem), a)
    {
      var to, left := dst, count;
      while left != 0
        invariant 0 <= left <= count && to == dst + (count - left)
        invariant forall a: int :: Peek(mem, a) == if dst <= a < to then 0 else Peek(old(mem), a)
      {
        mem := mem[to := 0];
        to, left := to + 1, left - 1;
      }
    }

    /** The body of the loop for a PT_LOAD that passes the checks. */
    method LoadSegment(image: Image, s: Segment)
      requires IsLoad(s) && Accepted(s, |image|)
      modifies this`mem
      ensures forall a: int :: Peek(mem, a) == if Covers(s, a) then ByteAt(image, s, a) else Peek(old(mem), a)
      ensures s.offset + s.filesz <= |image|
      ensures forall a: int | Start(s) <= a < Start(s) + s.filesz ::
                Peek(mem, a) == image[s.offset + (a - Start(s))]
      ensures forall a: int | Start(s) + s.filesz <= a < Start(s) + s.memsz :: Peek(mem, a) == 0
      ensures forall a: int | a < Start(s) || a >= Start(s) + s.memsz :: Peek(mem, a) == Peek(old(mem), a)
    {
      var destination: Word := Dest(s);
      CopyBytes(destination, image, s.offset, s.filesz);
      ZeroBytes(destination + s.filesz, s.memsz - s.filesz);
    }

    /** The checks of load_user_elf before its loop. */
    method CheckHeader(image: Image) returns (status: int)
      ensures status == HeaderStatus(image)
      ensures status == 0 ==>
                |image| >= EHDR_SIZE && HeaderOf(image).phentsize == PHDR_SIZE &&
                HeaderOf(image).phoff + HeaderOf(image).phnum * PHDR_SIZE <= |image|
    {
      hide Field;
      if |image| < EHDR_SIZE {
        return -1;
      }
      var header := HeaderOf(image);
      HeaderFits(image);
      if header.ident[0] != 0x7f || header.ident[1] != 0x45 || header.ident[2] != 0x4c || header.ident[3] != 0x46 {
        assert header.ident[..4] != [0x7f, 0x45, 0x4c, 0x46];
        return -2;
      }
      assert header.ident[..4] == [0x7f, 0x45, 0x4c, 0x46];
      if header.ident[4] != 2 || header.ident[5] != 1 {
        return -3;
      }
      if header.machine != EM_RISCV || header.phentsize != PHDR_SIZE {
        return -4;
      }
      RangeInsideIsInterval(header.phoff, header.phnum * header.phentsize, 0, |image|);
      if !RangeInside(header.phoff, header.phnum * header.phentsize, 0, |image|) {
        return -5;
      }
      return 0;
    }

    /** load_user_elf: the return code for every file; and for every return code the memory and the
        result. */
    method LoadUserElf(image: Image) returns (status: int)
      modifies this
      ensures status == Status(image)
      ensures forall a: int :: Peek(mem, a) == Meaning(image, Loaded(image), old(mem), a)
      ensures LoadedFrom(image, Loaded(image), old(mem), mem)
      ensures HeaderStatus(image) != 0 ==>
                entry == old(entry) && segmentStart == old(segmentStart) && segmentEnd == old(segmentEnd)
      ensures HeaderStatus(image) == 0 ==>
                && entry == HeaderOf(image).entry
                && segmentStart == Lowest(Loaded(image)) && segmentEnd == Highest(Loaded(image))
    {
      hide Meaning, ByteAt, Lowest, Highest, AnyLoad, LastCover, SegmentAt, HeaderOf, Covers, HeaderStatus,
           LoadedFrom, Spans, Start, Peek;
      LoadedInReference(image, mem);
      NothingLoaded(image, mem);
      status := CheckHeader(image);
      if status != 0 {
        return;
      }
      var header := HeaderOf(image);
      HeaderFits(image);

      ghost var ss := Table(image);
      entry, segmentStart, segmentEnd := header.entry, USER_LOAD_MAX, USER_LOAD_MIN;
      var loaded := false;
      var i := 0;
      EmptyHull(ss);
      while i < header.phnum
        invariant i <= header.phnum == |ss| && AllAccepted(ss[..i], |image|)
        invariant forall a: int :: Peek(mem, a) == Meaning(image, ss[..i], old(mem), a)
        invariant entry == header.entry && loaded == AnyLoad(ss[..i])
        invariant segmentStart == Lowest(ss[..i]) && segmentEnd == Highest(ss[..i])
      {
        var program := SegmentAt(image, header.phoff + i * header.phentsize);
        assert program == ss[i];
        SegmentFits(image, header.phoff + i * header.phentsize);
        OneMore(image, ss, i, old(mem));
        i := i + 1;
        if program.kind == PT_LOAD {
          RangeInsideIsInterval(program.offset, program.filesz, 0, |image|);
          if program.filesz > program.memsz || !RangeInside(program.offset, program.filesz, 0, |image|) {
            FirstBadIs(ss, |image|, i - 1);
            return -6;
          }
          var destination := if program.paddr != 0 then program.paddr else program.vaddr;
          RangeInsideIsInterval(destination, program.memsz, USER_LOAD_MIN, USER_LOAD_MAX);
          if !RangeInside(destination, program.memsz, USER_LOAD_MIN, USER_LOAD_MAX) {
            FirstBadIs(ss, |image|, i - 1);
            return -7;
          }
          LoadSegment(image, program);
          if destination < segmentStart {
            segmentStart := destination;
          }
          if destination + program.memsz > segmentEnd {
            segmentEnd := destination + program.memsz;
          }
          loaded := true;
        }
      }
      assert ss[..|ss|] == ss;
      FirstBadIs(ss, |image|, |ss|);
      if !loaded || entry < segmentStart || entry >= segmentEnd {
        return -8;
      }
      return 0;
    }
  }

  lemma NothingLoaded(image: Image, m: Mem)
    ensures HeaderStatus(image) != 0 ==> forall a: int :: Meaning(image, Loaded(image), m, a) == Peek(m, a)
    ensures forall a: int :: Meaning(image, [], m, a) == Peek(m, a)
  {
    hide HeaderStatus, Table;
  }

  lemma EmptyHull(ss: seq<Segment>)
    ensures ss[..0] == [] && !AnyLoad(ss[..0]) && Lowest(ss[..0]) == USER_LOAD_MAX && Highest(ss[..0]) == USER_LOAD_MIN
  {
  }

  lemma HeaderFits(image: Image)
    requires |image| >= EHDR_SIZE
    ensures var h := HeaderOf(image);
            h.entry < U64 && h.phoff < U64 && h.phnum < 0x1_0000 && h.phentsize < 0x1_0000
  {
    hide Field;
    FieldsFit(image, 24);
    FieldsFit(image, 32);
    FieldsFit(image, 54);
    FieldsFit(image, 56);
  }

  lemma SegmentFits(image: Image, at: nat)
    requires at + PHDR_SIZE <= |image|
    ensures var s := SegmentAt(image, at);
            s.offset < U64 && s.vaddr < U64 && s.paddr < U64 && s.filesz < U64 && s.memsz < U64
  {
    hide Field;
    FieldsFit(image, at + 8);
    FieldsFit(image, at + 16);
    FieldsFit(image, at + 24);
    FieldsFit(image, at + 32);
    FieldsFit(image, at + 40);
  }

  /** What one more segment adds. */
  lemma OneMore(image: Image, ss: seq<Segment>, i: nat, m: Mem)
    requires i < |ss|
    ensures ss[..i + 1] == ss[..i] + [ss[i]]
    ensures forall a: int :: Meaning(image, ss[..i + 1], m, a) ==
                        if Covers(ss[i], a) then ByteAt(image, ss[i], a) else Meaning(image, ss[..i], m, a)
    ensures AnyLoad(ss[..i + 1]) == (IsLoad(ss[i]) || AnyLoad(ss[..i]))
    ensures Lowest(ss[..i + 1]) ==
            if IsLoad(ss[i]) && Dest(ss[i]) < Lowest(ss[..i]) then Dest(ss[i]) else Lowest(ss[..i])
    ensures Highest(ss[..i + 1]) ==
            if IsLoad(ss[i]) && Dest(ss[i]) + ss[i].memsz > Highest(ss[..i]) then Dest(ss[i]) + ss[i].memsz
            else Highest(ss[..i])
    ensures !IsLoad(ss[i]) ==> forall a: int :: !Covers(ss[i], a)
  {
    hide Meaning, ByteAt;
    assert ss[..i + 1] == ss[..i] + [ss[i]];
    assert (ss[..i + 1])[..i] == ss[..i];
    forall a: int ensures Meaning(image, ss[..i + 1], m, a) ==
                        if Covers(ss[i], a) then ByteAt(image, ss[i], a) else Meaning(image, ss[..i], m, a) {
      MeaningStep(image, ss[..i], ss[i], m, a);
    }
  }

  lemma {:induction false} FirstBadIs(ss: seq<Segment>, size: nat, k: nat)
    requires k <= |ss| && AllAccepted(ss[..k], size) && (k < |ss| ==> !Accepted(ss[k], size))
    ensures FirstBad(ss, size) == k
  {
    hide Accepted, FirstBad;
    forall i | 0 <= i < k ensures Accepted(ss[i], size) {
      assert ss[..k][i] == ss[i];
    }
  }
}
