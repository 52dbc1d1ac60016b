/** The image that an ELF file describes, page by page. */
module ElfSpec {
  import opened Words

  type Byte = bv8

  // ---------- Pages ----------

  function PageOf(x: nat, page: nat): nat
    requires page > 0
  {
    x / page
  }

  /** The pages that the bytes below `x` take up. */
  function Pages(x: nat, page: nat): nat
    requires page > 0
  {
    (x + page - 1) / page
  }

  /** `Utils::RoundUp` on words. */
  function RoundUp(x: int, page: nat): Word
    requires page > 0
  {
    var sum := Wrap(x + page - 1);
    sum - sum % page
  }

  /** Where a page starts. */
  function StartOf(q: nat, page: nat): nat {
    q * page
  }

  lemma DivMod(x: nat, page: nat)
    requires page > 0
    ensures x == StartOf(x / page, page) + x % page && 0 <= x % page < page
  {
  }

  lemma StartOfSum(q: nat, d: nat, page: nat)
    ensures StartOf(q + d, page) == StartOf(q, page) + StartOf(d, page)
    ensures StartOf(1, page) == page
  {
  }

  /** Byte `x` lies on page `q` or a later one exactly when it is at or past the start of `q`. */
  lemma PageAtLeast(x: nat, q: nat, page: nat)
    requires page > 0
    ensures q <= x / page <==> StartOf(q, page) <= x
  {
    hide StartOf;
    DivMod(x, page);
    if q <= x / page {
      StartOfSum(q, x / page - q, page);
    } else {
      StartOfSum(x / page, 1, page);
      StartOfSum(x / page + 1, q - x / page - 1, page);
    }
  }

  lemma DivUnique(x: nat, q: nat, page: nat)
    requires page > 0 && StartOf(q, page) <= x < StartOf(q, page) + page
    ensures x / page == q
  {
    hide StartOf;
    PageAtLeast(x, q, page);
    PageAtLeast(x, q + 1, page);
    StartOfSum(q, 1, page);
  }

  /** The bytes below `x` end at or before the start of page `q` exactly when they take up at most `q` pages. */
  lemma PagesAtMost(x: nat, q: nat, page: nat)
    requires page > 0
    ensures Pages(x, page) <= q <==> x <= StartOf(q, page)
  {
    hide StartOf;
    PageAtLeast(x + page - 1, q + 1, page);
    StartOfSum(q, 1, page);
  }

  lemma PagesShift(x: nat, q: nat, page: nat)
    requires page > 0
    ensures Pages(StartOf(q, page) + x, page) == q + Pages(x, page)
  {
    hide StartOf;
    var y, d := StartOf(q, page) + x, Pages(x, page);
    PagesAtMost(x, d, page);
    StartOfSum(q, d, page);
    PagesAtMost(y, q + d, page);
    if d > 0 {
      PagesAtMost(x, d - 1, page);
      StartOfSum(q, d - 1, page);
      PagesAtMost(y, q + d - 1, page);
    } else if q > 0 {
      StartOfSum(q - 1, 1, page);
      PagesAtMost(y, q - 1, page);
    }
  }

  lemma RoundUpPages(x: nat, page: nat)
    requires page > 0 && x + page <= WORD_LIMIT
    ensures RoundUp(x, page) == StartOf(Pages(x, page), page)
  {
    hide StartOf, Wrap;
    NoWrap(x + page - 1);
    DivMod(x + page - 1, page);
  }

  // ---------- Segments ----------

  const PF_X := 1
  const PF_W := 2
  const PF_R := 4

  datatype ProgramHeader = ProgramHeader(
    load: bool, flags: int, fileOffset: Word, memoryOffset: Word, fileSize: Word, memorySize: Word, alignment: Word)

  datatype Mode = ReadOnly | ReadWrite | ReadExecute

  predicate SupportedFlags(flags: int) {
    flags == PF_R + PF_W || flags == PF_R + PF_X || flags == PF_R
  }

  function ModeOf(flags: int): Mode {
    if flags == PF_R + PF_W then ReadWrite else if flags == PF_R + PF_X then ReadExecute else ReadOnly
  }

  /** A file to load: its bytes, where in it the ELF data starts, and the program headers. */
  datatype Elf = Elf(image: seq<Byte>, offset: Word, table: seq<ProgramHeader>, page: nat)

  /** A byte of the file; past its end, zero. */
  function ImageByte(image: seq<Byte>, i: nat): Byte {
    if i < |image| then image[i] else 0
  }

  function Piece(image: seq<Byte>, position: nat, length: nat): (r: seq<Byte>)
    ensures |r| == length && forall k :: 0 <= k < length ==> r[k] == ImageByte(image, position + k)
  {
    seq(length, k requires 0 <= k => ImageByte(image, position + k))
  }

  // ---------- What the program headers ask for ----------

  /** The sums formed for a segment do not wrap around. */
  predicate Fits(e: Elf, h: ProgramHeader) {
    && h.memoryOffset + h.memorySize + e.page <= WORD_LIMIT
    && e.offset + h.fileOffset + h.memorySize + e.page <= WORD_LIMIT
  }

  function FirstPage(e: Elf, h: ProgramHeader): nat
    requires e.page > 0
  {
    PageOf(h.memoryOffset, e.page)
  }

  function EndPage(e: Elf, h: ProgramHeader): nat
    requires e.page > 0
  {
    Pages(h.memoryOffset + h.memorySize, e.page)
  }

  /** Page `q` is one of those of a loadable segment. */
  predicate OnPage(e: Elf, i: nat, q: nat)
    requires e.page > 0 && i < |e.table|
  {
    e.table[i].load && FirstPage(e, e.table[i]) <= q < EndPage(e, e.table[i])
  }

  /** Loadable segments share no page. */
  ghost predicate PagesDisjoint(e: Elf)
    requires e.page > 0
  {
    forall i, j, q :: 0 <= i < j < |e.table| && OnPage(e, i, q) ==> !OnPage(e, j, q)
  }

  ghost predicate Loadable(e: Elf) {
    && 0 < e.page < WORD_LIMIT
    && (forall i :: 0 <= i < |e.table| && e.table[i].load ==> Fits(e, e.table[i]))
  }

  // ---------- How the loader places a segment ----------

  /** How far into its first page a segment starts. */
  function Adjustment(e: Elf, h: ProgramHeader): nat
    requires e.page > 0
  {
    h.memoryOffset % e.page
  }

  function MemoryStart(e: Elf, h: ProgramHeader): Word
    requires e.page > 0
  {
    Wrap(h.memoryOffset - Adjustment(e, h))
  }

  function FileStart(e: Elf, h: ProgramHeader): Word
    requires e.page > 0
  {
    Wrap(e.offset + h.fileOffset - Adjustment(e, h))
  }

  function Length(e: Elf, h: ProgramHeader): Word
    requires e.page > 0
  {
    Wrap(h.memorySize + Adjustment(e, h))
  }

  predicate Congruent(e: Elf, h: ProgramHeader)
    requires e.page > 0
  {
    h.memoryOffset % e.page == h.fileOffset % e.page
  }

  /** The place of a segment in terms of pages. */
  lemma Placement(e: Elf, h: ProgramHeader)
    requires 0 < e.page && Fits(e, h)
    ensures MemoryStart(e, h) == StartOf(FirstPage(e, h), e.page) == h.memoryOffset - Adjustment(e, h)
    ensures MemoryStart(e, h) + Length(e, h) == h.memoryOffset + h.memorySize
    ensures EndPage(e, h) == FirstPage(e, h) + Pages(Length(e, h), e.page)
    ensures RoundUp(Length(e, h), e.page) == StartOf(Pages(Length(e, h), e.page), e.page)
    ensures Congruent(e, h) ==> FileStart(e, h) + Adjustment(e, h) == e.offset + h.fileOffset
  {
    hide Wrap, Pages, RoundUp, PageOf, StartOf, Adjustment, Congruent;
    FirstPageStart(e, h);
    NoWrap(h.memoryOffset - Adjustment(e, h));
    NoWrap(h.memorySize + Adjustment(e, h));
    if Congruent(e, h) {
      CongruentOffset(e, h);
      NoWrap(e.offset + h.fileOffset - Adjustment(e, h));
    }
    PagesShift(Length(e, h), FirstPage(e, h), e.page);
    RoundUpPages(Length(e, h), e.page);
  }

  lemma FirstPageStart(e: Elf, h: ProgramHeader)
    requires 0 < e.page
    ensures h.memoryOffset == StartOf(FirstPage(e, h), e.page) + Adjustment(e, h) && 0 <= Adjustment(e, h) < e.page
  {
    DivMod(h.memoryOffset, e.page);
  }

  lemma CongruentOffset(e: Elf, h: ProgramHeader)
    requires 0 < e.page && Congruent(e, h)
    ensures Adjustment(e, h) <= h.fileOffset
  {
    DivMod(h.fileOffset, e.page);
  }

  // ---------- The reservation ----------

  /** The end of the highest of the first `n` segments. */
  function TotalMemory(e: Elf, n: nat): Word
    requires n <= |e.table|
  {
    if n == 0 then 0
    else
      var h, rest := e.table[n - 1], TotalMemory(e, n - 1);
      if h.load && Wrap(h.memoryOffset + h.memorySize) > rest then Wrap(h.memoryOffset + h.memorySize) else rest
  }

  function ReservedPages(e: Elf): nat
    requires e.page > 0
  {
    Pages(TotalMemory(e, |e.table|), e.page)
  }

  function Reservation(e: Elf): nat
    requires e.page > 0
  {
    StartOf(ReservedPages(e), e.page)
  }

  lemma {:induction false} TotalMemoryCovers(e: Elf, n: nat, i: nat)
    requires i < n <= |e.table| && e.table[i].load && Loadable(e)
    ensures e.table[i].memoryOffset + e.table[i].memorySize <= TotalMemory(e, n)
  {
    NoWrap(e.table[i].memoryOffset + e.table[i].memorySize);
    if i < n - 1 {
      TotalMemoryCovers(e, n - 1, i);
    }
  }

  lemma {:induction false} TotalMemoryBound(e: Elf, n: nat)
    requires n <= |e.table| && Loadable(e)
    ensures TotalMemory(e, n) + e.page <= WORD_LIMIT
  {
    if n > 0 {
      TotalMemoryBound(e, n - 1);
      if e.table[n - 1].load {
        NoWrap(e.table[n - 1].memoryOffset + e.table[n - 1].memorySize);
      }
    }
  }

  lemma StartMonotone(q: nat, r: nat, page: nat)
    requires q <= r
    ensures StartOf(q, page) <= StartOf(r, page)
  {
    StartOfSum(q, r - q, page);
  }

  /** The rounded size that the loader reserves, and that every segment lies inside it. */
  lemma ReservationHolds(e: Elf)
    requires Loadable(e)
    ensures RoundUp(TotalMemory(e, |e.table|), e.page) == Reservation(e)
    ensures forall i :: 0 <= i < |e.table| && e.table[i].load ==> EndPage(e, e.table[i]) <= ReservedPages(e)
  {
    hide StartOf, RoundUp, Pages;
    TotalMemoryBound(e, |e.table|);
    RoundUpPages(TotalMemory(e, |e.table|), e.page);
    forall i | 0 <= i < |e.table| && e.table[i].load ensures EndPage(e, e.table[i]) <= ReservedPages(e) {
      TotalMemoryCovers(e, |e.table|, i);
      PagesAtMost(TotalMemory(e, |e.table|), ReservedPages(e), e.page);
      PagesAtMost(e.table[i].memoryOffset + e.table[i].memorySize, ReservedPages(e), e.page);
    }
  }

  /** Nothing is reserved past the end of the last segment. */
  lemma ReservationTight(e: Elf)
    requires Loadable(e)
    ensures ReservedPages(e) == 0 ||
            exists i :: 0 <= i < |e.table| && e.table[i].load && EndPage(e, e.table[i]) == ReservedPages(e)
  {
    hide Pages;
    var total := TotalMemory(e, |e.table|);
    if total == 0 {
      PagesAtMost(0, 0, e.page);
    } else {
      var i := HighestSegment(e, |e.table|);
      NoWrap(e.table[i].memoryOffset + e.table[i].memorySize);
    }
  }

  lemma {:induction false} HighestSegment(e: Elf, n: nat) returns (i: nat)
    requires n <= |e.table| && TotalMemory(e, n) > 0
    ensures i < n && e.table[i].load && Wrap(e.table[i].memoryOffset + e.table[i].memorySize) == TotalMemory(e, n)
  {
    var h := e.table[n - 1];
    if h.load && Wrap(h.memoryOffset + h.memorySize) > TotalMemory(e, n - 1) {
      i := n - 1;
    } else {
      i := HighestSegment(e, n - 1);
    }
  }

  /** A segment's bytes lie between the start of its first page and the start of its end page. */
  lemma SegmentRange(e: Elf, h: ProgramHeader)
    requires 0 < e.page && Fits(e, h)
    ensures MemoryStart(e, h) == StartOf(FirstPage(e, h), e.page) <= h.memoryOffset
    ensures MemoryStart(e, h) + Length(e, h) == h.memoryOffset + h.memorySize <= StartOf(EndPage(e, h), e.page)
    ensures FirstPage(e, h) <= EndPage(e, h)
  {
    hide StartOf, Pages, PageOf, MemoryStart, Length;
    Placement(e, h);
    FirstPageStart(e, h);
    PagesAtMost(h.memoryOffset + h.memorySize, EndPage(e, h), e.page);
  }

  // ---------- Memory and protection, header by header ----------

  function Write(memory: seq<Byte>, start: nat, data: seq<Byte>): (r: seq<Byte>)
    requires start + |data| <= |memory|
    ensures |r| == |memory|
    ensures forall i :: 0 <= i < |r| ==> r[i] == if start <= i < start + |data| then data[i - start] else memory[i]
  {
    memory[..start] + data + memory[start + |data|..]
  }

  function Protect(modes: seq<Mode>, first: nat, end: nat, mode: Mode): (r: seq<Mode>)
    ensures |r| == |modes|
    ensures forall q :: 0 <= q < |r| ==> r[q] == if first <= q < end then mode else modes[q]
  {
    seq(|modes|, q requires 0 <= q < |modes| => if first <= q < end then mode else modes[q])
  }

  predicate AllWritable(modes: seq<Mode>, first: nat, end: nat) {
    forall q :: first <= q < end && q < |modes| ==> modes[q] == ReadWrite
  }

  /** The reservation after the first `n` program headers. */
  ghost function Contents(e: Elf, n: nat): (r: seq<Byte>)
    requires Loadable(e) && n <= |e.table|
    ensures |r| == Reservation(e)
  {
    if n == 0 then seq(Reservation(e), i => 0)
    else
      var h := e.table[n - 1];
      if !h.load then Contents(e, n - 1)
      else
        SegmentFits(e, n - 1);
        Write(Contents(e, n - 1), MemoryStart(e, h), Piece(e.image, FileStart(e, h), Length(e, h)))
  }

  lemma SegmentFits(e: Elf, i: nat)
    requires Loadable(e) && i < |e.table| && e.table[i].load
    ensures MemoryStart(e, e.table[i]) + Length(e, e.table[i]) <= StartOf(EndPage(e, e.table[i]), e.page) <= Reservation(e)
    ensures FirstPage(e, e.table[i]) <= EndPage(e, e.table[i]) <= ReservedPages(e)
  {
    hide StartOf, Pages, PageOf, MemoryStart, Length, TotalMemory;
    SegmentRange(e, e.table[i]);
    ReservationHolds(e);
    StartMonotone(EndPage(e, e.table[i]), ReservedPages(e), e.page);
  }

  /** The protection of the reserved pages after the first `n` program headers. */
  ghost function Modes(e: Elf, n: nat): (r: seq<Mode>)
    requires Loadable(e) && n <= |e.table|
    ensures |r| == ReservedPages(e)
  {
    if n == 0 then seq(ReservedPages(e), q => ReadWrite)
    else
      var h := e.table[n - 1];
      if !h.load then Modes(e, n - 1)
      else Protect(Modes(e, n - 1), FirstPage(e, h), EndPage(e, h), ModeOf(h.flags))
  }
}
