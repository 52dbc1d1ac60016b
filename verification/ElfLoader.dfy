/** The ELF loader: segments are copied into one reservation, a page-aligned piece at a time. */
module ElfLoader {
  import opened ElfSpec
  import opened Words

  // ---------- What a load leaves in memory ----------

  /** A loadable segment is mapped over byte `x` of the reservation. */
  predicate Covers(e: Elf, i: nat, x: nat)
    requires e.page > 0 && i < |e.table|
  {
    e.table[i].load && MemoryStart(e, e.table[i]) <= x < MemoryStart(e, e.table[i]) + Length(e, e.table[i])
  }

  /** No segment from the `i`-th up to the `n`-th is mapped over the byte. */
  ghost predicate Uncovered(e: Elf, i: nat, n: nat, x: nat)
    requires e.page > 0 && n <= |e.table|
  {
    forall j :: i <= j < n ==> !Covers(e, j, x)
  }

  /** What is mapped over a byte has its page. */
  lemma CoversPage(e: Elf, i: nat, x: nat)
    requires Loadable(e) && i < |e.table| && Covers(e, i, x)
    ensures OnPage(e, i, PageOf(x, e.page))
  {
    hide StartOf, Pages, MemoryStart, Length, EndPage, FirstPage;
    SegmentRange(e, e.table[i]);
    PageAtLeast(x, FirstPage(e, e.table[i]), e.page);
    PageAtLeast(x, EndPage(e, e.table[i]), e.page);
  }

  /** What one program header does to a byte. */
  lemma ContentsStep(e: Elf, n: nat, x: nat)
    requires Loadable(e) && n < |e.table| && x < Reservation(e)
    ensures var h := e.table[n];
            Contents(e, n + 1)[x] ==
            if Covers(e, n, x) then ImageByte(e.image, FileStart(e, h) + (x - MemoryStart(e, h))) else Contents(e, n)[x]
  {
    hide StartOf, Pages, PageOf, MemoryStart, Length, EndPage, FirstPage, FileStart, Adjustment, Reservation, Loadable;
    if e.table[n].load {
      SegmentFits(e, n);
    }
  }

  /**
   Every byte of every loaded segment that no later one is mapped over is the byte of the file at the same
   distance from the segment's file offset, or zero past the end of the file.
   */
  lemma {:induction false} SegmentLoaded(e: Elf, n: nat, i: nat, k: nat)
    requires Loadable(e) && i < n <= |e.table| && e.table[i].load && Congruent(e, e.table[i]) && k < e.table[i].memorySize
    requires Uncovered(e, i + 1, n, e.table[i].memoryOffset + k)
    ensures e.table[i].memoryOffset + k < Reservation(e)
    ensures Contents(e, n)[e.table[i].memoryOffset + k] == ImageByte(e.image, e.offset + e.table[i].fileOffset + k)
  {
    hide StartOf, Pages, PageOf, MemoryStart, Length, EndPage, FirstPage, FileStart, Adjustment, Reservation, Congruent,
      Contents;
    var h := e.table[i];
    SegmentRange(e, h);
    SegmentFits(e, i);
    ContentsStep(e, n - 1, h.memoryOffset + k);
    if i == n - 1 {
      Placement(e, h);
    } else {
      SegmentLoaded(e, n - 1, i, k);
    }
  }

  /** Bytes on pages of no segment stay zero. */
  lemma {:induction false} RestIsZero(e: Elf, n: nat, x: nat)
    requires Loadable(e) && n <= |e.table| && x < Reservation(e)
    requires forall i :: 0 <= i < n ==> !OnPage(e, i, PageOf(x, e.page))
    ensures Contents(e, n)[x] == 0
  {
    hide StartOf, Pages, PageOf, Covers, OnPage, Reservation;
    if n > 0 {
      RestIsZero(e, n - 1, x);
      ContentsStep(e, n - 1, x);
      if Covers(e, n - 1, x) {
        CoversPage(e, n - 1, x);
      }
    }
  }

  // ---------- What a load does to the pages ----------

  /** No segment from the `i`-th up to the `n`-th has the page. */
  ghost predicate Unused(e: Elf, i: nat, n: nat, q: nat)
    requires e.page > 0 && n <= |e.table|
  {
    forall j :: i <= j < n ==> !OnPage(e, j, q)
  }

  /** What one program header does to a page. */
  lemma ModesStep(e: Elf, n: nat, q: nat)
    requires Loadable(e) && n < |e.table| && q < ReservedPages(e)
    ensures Modes(e, n + 1)[q] == if OnPage(e, n, q) then ModeOf(e.table[n].flags) else Modes(e, n)[q]
  {
    hide EndPage, FirstPage, ReservedPages;
  }

  /** A page is protected as the flags of the last segment on it say. */
  lemma {:induction false} PageProtected(e: Elf, n: nat, i: nat, q: nat)
    requires Loadable(e) && i < n <= |e.table| && q < ReservedPages(e) && OnPage(e, i, q) && Unused(e, i + 1, n, q)
    ensures Modes(e, n)[q] == ModeOf(e.table[i].flags)
  {
    hide OnPage, ReservedPages, Modes, ModeOf;
    ModesStep(e, n - 1, q);
    if i < n - 1 {
      assert !OnPage(e, n - 1, q);
      PageProtected(e, n - 1, i, q);
    }
  }

  /** Pages of no segment stay writable. */
  lemma {:induction false} PageUntouched(e: Elf, n: nat, q: nat)
    requires Loadable(e) && n <= |e.table| && q < ReservedPages(e) && Unused(e, 0, n, q)
    ensures Modes(e, n)[q] == ReadWrite
  {
    hide OnPage, ReservedPages, ModeOf;
    if n > 0 {
      ModesStep(e, n - 1, q);
      assert !OnPage(e, n - 1, q);
      PageUntouched(e, n - 1, q);
    }
  }

  /** The last of the first `n` segments on a page. */
  lemma {:induction false} LastOnPage(e: Elf, n: nat, i: nat, q: nat) returns (k: nat)
    requires e.page > 0 && i < n <= |e.table| && OnPage(e, i, q)
    ensures i <= k < n && OnPage(e, k, q) && Unused(e, k + 1, n, q)
  {
    if OnPage(e, n - 1, q) {
      k := n - 1;
    } else {
      k := LastOnPage(e, n - 1, i, q);
    }
  }

  /** Page `q` shows the `i`-th segment: it is the last one there. */
  ghost predicate Shows(e: Elf, i: nat, q: nat)
    requires e.page > 0 && i < |e.table|
  {
    OnPage(e, i, q) && Unused(e, i + 1, |e.table|, q)
  }

  /** After the load, what may be done with a page is exactly what the flags of the segment it shows say. */
  lemma ProtectionExact(e: Elf, i: nat, q: nat)
    requires Loadable(e) && i < |e.table| && q < ReservedPages(e) && Shows(e, i, q) && SupportedFlags(e.table[i].flags)
    ensures var mode := Modes(e, |e.table|)[q];
            && (mode == ReadExecute <==> e.table[i].flags == PF_R + PF_X)
            && (mode == ReadWrite <==> e.table[i].flags == PF_R + PF_W)
            && (mode == ReadOnly <==> e.table[i].flags == PF_R)
  {
    hide OnPage, ReservedPages, Modes;
    PageProtected(e, |e.table|, i, q);
  }

  /** A page can be executed exactly if the segment it shows is one to be executed. */
  lemma ExecutableIff(e: Elf, q: nat)
    requires Loadable(e) && q < ReservedPages(e)
    requires forall i :: 0 <= i < |e.table| && e.table[i].load ==> SupportedFlags(e.table[i].flags)
    ensures Modes(e, |e.table|)[q] == ReadExecute <==>
            exists i :: 0 <= i < |e.table| && Shows(e, i, q) && e.table[i].flags == PF_R + PF_X
  {
    hide ReservedPages, Modes, FirstPage, EndPage, Unused;
    if i :| 0 <= i < |e.table| && OnPage(e, i, q) {
      var k := LastOnPage(e, |e.table|, i, q);
      ProtectionExact(e, k, q);
      forall j | 0 <= j < |e.table| && Shows(e, j, q) ensures j == k {
        OneShown(e, j, k, q);
      }
    } else {
      NoneOnPage(e, q);
      PageUntouched(e, |e.table|, q);
    }
  }

  lemma OneShown(e: Elf, j: nat, k: nat, q: nat)
    requires e.page > 0 && j < |e.table| && k < |e.table| && Shows(e, j, q) && Shows(e, k, q)
    ensures j == k
  {
  }

  lemma NoneOnPage(e: Elf, q: nat)
    requires e.page > 0 && !exists i :: 0 <= i < |e.table| && OnPage(e, i, q)
    ensures Unused(e, 0, |e.table|, q)
  {
  }

  /** All pages of the segment can still be written when its turn comes. */
  ghost predicate Writable(e: Elf, n: nat)
    requires Loadable(e) && n < |e.table|
  {
    forall q :: 0 <= q < ReservedPages(e) && OnPage(e, n, q) ==> Modes(e, n)[q] == ReadWrite
  }

  /** Of the segments that share a page, all but the last are writable. */
  ghost predicate SharedWritable(e: Elf, n: nat)
    requires e.page > 0 && n <= |e.table|
  {
    forall i, j, q :: 0 <= i < j < n && OnPage(e, i, q) && OnPage(e, j, q) ==> ModeOf(e.table[i].flags) == ReadWrite
  }

  /** Every segment is copied to writable pages exactly when those that share a page with a later one are writable. */
  lemma {:induction false} WritesAllowedIff(e: Elf, n: nat)
    requires Loadable(e) && n <= |e.table|
    ensures (forall k :: 0 <= k < n ==> Writable(e, k)) <==> SharedWritable(e, n)
  {
    hide OnPage, ReservedPages, Modes, ModeOf, Writable;
    if n > 0 {
      WritesAllowedIff(e, n - 1);
      if SharedWritable(e, n - 1) {
        NextWritable(e, n - 1);
      }
    }
  }

  lemma NextWritable(e: Elf, n: nat)
    requires Loadable(e) && n < |e.table| && SharedWritable(e, n)
    ensures Writable(e, n) <==> SharedWritable(e, n + 1)
  {
    hide OnPage, ReservedPages, Modes, EndPage, FirstPage, ModeOf;
    if SharedWritable(e, n + 1) {
      forall q | 0 <= q < ReservedPages(e) && OnPage(e, n, q) ensures Modes(e, n)[q] == ReadWrite {
        if i :| 0 <= i < n && OnPage(e, i, q) {
          var k := LastOnPage(e, n, i, q);
          PageProtected(e, n, k, q);
        } else {
          PageUntouched(e, n, q);
        }
      }
    }
    if Writable(e, n) {
      forall i, j, q | 0 <= i < j < n + 1 && OnPage(e, i, q) && OnPage(e, j, q)
        ensures ModeOf(e.table[i].flags) == ReadWrite
      {
        if j == n {
          PageReserved(e, n, q);
          var k := LastOnPage(e, n, i, q);
          PageProtected(e, n, k, q);
        }
      }
    }
  }

  lemma PageReserved(e: Elf, i: nat, q: nat)
    requires Loadable(e) && i < |e.table| && OnPage(e, i, q)
    ensures q < ReservedPages(e)
  {
    SegmentFits(e, i);
  }

  /** Byte `k` of a segment in memory after the load. */
  ghost function LoadedByte(e: Elf, i: nat, k: nat): Byte
    requires Loadable(e) && i < |e.table| && e.table[i].load && k < e.table[i].memorySize
  {
    SegmentRange(e, e.table[i]);
    SegmentFits(e, i);
    Contents(e, |e.table|)[e.table[i].memoryOffset + k]
  }

  /** Byte `k` of a segment in the file. */
  function FileByte(e: Elf, i: nat, k: nat): Byte
    requires i < |e.table|
  {
    ImageByte(e.image, e.offset + e.table[i].fileOffset + k)
  }

  /** In memory every segment is what it is in the file. */
  lemma ImageLoaded(e: Elf, i: nat)
    requires Loadable(e) && PagesDisjoint(e) && i < |e.table| && e.table[i].load && Congruent(e, e.table[i])
    ensures forall k :: 0 <= k < e.table[i].memorySize ==> LoadedByte(e, i, k) == FileByte(e, i, k)
  {
    hide OnPage, Covers, Congruent, PageOf;
    forall k | 0 <= k < e.table[i].memorySize ensures LoadedByte(e, i, k) == FileByte(e, i, k) {
      var x := e.table[i].memoryOffset + k;
      OwnByte(e, i, k);
      CoversPage(e, i, x);
      forall j | i < j < |e.table| ensures !Covers(e, j, x) {
        if Covers(e, j, x) {
          CoversPage(e, j, x);
        }
      }
      SegmentLoaded(e, |e.table|, i, k);
    }
  }

  lemma OwnByte(e: Elf, i: nat, k: nat)
    requires Loadable(e) && i < |e.table| && e.table[i].load && k < e.table[i].memorySize
    ensures Covers(e, i, e.table[i].memoryOffset + k)
  {
    SegmentRange(e, e.table[i]);
  }

  // ---------- The part of a segment past its file size ----------

  /** The gABI wants the bytes past the file size of a segment to be zero. */
  ghost predicate ZeroFilled(e: Elf, i: nat)
    requires Loadable(e) && i < |e.table| && e.table[i].load
  {
    forall k :: e.table[i].fileSize <= k < e.table[i].memorySize ==> LoadedByte(e, i, k) == 0
  }

  /** They are exactly when the file has only zeros there, or ends before. */
  lemma ZeroFilledIff(e: Elf, i: nat)
    requires Loadable(e) && PagesDisjoint(e) && i < |e.table| && e.table[i].load && Congruent(e, e.table[i])
    ensures ZeroFilled(e, i) <==>
            forall k :: e.table[i].fileSize <= k < e.table[i].memorySize ==> FileByte(e, i, k) == 0
  {
    hide LoadedByte, FileByte;
    ImageLoaded(e, i);
    if ZeroFilled(e, i) {
      forall k | e.table[i].fileSize <= k < e.table[i].memorySize ensures FileByte(e, i, k) == 0 {
        assert LoadedByte(e, i, k) == 0;
      }
    }
  }

  /** A segment of three bytes in the file and four in memory, followed in the file by another byte. */
  lemma TailComesFromFile() returns (e: Elf)
    ensures Loadable(e) && PagesDisjoint(e) && |e.table| == 1 && e.table[0].load
    ensures Congruent(e, e.table[0]) && !ZeroFilled(e, 0)
  {
    e := Elf([1, 2, 3, 9], 0, [ProgramHeader(true, PF_R, 0, 0, 3, 4, 4096)], 4096);
    ZeroFilledIff(e, 0);
    assert FileByte(e, 0, 3) == 9;
  }

  // ---------- Pieces of the file outside the segments ----------

  /** The part of the file that `MapFilePiece` maps: whole pages around the piece. */
  function MappingOffset(e: Elf, fileStart: Word): Word
    requires e.page > 0
  {
    Wrap(e.offset + fileStart - Wrap(e.offset + fileStart) % e.page)
  }

  function MappingLength(e: Elf, fileStart: Word, fileLength: Word): Word
    requires e.page > 0
  {
    Wrap(RoundUp(e.offset + fileStart + fileLength, e.page) - MappingOffset(e, fileStart))
  }

  /** Where in the mapping the piece is said to start. */
  function PieceStart(e: Elf, fileStart: Word): nat
    requires e.page > 0
  {
    fileStart % e.page
  }

  lemma ModSum(a: nat, f: nat, page: nat)
    requires page > 0
    ensures (a + f) % page == f % page <==> a % page == 0
  {
    hide StartOf;
    DivMod(a, page);
    DivMod(f, page);
    DivMod(a + f, page);
    var q := a / page + f / page;
    StartOfSum(a / page, f / page, page);
    StartOfSum(q, 1, page);
    if a % page + f % page < page {
      DivUnique(a + f, q, page);
    } else {
      DivUnique(a + f, q + 1, page);
    }
  }

  lemma MappingCovers(e: Elf, fileStart: Word, fileLength: Word)
    requires 0 < e.page && e.offset + fileStart + fileLength + e.page <= WORD_LIMIT
    ensures MappingOffset(e, fileStart) == e.offset + fileStart - (e.offset + fileStart) % e.page
    ensures MappingOffset(e, fileStart) + MappingLength(e, fileStart, fileLength) >= e.offset + fileStart + fileLength
    ensures (e.offset + fileStart) % e.page < e.page
    ensures MappingOffset(e, fileStart) + MappingLength(e, fileStart, fileLength) < WORD_LIMIT
  {
    hide Wrap, RoundUp, StartOf, Pages;
    var x, end := e.offset + fileStart, e.offset + fileStart + fileLength;
    NoWrap(x);
    DivMod(x, e.page);
    NoWrap(x - x % e.page);
    RoundUpPages(end, e.page);
    PagesAtMost(end, Pages(end, e.page), e.page);
    NoWrap(RoundUp(end, e.page) - MappingOffset(e, fileStart));
  }

  /**
   The piece starts where it is said to exactly when the ELF data starts on a page of the file, which
   `Load` checks first.
   */
  lemma PieceStartRight(e: Elf, fileStart: Word, fileLength: Word)
    requires 0 < e.page && e.offset + fileStart + fileLength + e.page <= WORD_LIMIT
    ensures MappingOffset(e, fileStart) + PieceStart(e, fileStart) == e.offset + fileStart <==> e.offset % e.page == 0
  {
    hide MappingOffset, MappingLength;
    MappingCovers(e, fileStart, fileLength);
    ModSum(e.offset, fileStart, e.page);
  }
}
