/** The loader as an object: the loops that copy, protect and place the segments. */
module LoadedElfs {
  import opened ElfSpec
  import opened Words
  import opened ElfLoader

  datatype LoadError = BadAlignment | CannotReserve | NotCongruent | BadFlags | CannotMap

  /** A load that writes to a page no longer writable does not return. */
  datatype LoadResult = Loaded | Failed(error: LoadError) | Faulted

  predicate IsPowerOfTwo(x: Word)
    decreases x
  {
    x == 1 || (x > 0 && x % 2 == 0 && IsPowerOfTwo(x / 2))
  }

  lemma {:induction false} Exponent(x: Word) returns (k: nat)
    requires IsPowerOfTwo(x)
    ensures x == Exp(k)
    decreases x
  {
    if x == 1 {
      k := 0;
    } else {
      k := Exponent(x / 2);
      k := k + 1;
    }
  }

  lemma {:induction false} PowerOfExponent(k: nat, x: Word)
    requires x == Exp(k)
    ensures IsPowerOfTwo(x)
    decreases k
  {
    if k > 0 {
      PowerOfExponent(k - 1, x / 2);
    }
  }

  /** The check of an alignment accepts exactly the powers of two. */
  lemma PowerOfTwoIff(x: Word)
    ensures IsPowerOfTwo(x) <==> exists k: nat :: x == Exp(k)
  {
    if IsPowerOfTwo(x) {
      var k := Exponent(x);
    }
    if k: nat :| x == Exp(k) {
      PowerOfExponent(k, x);
    }
  }

  // ---------- Which files are accepted ----------

  predicate Aligned(e: Elf) {
    forall i :: 0 <= i < |e.table| && e.table[i].load ==> IsPowerOfTwo(e.table[i].alignment)
  }

  /** What becomes of a segment, in the order of the checks. */
  ghost function SegmentResult(e: Elf, i: nat): LoadResult
    requires Loadable(e) && i < |e.table|
  {
    var h := e.table[i];
    if !Congruent(e, h) then Failed(NotCongruent)
    else if !SupportedFlags(h.flags) then Failed(BadFlags)
    else if FileStart(e, h) > |e.image| then Failed(CannotMap)
    else if !Writable(e, i) then Faulted
    else Loaded
  }

  /** The first segment, from the `i`-th on, that is not loaded. */
  ghost function FirstResult(e: Elf, i: nat): LoadResult
    requires Loadable(e) && i <= |e.table|
    decreases |e.table| - i
  {
    if i == |e.table| then Loaded
    else if e.table[i].load && SegmentResult(e, i) != Loaded then SegmentResult(e, i)
    else FirstResult(e, i + 1)
  }

  ghost function Result(e: Elf, reserved: bool): LoadResult
    requires Loadable(e)
  {
    if !Aligned(e) then Failed(BadAlignment) else if !reserved then Failed(CannotReserve) else FirstResult(e, 0)
  }

  /** A segment that passes the checks. */
  predicate Acceptable(e: Elf, h: ProgramHeader)
    requires e.page > 0
  {
    Congruent(e, h) && SupportedFlags(h.flags) && FileStart(e, h) <= |e.image|
  }

  lemma {:induction false} FirstResultLoaded(e: Elf, i: nat)
    requires Loadable(e) && i <= |e.table|
    ensures FirstResult(e, i) == Loaded <==>
            forall j :: i <= j < |e.table| && e.table[j].load ==> SegmentResult(e, j) == Loaded
    decreases |e.table| - i
  {
    if i < |e.table| {
      FirstResultLoaded(e, i + 1);
    }
  }

  /**
   A file is loaded exactly when every segment passes the checks, and of those that share a page all but the
   last are writable.
   */
  lemma LoadedIff(e: Elf)
    requires Loadable(e)
    ensures FirstResult(e, 0) == Loaded <==>
            && (forall i :: 0 <= i < |e.table| && e.table[i].load ==> Acceptable(e, e.table[i]))
            && SharedWritable(e, |e.table|)
  {
    hide SharedWritable, FirstResult, Congruent, FileStart, SupportedFlags, Writable;
    FirstResultLoaded(e, 0);
    WritesAllowedIff(e, |e.table|);
    forall i | 0 <= i < |e.table| && !e.table[i].load ensures Writable(e, i) {
      NothingToWrite(e, i);
    }
    if FirstResult(e, 0) == Loaded {
      forall i | 0 <= i < |e.table| ensures Writable(e, i) && (e.table[i].load ==> Acceptable(e, e.table[i])) {
        assert e.table[i].load ==> SegmentResult(e, i) == Loaded;
      }
    }
  }

  lemma NothingToWrite(e: Elf, i: nat)
    requires Loadable(e) && i < |e.table| && !e.table[i].load
    ensures Writable(e, i)
  {
  }

  /** Two segments on one page, each in order by itself; the first is not writable. */
  lemma SharedPageFaults() returns (e: Elf)
    ensures Loadable(e) && Aligned(e) && forall i :: 0 <= i < |e.table| ==> Acceptable(e, e.table[i])
    ensures FirstResult(e, 0) == Faulted
  {
    var h, g := ProgramHeader(true, PF_R, 0, 0, 4, 4, 1), ProgramHeader(true, PF_R + PF_W, 8, 8, 4, 4, 1);
    e := Elf([0, 0, 0, 0, 0, 0, 0, 0, 0, 0, 0, 0], 0, [h, g], 4096);
    assert OnPage(e, 0, 0) && OnPage(e, 1, 0);
    assert ModeOf(e.table[0].flags) == ReadOnly;
    PageReserved(e, 0, 0);
    PageUntouched(e, 0, 0);
    PageProtected(e, 1, 0, 0);
    assert !Writable(e, 1);
    assert Writable(e, 0) by { FirstWritable(e); }
    assert SegmentResult(e, 0) == Loaded && SegmentResult(e, 1) == Faulted;
    assert FirstResult(e, 1) == Faulted;
  }

  lemma FirstWritable(e: Elf)
    requires Loadable(e) && |e.table| > 0
    ensures Writable(e, 0)
  {
  }

  // ---------- The image in memory ----------

  datatype MapResult = Mapped | NotMapped | Fault

  class MemoryMappable {
    const image: seq<Byte>

    constructor (image: seq<Byte>)
      ensures this.image == image
    {
      this.image := image;
    }

    /** Bytes of the file, then zeros, go to `start`. */
    method Copy(position: nat, length: nat, memory: array<Byte>, start: nat)
      requires position <= |image| && start + length <= memory.Length
      modifies memory
      ensures memory[..] == Write(old(memory[..]), start, Piece(image, position, length))
    {
      var inFile, remainder := length, 0;
      if position + length > |image| {
        remainder := position + length - |image|;
        inFile := |image| - position;
      }
      var k := 0;
      while k < inFile
        invariant 0 <= k <= inFile
        invariant forall i :: 0 <= i < memory.Length ==>
                                memory[i] == if start <= i < start + k then ImageByte(image, position + (i - start))
                                else old(memory[i])
      {
        memory[start + k] := image[position + k];
        k := k + 1;
      }
      k := 0;
      while k < remainder
        invariant 0 <= k <= remainder
        invariant forall i :: 0 <= i < memory.Length ==>
                                memory[i] == if start <= i < start + inFile + k then ImageByte(image, position + (i - start))
                                else old(memory[i])
      {
        memory[start + inFile + k] := 0;
        k := k + 1;
      }
      assert memory[..] == Write(old(memory[..]), start, Piece(image, position, length));
    }

    method ProtectPages(modes: array<Mode>, first: nat, end: nat, mode: Mode)
      requires first <= end <= modes.Length
      modifies modes
      ensures modes[..] == Protect(old(modes[..]), first, end, mode)
    {
      var q := first;
      while q < end
        invariant first <= q <= end
        invariant forall r :: 0 <= r < modes.Length ==> modes[r] == if first <= r < q then mode else old(modes[r])
      {
        modes[q] := mode;
        q := q + 1;
      }
      assert modes[..] == Protect(old(modes[..]), first, end, mode);
    }

    /** Maps at a given place of a reservation; the copy faults on a page that is not writable. */
    method Map(mode: Mode, position: Word, length: Word, memory: array<Byte>, modes: array<Mode>, first: nat, page: nat)
      returns (r: MapResult)
      requires memory as object != modes as object
      requires page > 0 && position + length < WORD_LIMIT && length + page <= WORD_LIMIT
      requires StartOf(first, page) + length <= memory.Length && first + Pages(length, page) <= modes.Length
      modifies memory, modes
      ensures r == NotMapped <==> position > |image|
      ensures r == Fault <==> position <= |image| && !AllWritable(old(modes[..]), first, first + Pages(length, page))
      ensures r == Mapped ==>
                && memory[..] == Write(old(memory[..]), StartOf(first, page), Piece(image, position, length))
                && modes[..] == Protect(old(modes[..]), first, first + Pages(length, page), mode)
      ensures r == NotMapped ==> memory[..] == old(memory[..]) && modes[..] == old(modes[..])
    {
      hide StartOf, Pages;
      if position > |image| {
        return NotMapped;
      }
      if !AllWritable(modes[..], first, first + Pages(length, page)) {
        return Fault;
      }
      Copy(position, length, memory, StartOf(first, page));
      ProtectPages(modes, first, first + Pages(length, page), mode);
      r := Mapped;
    }
  }

  class LoadedElf {
    const elf: Elf
    const mappable: MemoryMappable
    var memory: array<Byte>
    var modes: array<Mode>

    constructor (elf: Elf)
      ensures this.elf == elf && mappable.image == elf.image
    {
      this.elf := elf;
      mappable := new MemoryMappable(elf.image);
      memory := new Byte[0];
      modes := new Mode[0];
    }

    /** The first loop: the memory needed, unless an alignment is not a power of two. */
    method MeasureSegments() returns (total: Word, aligned: bool)
      requires elf.page > 0
      ensures aligned == Aligned(elf)
      ensures aligned ==> total == TotalMemory(elf, |elf.table|)
    {
      total := 0;
      var i := 0;
      while i < |elf.table|
        invariant 0 <= i <= |elf.table| && total == TotalMemory(elf, i)
        invariant forall j :: 0 <= j < i && elf.table[j].load ==> IsPowerOfTwo(elf.table[j].alignment)
      {
        var h := elf.table[i];
        if h.load {
          var end := Wrap(h.memoryOffset + h.memorySize);
          total := if end > total then end else total;
          if !IsPowerOfTwo(h.alignment) {
            return total, false;
          }
        }
        i := i + 1;
      }
      aligned := true;
    }

    /**
     The outcome is that of the first segment that is not loaded; on success memory and protection are those
     of the specification.
     */
    method LoadSegments(reserved: bool) returns (result: LoadResult)
      requires Loadable(elf) && mappable.image == elf.image
      modifies this
      ensures result == Result(elf, reserved)
      ensures result == Loaded ==> memory[..] == Contents(elf, |elf.table|) && modes[..] == Modes(elf, |elf.table|)
    {
      var total, aligned := MeasureSegments();
      if !aligned {
        return Failed(BadAlignment);
      }
      total := RoundUp(total, elf.page);
      if !reserved {
        return Failed(CannotReserve);
      }
      ReservationHolds(elf);
      Reserve(total);
      var i := 0;
      while i < |elf.table|
        invariant 0 <= i <= |elf.table| && fresh(memory) && fresh(modes) && memory as object != modes as object
        invariant FirstResult(elf, i) == FirstResult(elf, 0)
        invariant memory[..] == Contents(elf, i) && modes[..] == Modes(elf, i)
      {
        if elf.table[i].load {
          var r := LoadSegment(i);
          if r != Loaded {
            return r;
          }
        }
        i := i + 1;
      }
      result := Loaded;
    }

    method Reserve(total: Word)
      requires Loadable(elf) && total == Reservation(elf)
      modifies this
      ensures fresh(memory) && fresh(modes) && memory as object != modes as object
      ensures memory[..] == Contents(elf, 0) && modes[..] == Modes(elf, 0)
    {
      memory := new Byte[total](i => 0);
      modes := new Mode[ReservedPages(elf)](i => ReadWrite);
      assert memory[..] == Contents(elf, 0);
      assert modes[..] == Modes(elf, 0);
    }

    method LoadSegment(i: nat) returns (r: LoadResult)
      requires Loadable(elf) && mappable.image == elf.image && i < |elf.table| && elf.table[i].load
      requires memory as object != modes as object && memory[..] == Contents(elf, i) && modes[..] == Modes(elf, i)
      modifies memory, modes
      ensures r == SegmentResult(elf, i)
      ensures r == Loaded ==> memory[..] == Contents(elf, i + 1) && modes[..] == Modes(elf, i + 1)
    {
      hide StartOf, Pages, PageOf, Wrap, RoundUp, Write, Protect, Piece, Adjustment;
      var h := elf.table[i];
      if !Congruent(elf, h) {
        return Failed(NotCongruent);
      }
      if !SupportedFlags(h.flags) {
        return Failed(BadFlags);
      }
      Placement(elf, h);
      SegmentFits(elf, i);
      SegmentPages(elf, i);
      NoWrapAtEnd(elf, h);
      var mapped := mappable.Map(ModeOf(h.flags), FileStart(elf, h), Length(elf, h), memory, modes,
                                 FirstPage(elf, h), elf.page);
      r := match mapped case NotMapped => Failed(CannotMap) case Fault => Faulted case Mapped => Loaded;
    }
  }

  /** `LoadedElf::MapFilePiece`; with the ELF data on a page of the file, all of the piece is there. */
  method MapFilePiece(e: Elf, fileStart: Word, fileLength: Word, granted: bool)
    returns (mapping: array?<Byte>, memStart: nat)
    requires 0 < e.page && e.offset + fileStart + fileLength + e.page <= WORD_LIMIT
    ensures mapping == null <==> MappingOffset(e, fileStart) > |e.image| || !granted
    ensures mapping != null ==> fresh(mapping) && memStart == PieceStart(e, fileStart)
    ensures mapping != null && e.offset % e.page == 0 ==>
              && memStart + fileLength <= mapping.Length
              && mapping[memStart..memStart + fileLength] == Piece(e.image, e.offset + fileStart, fileLength)
  {
    hide MappingOffset, MappingLength, PieceStart;
    mapping, memStart := null, 0;
    MappingCovers(e, fileStart, fileLength);
    PieceStartRight(e, fileStart, fileLength);
    var position, length := MappingOffset(e, fileStart), MappingLength(e, fileStart, fileLength);
    if position > |e.image| || !granted {
      return;
    }
    var mappable := new MemoryMappable(e.image);
    var memory := new Byte[length](i => 0);
    mappable.Copy(position, length, memory, 0);
    mapping := memory;
    memStart := PieceStart(e, fileStart);
    if e.offset % e.page == 0 {
      PieceWithin(e.image, memory[..], position, memStart, fileLength);
    }
  }

  lemma PieceWithin(image: seq<Byte>, memory: seq<Byte>, position: nat, at: nat, n: nat)
    requires at + n <= |memory| && forall k :: 0 <= k < |memory| ==> memory[k] == ImageByte(image, position + k)
    ensures memory[at..at + n] == Piece(image, position + at, n)
  {
  }

  /** The pages of a segment are those of its mapping. */
  lemma SegmentPages(e: Elf, i: nat)
    requires Loadable(e) && i < |e.table| && e.table[i].load
    ensures var first, end := FirstPage(e, e.table[i]), EndPage(e, e.table[i]);
            && end <= ReservedPages(e)
            && (Writable(e, i) <==> AllWritable(Modes(e, i), first, end))
  {
    hide FirstPage, EndPage, ReservedPages, Modes;
    SegmentFits(e, i);
    var modes, first, end := Modes(e, i), FirstPage(e, e.table[i]), EndPage(e, e.table[i]);
    assert forall q :: 0 <= q < |modes| ==> (OnPage(e, i, q) <==> first <= q < end);
  }

  lemma NoWrapAtEnd(e: Elf, h: ProgramHeader)
    requires 0 < e.page < WORD_LIMIT && Fits(e, h) && Congruent(e, h)
    ensures FileStart(e, h) + Length(e, h) < WORD_LIMIT && Length(e, h) + e.page <= WORD_LIMIT
  {
    Placement(e, h);
    FirstPageStart(e, h);
  }
}
