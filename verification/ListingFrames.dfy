/**
 The frames of a paused directory listing: what each has yet to produce, and how it steps.
 */
module ListingFrames {
  import opened PathBuffers
  import opened ListingSpec

  datatype ListType = ListFile | ListDirectory | ListLink | ListError | ListDone

  // ---------- Frames ----------

  datatype Phase = Fresh | Reading | Finished

  /**
   `path` is the directory's own path, with its separator once it is `Reading`; `seen` are the
   links followed to get there.
   */
  datatype Frame = Frame(root: bool, phase: Phase, path: CString, rest: seq<Dirent>, fails: bool,
                         seen: set<LinkId>, depth: nat)

  ghost predicate FrameOk(c: Config, b: Bounds, f: Frame) {
    && (f.root ==> f.seen == {})
    && (f.phase == Reading ==> EntriesOk(c, b, f.path, f.rest, f.depth))
    && (f.phase == Fresh && f.root ==> RootListable(c, b, f.path))
    && (f.phase == Fresh && !f.root && |f.path| >= PATH_MAX ==> c.fs.open(Cut(f.path)).OpenFailed?)
  }

  /** What a frame has yet to produce. */
  ghost function FrameItems(c: Config, b: Bounds, f: Frame): seq<Item>
    requires Listable(c, b) && FrameOk(c, b, f)
  {
    match f.phase
    case Fresh => if f.root then ListRoot(c, b, f.path) else ListBelow(c, b, f.path, f.seen)
    case Reading => ListEntries(c, b, f.path, f.rest, f.fails, f.seen, f.depth)
    case Finished => []
  }

  // ---------- Steps of the top frame ----------

  function Emitted(t: ListType, whole: CString): seq<Item> {
    match t
    case ListFile => [Entity(File, Cut(whole))]
    case ListDirectory => [Entity(Directory, Cut(whole))]
    case ListLink => [Entity(Link, Cut(whole))]
    case ListError => [Error(Cut(whole))]
    case ListDone => []
  }

  /** A frame `f` that produces `t`, seeing `whole` in the path buffer, continues as `g`. */
  ghost predicate Steps(c: Config, b: Bounds, f: Frame, t: ListType, whole: CString, seen: set<LinkId>, g: Frame)
    requires Listable(c, b)
  {
    && FrameOk(c, b, f) && FrameOk(c, b, g)
    && (t == ListDone ==> g.phase == Finished)
    && (t == ListDirectory ==> g.phase == Reading)
    && (t == ListDirectory && c.recursive && |whole| >= PATH_MAX ==> c.fs.open(Cut(whole)).OpenFailed?)
    && FrameItems(c, b, f) ==
       Emitted(t, whole)
       + (if t == ListDirectory && c.recursive then ListBelow(c, b, whole, seen) else [])
       + FrameItems(c, b, g)
  }

  /** The links seen matter to a directory only. */
  lemma StepsSeen(c: Config, b: Bounds, f: Frame, t: ListType, whole: CString, seen: set<LinkId>, g: Frame,
                  others: set<LinkId>)
    requires Listable(c, b) && Steps(c, b, f, t, whole, seen, g) && t != ListDirectory
    ensures Steps(c, b, f, t, whole, others, g) && FrameOk(c, b, g)
  {
  }

  /** A frame that first drops an entry silently. */
  lemma StepsSkip(c: Config, b: Bounds, f: Frame, m: Frame, t: ListType, whole: CString, seen: set<LinkId>, g: Frame)
    requires Listable(c, b) && FrameOk(c, b, f) && FrameOk(c, b, m)
    requires FrameItems(c, b, f) == FrameItems(c, b, m) && Steps(c, b, m, t, whole, seen, g)
    ensures Steps(c, b, f, t, whole, seen, g)
  {
  }

  function TypeOf(k: Class): ListType {
    match k
    case AsFile => ListFile
    case AsLink => ListLink
    case AsError => ListError
    case AsDirectory(_) => ListDirectory
  }

  function Via(k: Class): set<LinkId> {
    if k.AsDirectory? then k.via else {}
  }

  function Opened(f: Frame, entries: seq<Dirent>, fails: bool, depth: nat): Frame {
    f.(phase := Reading, path := if f.root then f.path else Concat(f.path, "/"),
    rest := entries, fails := fails, depth := depth)
  }

  /** Opening the directory of a fresh frame. */
  lemma OpenStep(c: Config, b: Bounds, f: Frame)
    requires Listable(c, b) && FrameOk(c, b, f) && f.phase == Fresh
    ensures match c.fs.open(Cut(f.path))
            case OpenFailed => Steps(c, b, f, ListError, f.path, {}, f.(phase := Finished))
            case Stream(entries, fails) =>
              var g := Opened(f, entries, fails, b.depth(Cut(f.path)));
              && (!f.root ==> |f.path| < PATH_MAX)
              && FrameOk(c, b, g) && FrameItems(c, b, f) == FrameItems(c, b, g)
  {
  }

  lemma DoneStep(c: Config, b: Bounds, f: Frame, whole: CString, seen: set<LinkId>)
    requires Listable(c, b) && FrameOk(c, b, f) && f.phase == Finished
    ensures Steps(c, b, f, ListDone, whole, seen, f)
  {
  }

  function AfterEntry(f: Frame): Frame
    requires f.rest != []
  {
    f.(rest := f.rest[1..])
  }

  /** Reading an entry whose path fits. */
  lemma ReadStep(c: Config, b: Bounds, f: Frame)
    requires Listable(c, b) && FrameOk(c, b, f) && f.phase == Reading && f.rest != []
    requires |f.path| + |f.rest[0].name| <= PATH_MAX
    ensures var whole := Concat(f.path, f.rest[0].name);
            var k := Classify(c, f.seen, Cut(whole), f.rest[0].dtype);
            && FrameOk(c, b, AfterEntry(f))
            && if k.AsDirectory? && IsDots(f.rest[0].name) then FrameItems(c, b, f) == FrameItems(c, b, AfterEntry(f))
               else Steps(c, b, f, TypeOf(k), whole, f.seen + Via(k), AfterEntry(f))
  {
    hide Listable, ListBelow;
    assert EntryOk(c, b, f.path, f.rest[0], f.depth);
    var items, others := ListEntry(c, b, f.path, f.rest[0], f.seen, f.depth), FrameItems(c, b, AfterEntry(f));
    assert FrameItems(c, b, f) == items + others;
    assert items == [] ==> items + others == others;
    assert items + [] == items;
  }

  /** An entry whose path does not fit ends the directory, as does the end of the stream. */
  lemma EndStep(c: Config, b: Bounds, f: Frame)
    requires Listable(c, b) && FrameOk(c, b, f) && f.phase == Reading
    ensures f.rest == [] ==>
              Steps(c, b, f, if f.fails then ListError else ListDone, f.path, {}, f.(phase := Finished))
    ensures f.rest != [] && |f.path| + |f.rest[0].name| > PATH_MAX ==>
              Steps(c, b, f, ListError, Concat(f.path, f.rest[0].name), {}, AfterEntry(f).(phase := Finished))
  {
  }
}
