/**
 The resumable directory listing: `DirectoryListing`, `DirectoryListingEntry`, `LinkList`,
 `ListNext`, `Directory::List` and the batches of `Directory::ListNextRequest`.

 The listing keeps a stack of entries over one shared path buffer. Its abstract value is a
 `Stack`: for each entry its frame, and the `LinkList` node that it allocated and has not freed.
 */
module DirectoryListings {
  import opened PathBuffers
  import opened ListingSpec
  import opened ListingFrames
  import ListingMembers

  // ---------- Responses ----------

  /** The slots of a response array: two an item. */
  datatype Cell = Unset | Tag(code: int) | Text(path: CString) | Null | Failure(path: CString)

  function Code(t: ListType): int {
    match t
    case ListFile => 0
    case ListDirectory => 1
    case ListLink => 2
    case ListError => 3
    case ListDone => 4
  }

  function Cells(item: Item): (cells: seq<Cell>)
    ensures |cells| == 2
  {
    match item
    case Entity(File, path) => [Tag(Code(ListFile)), Text(path)]
    case Entity(Directory, path) => [Tag(Code(ListDirectory)), Text(path)]
    case Entity(Link, path) => [Tag(Code(ListLink)), Text(path)]
    case Error(path) => [Tag(Code(ListError)), Failure(path)]
    case Done => [Tag(Code(ListDone)), Null]
  }

  function Encode(items: seq<Item>): (cells: seq<Cell>)
    ensures |cells| == 2 * |items|
  {
    if items == [] then [] else Encode(items[..|items| - 1]) + Cells(items[|items| - 1])
  }

  /** What the Dart side makes of a pair of cells. */
  function ItemOf(tag: Cell, cell: Cell): Item {
    if tag == Tag(0) && cell.Text? then Entity(File, cell.path)
    else if tag == Tag(1) && cell.Text? then Entity(Directory, cell.path)
    else if tag == Tag(2) && cell.Text? then Entity(Link, cell.path)
    else if tag == Tag(3) && cell.Failure? then Error(cell.path)
    else Done
  }

  /** What it makes of a response, pair by pair. */
  function Heard(cells: seq<Cell>): seq<Item> {
    if |cells| < 2 then [] else [ItemOf(cells[0], cells[1])] + Heard(cells[2..])
  }

  lemma {:induction false} HeardLast(cells: seq<Cell>, item: Item)
    requires |cells| % 2 == 0
    ensures Heard(cells + Cells(item)) == Heard(cells) + [item]
    decreases |cells|
  {
    var all := cells + Cells(item);
    if cells == [] {
      assert all == Cells(item) && all[2..] == [];
    } else {
      assert all[2..] == cells[2..] + Cells(item);
      HeardLast(cells[2..], item);
    }
  }

  /** The Dart side hears exactly the items that are sent. */
  lemma {:induction false} HeardAll(items: seq<Item>)
    ensures Heard(Encode(items)) == items
  {
    if items != [] {
      var n := |items| - 1;
      HeardAll(items[..n]);
      HeardLast(Encode(items[..n]), items[n]);
    }
  }

  /** The type reported is the one that the system gives for the path. */
  ghost predicate ReportedAs(c: Config, seen: set<LinkId>, path: CString, t: ListType) {
    && (t == ListDirectory <==> ListingMembers.HasMode(c, seen, path, IsDirectory))
    && (t == ListLink <==> ListingMembers.HasMode(c, seen, path, IsLink))
    && (t == ListError <==> c.fs.lstat(path).StatFailed?)
    && t != ListDone
  }

  // ---------- The chain of links ----------

  /** A node of the chain: a link that was followed, and the node of the link followed before it. */
  class LinkList {
    const id: LinkId
    const next: LinkList?

    constructor (id: LinkId, next: LinkList?)
      ensures this.id == id && this.next == next
    {
      this.id, this.next := id, next;
    }
  }

  ghost function Last(chain: seq<LinkList>): LinkList? {
    if chain == [] then null else chain[|chain| - 1]
  }

  ghost function Seen(chain: seq<LinkList>): set<LinkId> {
    set k | 0 <= k < |chain| :: chain[k].id
  }

  /** Each node points to the one before it, and no link identity occurs twice. */
  ghost predicate Linked(chain: seq<LinkList>)
    decreases |chain|
  {
    chain != [] ==>
      var n := |chain| - 1;
      && Linked(chain[..n])
      && chain[n].next == Last(chain[..n])
      && chain[n].id !in Seen(chain[..n])
  }

  lemma LinkedExtend(chain: seq<LinkList>, link: LinkList)
    requires Linked(chain) && link.next == Last(chain) && link.id !in Seen(chain)
    ensures Linked(chain + [link]) && Seen(chain + [link]) == Seen(chain) + {link.id}
  {
    var more := chain + [link];
    assert more[..|chain|] == chain;
    forall id | id in Seen(chain) + {link.id} ensures id in Seen(more) {
      if id == link.id {
        assert more[|chain|].id == id;
      } else {
        var k :| 0 <= k < |chain| && chain[k].id == id;
        assert more[k].id == id;
      }
    }
  }

  /** The nodes of a chain. */
  ghost function Nodes(chain: seq<LinkList>): set<LinkList>
    decreases |chain|
  {
    if chain == [] then {} else Nodes(chain[..|chain| - 1]) + {chain[|chain| - 1]}
  }

  lemma {:induction false} NodesSeen(chain: seq<LinkList>, link: LinkList)
    requires link in Nodes(chain)
    ensures link.id in Seen(chain)
    decreases |chain|
  {
    var n := |chain| - 1;
    if link != chain[n] {
      NodesSeen(chain[..n], link);
      var k :| 0 <= k < n && chain[..n][k].id == link.id;
      assert chain[k].id == link.id;
    }
  }

  /** The newest node of a chain, and the rest. */
  lemma LastNode(chain: seq<LinkList>)
    requires Linked(chain) && chain != []
    ensures var n := |chain| - 1;
            && Linked(chain[..n]) && chain[n].next == Last(chain[..n])
            && Nodes(chain) == Nodes(chain[..n]) + {chain[n]}
  {
  }

  lemma SeenAt(chain: seq<LinkList>, id: LinkId)
    ensures id in Seen(chain) <==> exists k :: 0 <= k < |chain| && chain[k].id == id
  {
  }

  /** A node with a new identity is a new node. */
  lemma NodesExtend(chain: seq<LinkList>, link: LinkList)
    ensures Nodes(chain + [link]) == Nodes(chain) + {link}
    ensures link.id !in Seen(chain) ==> link !in Nodes(chain)
  {
    assert (chain + [link])[..|chain|] == chain;
    if link in Nodes(chain) {
      NodesSeen(chain, link);
    }
  }

  // ---------- The stack ----------

  datatype Stack = Empty | Level(entry: DirectoryListingEntry, frame: Frame, own: seq<LinkList>, under: Stack)
  {
    ghost function Top(): DirectoryListingEntry? {
      if Empty? then null else entry
    }

    ghost function Depth(): nat {
      if Empty? then 0 else 1 + under.Depth()
    }

    /** The allocated links, oldest first. */
    ghost function Chain(): seq<LinkList> {
      if Empty? then [] else under.Chain() + own
    }

    /** The entry on top stores its frame, and may own the newest link. */
    ghost predicate OnTop()
      requires Level?
      reads entry
    {
      && entry.parent == under.Top()
      && entry.Stores(frame)
      && (!entry.isOpen ==> own == [])
      && frame.root == under.Empty?
      && frame.seen == Seen(under.Chain())
      && |own| <= 1
      && (under.Level? ==> under.frame.path <= frame.path)
    }

    /**
     Below the top, the entries are distinct members of `es`; every one is reading, and its link
     is the newest that it or a parent added.
     */
    ghost predicate Settled(es: set<DirectoryListingEntry>)
      reads es
    {
      Level? ==>
        && entry in es && OnTop() && frame.phase == Reading && entry.link == Last(Chain())
        && under.Settled(es - {entry})
    }
  }

  ghost function EntriesOf(s: Stack): set<DirectoryListingEntry> {
    if s.Empty? then {} else {s.entry} + EntriesOf(s.under)
  }

  ghost predicate FramesOk(c: Config, b: Bounds, s: Stack) {
    s.Level? ==> FrameOk(c, b, s.frame) && FramesOk(c, b, s.under)
  }

  lemma FramesOkOwn(c: Config, b: Bounds, s: Stack, r: Stack)
    requires FramesOk(c, b, s) && s.Level? && r.Level? && r == s.(own := r.own)
    ensures FramesOk(c, b, r)
  {
  }

  /** What the stack has yet to produce, the top entry first. */
  ghost function StackItems(c: Config, b: Bounds, s: Stack): seq<Item>
    requires Listable(c, b) && FramesOk(c, b, s)
  {
    if s.Empty? then [Done] else FrameItems(c, b, s.frame) + StackItems(c, b, s.under)
  }

  lemma RootItems(c: Config, b: Bounds, s: Stack)
    requires Listable(c, b) && s.Level? && s.under.Empty?
    requires s.frame.root && s.frame.phase == Fresh && s.frame.seen == {} && RootListable(c, b, s.frame.path)
    ensures FramesOk(c, b, s) && StackItems(c, b, s) == Listing(c, b, s.frame.path)
  {
  }

  class DirectoryListingEntry {
    const parent: DirectoryListingEntry?
    /** The directory stream: open or not, and what it has yet to yield. */
    var isOpen: bool
    var rest: seq<Dirent>
    var fails: bool
    var done: bool
    var pathLength: int
    var link: LinkList?

    constructor (parent: DirectoryListingEntry?)
      ensures this.parent == parent && !isOpen && !done && link == null
    {
      this.parent := parent;
      isOpen, rest, fails, done, pathLength, link := false, [], false, false, 0, null;
    }

    ghost predicate Stores(f: Frame)
      reads this
    {
      && (done <==> f.phase == Finished)
      && (!done ==> (isOpen <==> f.phase == Reading))
      && (f.phase == Reading ==> rest == f.rest && fails == f.fails && pathLength == |f.path|)
    }

    // ----- Links -----

    /** Frees the link that this entry added to the chain, if any, and takes over the parent's. */
    method ResetLink(listing: DirectoryListing)
      requires listing.Stacked() && listing.top == this
      modifies this`link, listing`stack, listing`live
      ensures listing.Stacked() && link == Last(listing.stack.Chain())
      ensures listing.stack == old(listing.stack).(own := [])
      ensures listing.live == old(listing.live - Nodes(listing.stack.own))
    {
      hide Linked, Seen, Stack.Settled, Nodes;
      ghost var s := listing.stack;
      listing.TopLink();
      listing.OwnNodes();
      if link != null && (parent == null || parent.link != link) {
        listing.Delete(link);
        link := null;
      }
      listing.stack := s.(own := []);
      if parent != null {
        link := parent.link;
      }
      assert listing.stack.Chain() == s.under.Chain();
    }

    /** `link_ = new LinkList(current_link)`: a new node, which this entry owns. */
    method AddLink(listing: DirectoryListing, id: LinkId)
      requires listing.Stacked() && listing.top == this && link == Last(listing.stack.Chain())
      requires isOpen && listing.stack.own == [] && id !in Seen(listing.stack.Chain())
      modifies this`link, listing`stack, listing`live
      ensures listing.Stacked() && link == Last(listing.stack.Chain())
      ensures listing.stack == old(listing.stack).(own := listing.stack.own)
      ensures Seen(listing.stack.Chain()) == Seen(old(listing.stack.Chain())) + {id}
      ensures link != null && fresh(link) && listing.live == old(listing.live) + {link}
    {
      hide Linked, Seen, Stack.Settled, Nodes;
      ghost var s := listing.stack;
      link := new LinkList(id, link);
      LinkedExtend(s.Chain(), link);
      NodesExtend(s.Chain(), link);
      assert s.Chain() == s.under.Chain();
      listing.stack := s.(own := [link]);
      listing.live := listing.live + {link};
    }

    /** How the entry just read is reported. A link to a directory is added to the chain. */
    method TypeOfEntry(listing: DirectoryListing, dtype: DType, ghost whole: CString) returns (t: ListType)
      requires listing.Stacked() && listing.top == this && link == Last(listing.stack.Chain())
      requires isOpen && listing.stack.own == []
      requires listing.pathBuffer.Valid() && listing.pathBuffer.Reads(Cut(whole))
      modifies this`link, listing`stack, listing`live
      ensures listing.Stacked() && link == Last(listing.stack.Chain())
      ensures listing.stack == old(listing.stack).(own := listing.stack.own)
      ensures var k := Classify(listing.config, Seen(old(listing.stack.Chain())), Cut(whole), dtype);
              && t == TypeOf(k)
              && Seen(listing.stack.Chain()) == Seen(old(listing.stack.Chain())) + Via(k)
      ensures ListingMembers.TypeTrue(listing.config, Cut(whole), dtype) ==>
                ReportedAs(listing.config, Seen(old(listing.stack.Chain())), Cut(whole), t)
    {
      hide DirectoryListing.Stacked, Seen, ClassifyByStat, ListingMembers.HasMode;
      listing.TopFacts();
      if ListingMembers.TypeTrue(listing.config, Cut(whole), dtype) {
        ListingMembers.ClassMeans(listing.config, Seen(listing.stack.Chain()), Cut(whole), dtype);
      }
      match dtype {
        case DtDir =>
          return ListDirectory;
        case DtBlk | DtChr | DtFifo | DtSock | DtReg =>
          return ListFile;
        case DtLnk =>
          if !listing.config.followLinks {
            return ListLink;
          }
        case DtUnknown =>
      }
      t := TypeByStat(listing, whole);
    }

    method TypeByStat(listing: DirectoryListing, ghost whole: CString) returns (t: ListType)
      requires listing.Stacked() && listing.top == this && link == Last(listing.stack.Chain())
      requires isOpen && listing.stack.own == []
      requires listing.pathBuffer.Valid() && listing.pathBuffer.Reads(Cut(whole))
      modifies this`link, listing`stack, listing`live
      ensures listing.Stacked() && link == Last(listing.stack.Chain())
      ensures listing.stack == old(listing.stack).(own := listing.stack.own)
      ensures var k := ClassifyByStat(listing.config, Seen(old(listing.stack.Chain())), Cut(whole));
              && t == TypeOf(k)
              && Seen(listing.stack.Chain()) == Seen(old(listing.stack.Chain())) + Via(k)
    {
      hide DirectoryListing.Stacked, Seen;
      listing.TopFacts();
      var path := listing.pathBuffer.AsString(Cut(whole));
      var info := listing.config.fs.lstat(path);
      if info == StatFailed {
        return ListError;
      }
      if listing.config.followLinks && info.mode == IsLink {
        var id := info.id;
        var found := listing.Scan(link, id);
        if found {
          return ListLink;
        }
        info := listing.config.fs.stat(path);
        if info == StatFailed || info.mode == NoType {
          return ListLink;
        }
        if info.mode == IsDirectory {
          AddLink(listing, id);
          return ListDirectory;
        }
      }
      return if info.mode == IsDirectory then ListDirectory else if info.mode == IsLink then ListLink else ListFile;
    }

    // ----- The directory stream -----

    /** `openat` and `fdopendir`, when they succeed. */
    method OpenStream(listing: DirectoryListing, entries: seq<Dirent>, fails: bool, ghost f: Frame)
      requires listing.Stacked() && listing.top == this && !isOpen && !done && listing.stack.own == []
      requires f == listing.stack.frame.(phase := Reading, path := f.path, rest := entries, fails := fails, depth := f.depth)
      requires listing.stack.frame.path <= f.path
      requires |f.path| == listing.pathBuffer.length
      modifies this`isOpen, this`rest, this`fails, this`pathLength, listing`stack
      ensures listing.Stacked() && isOpen && listing.stack == old(listing.stack).(frame := f)
    {
      hide Linked, Seen, Nodes, Stack.Settled;
      isOpen, rest, this.fails := true, entries, fails;
      pathLength := listing.pathBuffer.length;
      listing.stack := listing.stack.(frame := f);
    }

    /** `readdir`, when there is an entry left. */
    method TakeEntry(listing: DirectoryListing) returns (entry: Dirent)
      requires listing.Stacked() && listing.top == this && isOpen && !done && rest != []
      modifies this`rest, listing`stack
      ensures listing.Stacked() && rest == old(rest)[1..] && entry == old(rest)[0]
      ensures listing.stack == old(listing.stack).(frame := AfterEntry(old(listing.stack.frame)))
    {
      hide Linked, Seen, Nodes, Stack.Settled;
      entry := rest[0];
      rest := rest[1..];
      listing.stack := listing.stack.(frame := AfterEntry(listing.stack.frame));
    }

    method Finish(listing: DirectoryListing)
      requires listing.Stacked() && listing.top == this && !done
      modifies this`done, listing`stack
      ensures listing.Stacked() && done
      ensures listing.stack == old(listing.stack).(frame := old(listing.stack.frame).(phase := Finished))
    {
      hide Linked, Seen, Nodes, Stack.Settled;
      done := true;
      listing.stack := listing.stack.(frame := listing.stack.frame.(phase := Finished));
    }

    // ----- Next -----

    /** Sets the shared path buffer and the chain back to this entry's own. */
    method Rewind(listing: DirectoryListing)
      requires listing.Valid() && listing.top == this && isOpen && !done
      modifies this`link, listing`stack, listing`live, listing.pathBuffer`length, listing.pathBuffer.data
      ensures listing.Rewound() && listing.stack == old(listing.stack).(own := [])
    {
      hide DirectoryListing.Stacked, Seen, FramesOk, PathBuffer.Keeps, PathBuffer.Reads;
      listing.TopFacts();
      ghost var s := listing.stack;
      listing.pathBuffer.Reset(pathLength, s.frame.path);
      ResetLink(listing);
      listing.TopFacts();
      listing.UnderHeld();
      FramesOkOwn(listing.config, listing.bounds, s, listing.stack);
      assert listing.stack.Chain() == s.under.Chain();
    }

    /** The end of the stream, with or without an error. */
    method EndStream(listing: DirectoryListing) returns (t: ListType, ghost whole: CString)
      requires listing.Rewound() && listing.top == this && rest == []
      modifies this, listing`stack
      ensures listing.Valid() && listing.After(old(listing.stack), t, whole)
    {
      hide DirectoryListing.Stacked, Seen, Steps, FrameItems, FrameOk, PathBuffer.Keeps, PathBuffer.Reads;
      ghost var c, b, s := listing.config, listing.bounds, listing.stack;
      t, whole := if fails then ListError else ListDone, s.frame.path;
      EndStep(c, b, s.frame);
      Finish(listing);
      StepsSeen(c, b, s.frame, t, whole, {}, listing.stack.frame, Seen(listing.stack.Chain()));
    }

    /** Reads one entry; `name` is "." or ".." when it is a directory to be passed over. */
    method ReadEntry(listing: DirectoryListing) returns (t: ListType, ghost whole: CString, name: CString)
      requires listing.Rewound() && listing.top == this && rest != []
      modifies this, listing`stack, listing`live, listing.pathBuffer`length, listing.pathBuffer.data
      ensures listing.Valid()
      ensures t == ListDirectory ==> isOpen && !done && |rest| < |old(rest)|
      ensures listing.stack.Level? && listing.stack.under == old(listing.stack.under)
      ensures if t == ListDirectory && IsDots(name) then
                FrameItems(listing.config, listing.bounds, old(listing.stack.frame))
                == FrameItems(listing.config, listing.bounds, listing.stack.frame)
              else listing.After(old(listing.stack), t, whole)
    {
      hide DirectoryListing.Stacked, DirectoryListing.Buffered, Seen, Steps, FrameItems, FrameOk, PathBuffer.Keeps,
        PathBuffer.Reads, Listable, Classify;
      ghost var c, b, f := listing.config, listing.bounds, listing.stack.frame;
      var entry, ok := ShowEntry(listing);
      listing.TopFacts();
      name := entry.name;
      whole := Concat(f.path, name);
      if !ok {
        t := ListError;
        EndStep(c, b, f);
        EndEarly(listing, f, whole);
        listing.BufferedOn(f.path);
        return;
      }
      ReadStep(c, b, f);
      t := TypeOfEntry(listing, entry.dtype, whole);
      listing.TopFacts();
      listing.BufferedOn(f.path);
    }

    /** Takes the next entry and shows its path, if it fits. */
    method ShowEntry(listing: DirectoryListing) returns (entry: Dirent, ok: bool)
      requires listing.Rewound() && listing.top == this && rest != []
      modifies this`rest, listing`stack, listing.pathBuffer`length, listing.pathBuffer.data
      ensures listing.Stacked() && listing.pathBuffer.Valid() && listing.stack.Level?
      ensures entry == old(rest)[0] && rest == old(rest)[1..]
      ensures listing.stack == old(listing.stack).(frame := AfterEntry(old(listing.stack.frame)))
      ensures var path, whole := old(listing.stack.frame.path), Concat(old(listing.stack.frame.path), entry.name);
              && ok == (|whole| <= PATH_MAX) && listing.Holds(path) && listing.pathBuffer.Reads(Cut(whole))
              && (ok ==> listing.pathBuffer.Keeps(whole) && |whole| == listing.pathBuffer.length)
      ensures listing.stack.under.Level? ==> listing.Holds(listing.stack.under.frame.path)
    {
      hide DirectoryListing.Stacked, Seen, FrameOk, PathBuffer.Keeps, PathBuffer.Reads;
      ghost var path := listing.stack.frame.path;
      entry := TakeEntry(listing);
      ok := listing.pathBuffer.Add(entry.name, path);
      listing.TopFacts();
      listing.UnderHeld();
    }

    /** A name that does not fit ends the directory. */
    method EndEarly(listing: DirectoryListing, ghost f: Frame, ghost whole: CString)
      requires listing.Stacked() && listing.top == this && !done && listing.stack.Level?
      requires Listable(listing.config, listing.bounds)
      requires Steps(listing.config, listing.bounds, f, ListError, whole, {}, listing.stack.frame.(phase := Finished))
      modifies this`done, listing`stack
      ensures listing.Stacked() && done && listing.stack == old(listing.stack).(frame := listing.stack.frame)
      ensures listing.stack.frame == old(listing.stack.frame).(phase := Finished)
      ensures Steps(listing.config, listing.bounds, f, ListError, whole, Seen(listing.stack.Chain()), listing.stack.frame)
    {
      hide DirectoryListing.Stacked, Seen, Steps;
      Finish(listing);
      StepsSeen(listing.config, listing.bounds, f, ListError, whole, {}, listing.stack.frame, Seen(listing.stack.Chain()));
    }

    /** Reads the directory up to the next entry to report. */
    method Advance(listing: DirectoryListing) returns (t: ListType, ghost whole: CString)
      requires listing.Valid() && listing.top == this && isOpen && !done
      modifies this, listing`stack, listing`live, listing.pathBuffer`length, listing.pathBuffer.data
      ensures listing.Valid() && listing.After(old(listing.stack), t, whole)
      decreases |rest|
    {
      hide DirectoryListing.Stacked, Seen, Steps, FrameItems, FrameOk, PathBuffer.Keeps, PathBuffer.Reads;
      listing.TopFacts();
      ghost var c, b, f := listing.config, listing.bounds, listing.stack.frame;
      Rewind(listing);
      if rest == [] {
        t, whole := EndStream(listing);
        return;
      }
      var name;
      t, whole, name := ReadEntry(listing);
      if t == ListDirectory && IsDots(name) {
        ghost var g := listing.stack.frame;
        t, whole := Advance(listing);
        StepsSkip(c, b, f, g, t, whole, Seen(listing.stack.Chain()), listing.stack.frame);
      }
    }

    method Next(listing: DirectoryListing) returns (t: ListType, ghost whole: CString)
      requires listing.Valid() && listing.top == this
      modifies this, listing`stack, listing`live, listing.pathBuffer`length, listing.pathBuffer.data
      ensures listing.Valid() && listing.After(old(listing.stack), t, whole)
    {
      hide DirectoryListing.Stacked, Seen, Steps, FrameItems, FrameOk, PathBuffer.Keeps, PathBuffer.Reads;
      listing.TopFacts();
      ghost var c, b, f := listing.config, listing.bounds, listing.stack.frame;
      if done {
        DoneStep(c, b, f, "", Seen(listing.stack.Chain()));
        return ListDone, "";
      }
      if !isOpen {
        OpenStep(c, b, f);
        var ok := Open(listing);
        if !ok {
          StepsSeen(c, b, f, ListError, f.path, {}, listing.stack.frame, Seen(listing.stack.Chain()));
          return ListError, f.path;
        }
      }
      ghost var g := listing.stack.frame;
      t, whole := Advance(listing);
      StepsSkip(c, b, f, g, t, whole, Seen(listing.stack.Chain()), listing.stack.frame);
    }

    /** Opens the directory whose path the buffer shows, and adds the separator below the root. */
    method Open(listing: DirectoryListing) returns (ok: bool)
      requires listing.Valid() && listing.top == this && !isOpen && !done
      modifies this, listing`stack, listing.pathBuffer`length, listing.pathBuffer.data
      ensures listing.Valid()
      ensures var f := old(listing.stack.frame);
              var stream := listing.config.fs.open(Cut(f.path));
              && ok == stream.Stream? && ok == isOpen && done == !ok
              && listing.stack == old(listing.stack).(frame :=
                                  if ok then Opened(f, stream.entries, stream.fails, listing.bounds.depth(Cut(f.path)))
                                  else f.(phase := Finished))
              && (!ok ==> listing.pathBuffer.Reads(Cut(f.path)))
    {
      hide DirectoryListing.Stacked, Seen, Steps, FrameItems, FrameOk, PathBuffer.Keeps, PathBuffer.Reads;
      listing.TopFacts();
      ghost var c, b, s := listing.config, listing.bounds, listing.stack;
      ghost var f := s.frame;
      OpenStep(c, b, f);
      listing.FreshOwnsNothing();
      var path := listing.pathBuffer.AsString(Cut(f.path));
      var stream := listing.config.fs.open(path);
      if stream.OpenFailed? {
        Finish(listing);
        StepsSeen(c, b, f, ListError, f.path, {}, listing.stack.frame, {});
        return false;
      }
      if parent != null {
        var added := listing.pathBuffer.Add("/", f.path);
        assert added;
      }
      OpenStream(listing, stream.entries, stream.fails, Opened(f, stream.entries, stream.fails, b.depth(Cut(f.path))));
      listing.TopFacts();
      listing.UnderHeld();
      return true;
    }
  }

  class DirectoryListing {
    const config: Config
    const pathBuffer: PathBuffer
    var top: DirectoryListingEntry?
    var error: bool
    /** The response being filled. */
    var response: array<Cell>
    var index: int
    var length: int
    ghost var sent: seq<Item>
    ghost const bounds: Bounds
    ghost var stack: Stack
    /** The nodes made by `new` and not yet given to `delete`. */
    ghost var live: set<LinkList>
    ghost var below: set<DirectoryListingEntry>

    /** The stack, and which entry owns which allocated link. */
    ghost predicate Stacked()
      reads this`top, this`stack, this`live, this`below, top, below
    {
      && top == stack.Top() && top !in below
      && Linked(stack.Chain()) && live == Nodes(stack.Chain())
      && (stack.Level? ==>
            && stack.OnTop()
            // The top entry takes over its parent's link when it first reads.
            && (top.link == Last(stack.Chain()) || (top.link == null && stack.own == []))
            && stack.under.Settled(below))
    }

    /** The buffer starts with this path. */
    ghost predicate Holds(path: CString)
      requires pathBuffer.Valid()
      reads pathBuffer, pathBuffer.data
    {
      pathBuffer.Keeps(path) && |path| <= pathBuffer.length
    }

    /** The shared buffer starts with the own path of the directory on top, and of the one below it. */
    ghost predicate Buffered()
      reads this`stack, pathBuffer, pathBuffer.data
    {
      && pathBuffer.Valid()
      && (stack.Level? ==>
            && (stack.frame.phase != Finished ==> Holds(stack.frame.path))
            && (stack.under.Level? ==> Holds(stack.under.frame.path))
            && (stack.frame.phase == Fresh ==>
                  |stack.frame.path| == pathBuffer.length && pathBuffer.Reads(Cut(stack.frame.path))))
    }

    ghost predicate Valid()
      reads this`top, this`stack, this`live, this`below, top, below, pathBuffer, pathBuffer.data
    {
      Stacked() && pathBuffer.Valid() && Buffered() && Listable(config, bounds) && FramesOk(config, bounds, stack)
    }

    /** The buffer and the chain are the top entry's own. */
    ghost predicate Rewound()
      reads this`top, this`stack, this`live, this`below, top, below, pathBuffer, pathBuffer.data
    {
      && Valid() && stack.Level? && top == stack.entry
      && top.isOpen && !top.done && top.link == Last(stack.Chain())
      && var f := stack.frame;
      && f.phase == Reading && f.rest == top.rest && f.fails == top.fails && stack.own == []
      && f.seen == Seen(stack.Chain())
      && |f.path| == pathBuffer.length && pathBuffer.Keeps(f.path) && pathBuffer.Reads(Cut(f.path))
    }

    /** The top entry has produced `t`, and the buffer shows `whole`. */
    ghost predicate After(before: Stack, t: ListType, whole: CString)
      requires Valid()
      reads this`top, this`stack, this`live, this`below, top, below, pathBuffer, pathBuffer.data
    {
      && before.Level? && stack.Level? && stack.under == before.under
      && (t != ListDone ==> pathBuffer.Reads(Cut(whole)))
      && Steps(config, bounds, before.frame, t, whole, Seen(stack.Chain()), stack.frame)
      && (t == ListDirectory ==>
            && pathBuffer.Keeps(whole) && |whole| == pathBuffer.length && top.link == Last(stack.Chain())
            && stack.frame.phase == Reading && stack.frame.path <= whole)
    }

    lemma TopFacts()
      requires Stacked() && (top != null || stack.Level?)
      ensures top != null && stack.Level? && top == stack.entry && top.Stores(stack.frame)
      ensures stack.frame.seen == Seen(stack.under.Chain())
      ensures stack.under.Level? ==> stack.under.frame.path <= stack.frame.path
      ensures Linked(stack.Chain()) && live == Nodes(stack.Chain())
    {
    }

    lemma FreshOwnsNothing()
      requires Stacked() && top != null && !top.isOpen
      ensures stack.own == [] && top.parent == stack.under.Top() && stack.frame.root == stack.under.Empty?
    {
    }

    /** The path of the directory below is a prefix of the one on top. */
    lemma UnderHeld()
      requires stack.Level? && pathBuffer.Valid() && Holds(stack.frame.path)
      requires stack.under.Level? ==> stack.under.frame.path <= stack.frame.path
      ensures stack.under.Level? ==> Holds(stack.under.frame.path)
    {
      if stack.under.Level? {
        pathBuffer.KeepsShorter(stack.under.frame.path, stack.frame.path);
      }
    }

    /** What makes the buffer fit a stack whose top directory is open. */
    lemma BufferedOn(path: CString)
      requires stack.Level? && stack.frame.phase != Fresh && stack.frame.path == path
      requires pathBuffer.Valid() && Holds(path) && (stack.under.Level? ==> Holds(stack.under.frame.path))
      ensures Buffered()
    {
    }

    /** The buffer starts with the own path of every entry from here down, and each knows its length. */
    ghost predicate PathsHeld(s: Stack)
      requires pathBuffer.Valid()
      reads pathBuffer, pathBuffer.data, EntriesOf(s)
    {
      s.Level? ==> Holds(s.frame.path) && s.entry.pathLength == |s.frame.path| && PathsHeld(s.under)
    }

    lemma {:induction false} PathsHeldBelow(s: Stack, es: set<DirectoryListingEntry>)
      requires pathBuffer.Valid() && s.Settled(es) && (s.Level? ==> Holds(s.frame.path))
      ensures PathsHeld(s)
      decreases s
    {
      if s.Level? {
        if s.under.Level? {
          pathBuffer.KeepsShorter(s.under.frame.path, s.frame.path);
        }
        PathsHeldBelow(s.under, es - {s.entry});
      }
    }

    /** At every time every opened directory on the stack finds its own path at the start of the buffer. */
    lemma EveryPathHeld()
      requires Valid() && stack.Level?
      ensures PathsHeld(if stack.frame.phase == Reading then stack else stack.under)
    {
      hide PathBuffer.Keeps, PathBuffer.Reads, FramesOk, Listable, Linked, Seen, Nodes;
      PathsHeldBelow(stack.under, below);
    }

    /**
     A listing of `dir`, unless its name is too long for the buffer.
     */
    constructor (config: Config, ghost bounds: Bounds, dir: CString)
      requires Listable(config, bounds) && RootListable(config, bounds, dir)
      ensures this.config == config && this.bounds == bounds
      ensures error <==> |dir| > PATH_MAX
      ensures !error ==> Valid() && top != null && Remaining() == Listing(config, bounds, dir)
      ensures fresh(pathBuffer) && fresh(pathBuffer.data) && response.Length == 0
      ensures (top != null ==> fresh(top)) && below == {}
    {
      hide FrameItems, StackItems, Listing, FramesOk, Listable, RootListable;
      hide PathBuffer.Keeps, PathBuffer.Reads, Stacked, Buffered;
      this.config, this.bounds := config, bounds;
      pathBuffer := new PathBuffer();
      error, stack, live, below, top := false, Empty, {}, {}, null;
      response, index, length, sent := new Cell[0], 0, 0, [];
      new;
      var ok := pathBuffer.Add(dir, "");
      assert Concat("", dir) == dir;
      if !ok {
        error := true;
      }
      var root := new DirectoryListingEntry(null);
      top := root;
      stack := Level(root, Frame(true, Fresh, dir, [], false, {}, 0), [], Empty);
      RootStacked();
      if !error {
        RootBuffered();
      }
      RootItems(config, bounds, stack);
    }

    lemma RootBuffered()
      requires stack.Level? && stack.under.Empty? && stack.frame.phase == Fresh && pathBuffer.Valid()
      requires pathBuffer.Keeps(stack.frame.path) && pathBuffer.Reads(Cut(stack.frame.path))
      requires |stack.frame.path| == pathBuffer.length
      ensures Buffered()
    {
    }

    /** A root entry alone makes a stack. */
    lemma RootStacked()
      requires top != null && top.parent == null && !top.isOpen && !top.done && top.link == null
      requires below == {} && live == {} && stack.Level? && stack.frame.root && stack.frame.phase == Fresh
      requires stack == Level(top, stack.frame, [], Empty) && stack.frame.seen == {}
      ensures Stacked()
    {
      assert stack.Chain() == [];
    }

    /** Everything the listing has yet to report. */
    ghost function Remaining(): seq<Item>
      requires Listable(config, bounds) && FramesOk(config, bounds, stack)
      reads this`stack
    {
      if stack.Empty? then [] else StackItems(config, bounds, stack)
    }

    // ----- Links -----

    /** The top entry's link differs from the parent's exactly when the entry added it. */
    lemma TopLink()
      requires Stacked() && top != null
      ensures (top.link != null && (top.parent == null || top.parent.link != top.link)) <==> stack.own != []
      ensures stack.own != [] ==> top.link == Last(stack.own)
      ensures Linked(stack.under.Chain())
      ensures top.parent != null ==> top.parent.link == Last(stack.under.Chain()) && top.parent != top
      ensures top.parent == null ==> stack.under.Chain() == []
    {
      var chain, under := stack.Chain(), stack.under.Chain();
      if stack.own != [] {
        assert chain[..|chain| - 1] == under;
        assert under != [] ==> under[|under| - 1].id in Seen(under);
      } else {
        assert chain == under;
      }
    }

    /** What the top entry owns is allocated, and nothing else of the chain is the same node. */
    lemma OwnNodes()
      requires Stacked() && top != null
      ensures stack.own != [] ==> top.link != null && Nodes(stack.own) == {top.link} && top.link in live
      ensures stack.own == [] ==> Nodes(stack.own) == {}
      ensures live - Nodes(stack.own) == Nodes(stack.under.Chain())
    {
      var chain, under := stack.Chain(), stack.under.Chain();
      if stack.own != [] {
        var link := stack.own[0];
        assert stack.own == [link] && chain == under + [link] && chain[..|chain| - 1] == under;
        NodesExtend(under, link);
        assert [link][..0] == [];
      } else {
        assert chain == under;
      }
    }

    /** `delete link_`: a node can be freed once only. */
    method Delete(link: LinkList)
      requires link in live
      modifies this`live
      ensures live == old(live) - {link}
    {
      live := live - {link};
    }

    /** The scan of the chain for a given identity; every node looked at is allocated. */
    method Scan(link: LinkList?, id: LinkId) returns (found: bool)
      requires Linked(stack.Chain()) && live == Nodes(stack.Chain()) && link == Last(stack.Chain())
      ensures found <==> id in Seen(stack.Chain())
    {
      hide Linked, Seen, Nodes;
      ghost var chain := stack.Chain();
      ghost var n := |chain|;
      var previous := link;
      assert chain[..n] == chain;
      while previous != null
        invariant 0 <= n <= |chain| && previous == Last(chain[..n]) && Linked(chain[..n]) && Nodes(chain[..n]) <= live
        invariant forall k :: n <= k < |chain| ==> chain[k].id != id
        decreases n
      {
        assert previous == chain[n - 1] && chain[..n][..n - 1] == chain[..n - 1];
        LastNode(chain[..n]);
        assert previous in live;
        if previous.id == id {
          SeenAt(chain, id);
          return true;
        }
        previous := previous.next;
        n := n - 1;
      }
      SeenAt(chain, id);
      return false;
    }

    // ----- The stack -----

    method Push(directory: DirectoryListingEntry, ghost whole: CString)
      requires Valid() && stack.Level? && stack.frame.phase == Reading && top.link == Last(stack.Chain())
      requires directory.parent == top && directory !in below && directory != top
      requires !directory.isOpen && !directory.done && directory.link == null
      requires stack.frame.path <= whole && |whole| == pathBuffer.length
      requires pathBuffer.Keeps(whole) && pathBuffer.Reads(Cut(whole))
      requires |whole| >= PATH_MAX ==> config.fs.open(Cut(whole)).OpenFailed?
      modifies this`top, this`stack, this`below
      ensures Valid() && top == directory && below == old(below) + {old(top)}
      ensures Remaining() == ListBelow(config, bounds, whole, Seen(old(stack.Chain()))) + old(Remaining())
      ensures stack.Level? && stack.under == old(stack)
    {
      hide Stacked, Seen, PathBuffer.Keeps, PathBuffer.Reads, ListBelow, Listable;
      TopFacts();
      PushEntry(directory, whole);
      UnderHeld();
    }

    method PushEntry(directory: DirectoryListingEntry, ghost whole: CString)
      requires Stacked() && stack.Level? && stack.frame.phase == Reading && top.link == Last(stack.Chain())
      requires directory.parent == top && directory !in below && directory != top && stack.frame.path <= whole
      requires !directory.isOpen && !directory.done && directory.link == null
      modifies this`top, this`stack, this`below
      ensures Stacked() && top == directory && below == old(below) + {old(top)}
      ensures stack == Level(directory, Frame(false, Fresh, whole, [], false, Seen(old(stack.Chain())), 0), [], old(stack))
    {
      hide Linked, Seen, Nodes;
      ghost var s, es := stack, below;
      below := below + {top};
      top := directory;
      stack := Level(directory, Frame(false, Fresh, whole, [], false, Seen(s.Chain()), 0), [], s);
      assert below - {s.entry} == es;
      assert stack.Chain() == s.Chain();
    }

    /** Removes the top entry and frees its link. */
    method Pop()
      requires Stacked() && top != null
      modifies this`top, this`stack, this`live, this`below, top`link
      ensures Stacked() && stack == old(stack.under) && top == stack.Top()
      ensures live == old(live - Nodes(stack.own))
      ensures below == if top == null then old(below) else old(below) - {top}
      ensures top != null ==> top in old(below) && stack.frame.phase == Reading
    {
      hide Linked, Seen, Nodes;
      var current := top;
      current.ResetLink(this);
      ghost var s := stack.under;
      assert stack.Chain() == s.Chain();
      top := current.parent;
      stack := s;
      below := if top == null then below else below - {top};
    }

    predicate IsEmpty()
      reads this
    {
      top == null
    }

    /** Ends the listing early: every allocated link is freed. */
    method PopAll()
      requires Stacked()
      modifies this`top, this`stack, this`live, this`below, top, below
      ensures top == null && stack == Empty && live == {}
    {
      hide Stacked;
      while !IsEmpty()
        invariant Stacked() && Entries() <= old(Entries())
        decreases stack
      {
        TopFacts();
        Pop();
      }
      NothingLive();
    }

    /** An empty stack leaves nothing allocated. */
    lemma NothingLive()
      requires Stacked() && top == null
      ensures stack == Empty && live == {}
    {
    }

    ghost function Entries(): set<DirectoryListingEntry>
      reads this`top, this`below
    {
      below + if top == null then {} else {top}
    }

    // ----- The response -----

    ghost predicate Responding()
      reads this, response
    {
      && 0 <= index <= length == response.Length && length % 2 == 0
      && index == 2 * |sent| && response[..index] == Encode(sent)
    }

    method SetArray(size: int)
      requires size >= 0 && size % 2 == 0
      modifies this`response, this`index, this`length, this`sent
      ensures Responding() && fresh(response) && length == size && sent == []
    {
      response := new Cell[size](_ => Unset);
      index, length, sent := 0, size, [];
    }

    /** Stores an item in the next two slots; tells whether there is room for another. */
    method Respond(t: ListType, cell: Cell, ghost item: Item) returns (more: bool)
      requires Responding() && index < length && Cells(item) == [Tag(Code(t)), cell]
      modifies this`index, this`sent, response
      ensures Responding() && sent == old(sent) + [item]
      ensures more <==> index < length
    {
      ghost var before := response[..index];
      response[index] := Tag(Code(t));
      index := index + 1;
      response[index] := cell;
      index := index + 1;
      sent := sent + [item];
      assert sent[..|sent| - 1] == old(sent);
      assert response[..index] == before + [Tag(Code(t)), cell];
      return index < length;
    }

    method HandleFile(path: CString) returns (more: bool)
      requires Responding() && index < length
      modifies this`index, this`sent, response
      ensures Responding() && sent == old(sent) + [Entity(File, path)] && (more <==> index < length)
    {
      more := Respond(ListFile, Text(path), Entity(File, path));
    }

    method HandleDirectory(path: CString) returns (more: bool)
      requires Responding() && index < length
      modifies this`index, this`sent, response
      ensures Responding() && sent == old(sent) + [Entity(Directory, path)] && (more <==> index < length)
    {
      more := Respond(ListDirectory, Text(path), Entity(Directory, path));
    }

    method HandleLink(path: CString) returns (more: bool)
      requires Responding() && index < length
      modifies this`index, this`sent, response
      ensures Responding() && sent == old(sent) + [Entity(Link, path)] && (more <==> index < length)
    {
      more := Respond(ListLink, Text(path), Entity(Link, path));
    }

    method HandleError(path: CString) returns (more: bool)
      requires Responding() && index < length
      modifies this`index, this`sent, response
      ensures Responding() && sent == old(sent) + [Error(path)] && (more <==> index < length)
    {
      more := Respond(ListError, Failure(path), Error(path));
    }

    method HandleDone()
      requires Responding() && index < length
      modifies this`index, this`sent, response
      ensures Responding() && sent == old(sent) + [Done]
    {
      var more := Respond(ListDone, Null, Done);
    }

    // ----- Listing -----

    /** The steps left: each reports an item or leaves a directory. */
    ghost function Work(): nat
      requires Listable(config, bounds) && FramesOk(config, bounds, stack)
      reads this`stack
    {
      2 * |Remaining()| + stack.Depth()
    }

    /** One step: what was sent and what remains never changes. */
    method ListNext() returns (more: bool)
      requires Valid() && top != null && Responding() && index < length
      modifies this`top, this`stack, this`live, this`below, this`index, this`sent, response
      modifies top, below, pathBuffer`length, pathBuffer.data
      ensures Valid() && Responding() && fresh(Entries() - old(Entries()))
      ensures sent + Remaining() == old(sent + Remaining())
      ensures more <==> top != null && index < length
      ensures Work() < old(Work())
    {
      hide Stacked, Buffered, FramesOk, FrameItems, StackItems, Steps, Seen, ListBelow, Listable, Encode, Emitted,
        PathBuffer.Keeps, PathBuffer.Reads;
      TopFacts();
      ghost var c, b, s := config, bounds, stack;
      var t, whole := top.Next(this);
      StepItems(c, b, s, t, whole, Seen(stack.Chain()), stack);
      if t == ListDone {
        more := Leave();
        return;
      }
      more := Report(t, whole);
      Conserved(old(sent), Emitted(t, whole), Remaining());
    }

    /** Reports an item, after entering the directory that it stands for. */
    method Report(t: ListType, ghost whole: CString) returns (more: bool)
      requires Valid() && top != null && Responding() && index < length && t != ListDone && stack.Level?
      requires pathBuffer.Reads(Cut(whole))
      requires t == ListDirectory ==>
                 && stack.frame.phase == Reading && top.link == Last(stack.Chain()) && stack.frame.path <= whole
                 && |whole| == pathBuffer.length && pathBuffer.Keeps(whole)
                 && (config.recursive && |whole| >= PATH_MAX ==> config.fs.open(Cut(whole)).OpenFailed?)
      modifies this`top, this`stack, this`below, this`index, this`sent, response
      ensures Valid() && Responding() && fresh(Entries() - old(Entries())) && top != null && stack.Level?
      ensures sent == old(sent) + Emitted(t, whole) && (more <==> index < length)
      ensures Remaining() == (if t == ListDirectory && config.recursive
                              then ListBelow(config, bounds, whole, Seen(old(stack.Chain()))) else []) + old(Remaining())
      ensures stack.Depth() <= old(stack.Depth()) + if t == ListDirectory then 1 else 0
    {
      hide Stacked, Buffered, FramesOk, FrameItems, StackItems, Seen, ListBelow, Listable, Encode, Emitted,
        PathBuffer.Keeps, PathBuffer.Reads;
      if t == ListDirectory {
        Enter(whole);
      }
      more := Handle(t, whole);
    }

    /** Reports what the buffer shows. */
    method Handle(t: ListType, ghost whole: CString) returns (more: bool)
      requires Responding() && index < length && pathBuffer.Valid() && pathBuffer.Reads(Cut(whole)) && t != ListDone
      modifies this`index, this`sent, response
      ensures Responding() && sent == old(sent) + Emitted(t, whole)
      ensures more <==> index < length
    {
      hide Encode;
      var path := pathBuffer.AsString(Cut(whole));
      match t {
        case ListFile =>
          more := HandleFile(path);
        case ListLink =>
          more := HandleLink(path);
        case ListDirectory =>
          more := HandleDirectory(path);
        case ListError =>
          more := HandleError(path);
      }
    }

    /** Leaves a directory that has nothing more to report; after the last one the listing is done. */
    method Leave() returns (more: bool)
      requires Valid() && top != null && stack.frame.phase == Finished
      requires Responding() && index < length
      modifies this`top, this`stack, this`live, this`below, top`link, this`index, this`sent, response
      ensures Valid() && Entries() <= old(Entries()) && Responding()
      ensures stack == old(stack.under) && (more <==> top != null && index < length)
      ensures sent + Remaining() == old(sent) + StackItems(config, bounds, old(stack.under))
      ensures more ==> Remaining() == StackItems(config, bounds, stack)
      ensures !more ==> Remaining() == []
    {
      hide FrameOk, StackItems, Encode, PathBuffer.Keeps, PathBuffer.Reads;
      PopFinished();
      if IsEmpty() {
        EmptyItems(config, bounds);
        HandleDone();
        return false;
      } else {
        return true;
      }
    }

    method PopFinished()
      requires Valid() && top != null && stack.frame.phase == Finished
      modifies this`top, this`stack, this`live, this`below, top`link
      ensures Valid() && stack == old(stack.under) && top == stack.Top() && Entries() <= old(Entries())
    {
      hide Stacked, FrameOk, PathBuffer.Keeps, PathBuffer.Reads;
      TopFacts();
      Pop();
      if stack.Level? {
        TopFacts();
        UnderHeld();
      }
    }

    /** `Directory::List`: steps until the response is full or the listing has ended. */
    method List()
      requires !error ==> Valid() && top != null
      requires Responding() && (if error then index + 4 <= length else index < length)
      modifies this`top, this`stack, this`live, this`below, this`index, this`sent, response
      modifies top, below, pathBuffer`length, pathBuffer.data
      ensures Responding()
      ensures error ==> sent == old(sent) + [Error("Invalid path"), Done]
      ensures !error ==>
                && Valid() && fresh(Entries() - old(Entries()))
                && sent + Remaining() == old(sent + Remaining())
                && (top == null || index == length)
    {
      hide Stacked, Buffered, FramesOk, StackItems, Listable, Encode;
      if error {
        var more := HandleError("Invalid path");
        HandleDone();
      } else {
        var more := ListNext();
        while more
          invariant Valid() && Responding() && fresh(Entries() - old(Entries()))
          invariant response == old(response) && length == old(length)
          invariant sent + Remaining() == old(sent + Remaining())
          invariant more <==> top != null && index < length
          decreases Work()
        {
          more := ListNext();
        }
      }
    }

    /**
     `Directory::ListNextRequest` with a response of `size` slots: nothing when the listing has
     ended, else the next items, as many as fit or all that are left.
     */
    method ListNextRequest(size: int) returns (cells: seq<Cell>, ghost items: seq<Item>)
      requires Valid() && !error && size >= 2 && size % 2 == 0
      modifies this, top, below, pathBuffer`length, pathBuffer.data
      ensures Valid() && !error && fresh(Entries() - old(Entries()))
      ensures cells == Encode(items) && |cells| <= size
      ensures items + Remaining() == old(Remaining())
      ensures old(top) == null ==> items == []
      ensures old(top) != null ==> items != [] && (top == null || |cells| == size)
      ensures top == null ==> live == {}
    {
      hide Stacked, Buffered, FramesOk, StackItems, Listable, Encode;
      if IsEmpty() {
        EmptyRemaining();
        NothingLive();
        return [], [];
      }
      SetArray(size);
      TopFacts();
      SomethingLeft(config, bounds, stack);
      ghost var before := Remaining();
      assert [] + before == before;
      List();
      cells, items := response[..index], sent;
      ItemsLeft(before);
      if IsEmpty() {
        NothingLive();
      }
    }

    lemma EmptyRemaining()
      requires Valid() && top == null
      ensures Remaining() == []
    {
    }

    lemma ItemsLeft(before: seq<Item>)
      requires Valid() && sent + Remaining() == before
      ensures top == null && before != [] ==> sent != []
    {
    }

    /** Pushes an entry for the subdirectory whose path the buffer shows, in a recursive listing. */
    method Enter(ghost whole: CString)
      requires Valid() && top != null && stack.frame.phase == Reading && top.link == Last(stack.Chain())
      requires stack.frame.path <= whole && |whole| == pathBuffer.length
      requires pathBuffer.Keeps(whole) && pathBuffer.Reads(Cut(whole))
      requires config.recursive && |whole| >= PATH_MAX ==> config.fs.open(Cut(whole)).OpenFailed?
      modifies this`top, this`stack, this`below
      ensures Valid() && stack.Level? && top != null && stack.Depth() <= old(stack.Depth()) + 1
      ensures fresh(Entries() - old(Entries()))
      ensures StackItems(config, bounds, stack)
           == (if config.recursive then ListBelow(config, bounds, whole, Seen(old(stack.Chain()))) else [])
              + old(StackItems(config, bounds, stack))
    {
      hide Stacked, Buffered, FramesOk, StackItems, Listable, PathBuffer.Keeps, PathBuffer.Reads;
      TopFacts();
      if config.recursive {
        var directory := new DirectoryListingEntry(top);
        Push(directory, whole);
      }
    }
  }

  lemma Conserved(sent: seq<Item>, emitted: seq<Item>, rest: seq<Item>)
    ensures (sent + emitted) + rest == sent + (emitted + rest)
  {
  }

  // ---------- The whole listing ----------

  function Flatten(batches: seq<seq<Cell>>): seq<Cell> {
    if batches == [] then [] else Flatten(batches[..|batches| - 1]) + batches[|batches| - 1]
  }

  lemma EncodeNone()
    ensures Encode([]) == []
  {
  }

  lemma EncodeLast(items: seq<Item>)
    requires items != []
    ensures Encode(items) == Encode(items[..|items| - 1]) + Cells(items[|items| - 1])
  {
  }

  lemma {:induction false} EncodeConcat(a: seq<Item>, b: seq<Item>)
    ensures Encode(a + b) == Encode(a) + Encode(b)
    decreases |b|
  {
    hide Cells, Encode;
    if b == [] {
      EncodeNone();
      assert a + b == a;
    } else {
      var n := |b| - 1;
      EncodeConcat(a, b[..n]);
      assert (a + b)[..|a| + n] == a + b[..n] && (a + b)[|a| + n] == b[n];
      EncodeLast(a + b);
      EncodeLast(b);
      assert Encode(a) + (Encode(b[..n]) + Cells(b[n])) == (Encode(a) + Encode(b[..n])) + Cells(b[n]);
    }
  }

  /**
   Repeated requests, until the listing has ended: the responses together are the listing, and
   all but the last are full.
   */
  method ListAll(config: Config, ghost bounds: Bounds, dir: CString, size: int) returns (batches: seq<seq<Cell>>)
    requires Listable(config, bounds) && RootListable(config, bounds, dir) && |dir| <= PATH_MAX
    requires size >= 2 && size % 2 == 0
    ensures Flatten(batches) == Encode(Listing(config, bounds, dir))
    ensures Heard(Flatten(batches)) == Listing(config, bounds, dir)
    ensures forall i :: 0 <= i < |batches| ==> 0 < |batches[i]| <= size
    ensures forall i :: 0 <= i < |batches| - 1 ==> |batches[i]| == size
  {
    hide Listable, RootListable, Listing, Encode, Heard, FramesOk, StackItems;
    hide DirectoryListing.Stacked, DirectoryListing.Buffered;
    var listing := new DirectoryListing(config, bounds, dir);
    ghost var all: seq<Item> := [];
    batches := [];
    EncodeConcat([], []);
    assert [] + listing.Remaining() == listing.Remaining();
    while !listing.IsEmpty()
      invariant listing.Valid() && !listing.error && fresh(listing) && fresh(listing.Entries())
      invariant fresh(listing.pathBuffer) && fresh(listing.pathBuffer.data)
      invariant listing.config == config && listing.bounds == bounds
      invariant all + listing.Remaining() == Listing(config, bounds, dir)
      invariant Flatten(batches) == Encode(all)
      invariant forall i :: 0 <= i < |batches| ==> 0 < |batches[i]| <= size
      invariant forall i :: 0 <= i < |batches| - 1 ==> |batches[i]| == size
      invariant batches != [] && !listing.IsEmpty() ==> |batches[|batches| - 1]| == size
      decreases |listing.Remaining()|
    {
      ghost var before := listing.Remaining();
      var cells, items := listing.ListNextRequest(size);
      EncodeConcat(all, items);
      Conserved(all, items, listing.Remaining());
      assert (batches + [cells])[..|batches|] == batches;
      all := all + items;
      batches := batches + [cells];
    }
    listing.EmptyRemaining();
    assert all + [] == all;
    HeardAll(all);
  }

  lemma EmptyItems(c: Config, b: Bounds)
    requires Listable(c, b)
    ensures FramesOk(c, b, Empty) && StackItems(c, b, Empty) == [Done]
  {
  }

  lemma SomethingLeft(c: Config, b: Bounds, s: Stack)
    requires Listable(c, b) && FramesOk(c, b, s)
    ensures StackItems(c, b, s) != []
  {
  }

  /** What the stack had to produce, after its top entry has produced `t`. */
  lemma StepItems(c: Config, b: Bounds, before: Stack, t: ListType, whole: CString, seen: set<LinkId>, after: Stack)
    requires Listable(c, b) && FramesOk(c, b, before) && FramesOk(c, b, after)
    requires before.Level? && after.Level? && before.under == after.under
    requires Steps(c, b, before.frame, t, whole, seen, after.frame)
    ensures t == ListDirectory && c.recursive && |whole| >= PATH_MAX ==> c.fs.open(Cut(whole)).OpenFailed?
    ensures t == ListDone ==> after.frame.phase == Finished && StackItems(c, b, before) == StackItems(c, b, after.under)
    ensures StackItems(c, b, before) ==
            Emitted(t, whole)
            + ((if t == ListDirectory && c.recursive then ListBelow(c, b, whole, seen) else [])
               + StackItems(c, b, after))
    ensures before.Depth() == after.Depth() == after.under.Depth() + 1 && (t == ListDone || |Emitted(t, whole)| == 1)
  {
    hide FrameItems, FrameOk, ListBelow, Listable;
    EmittedOne(t, whole);
    var below := if t == ListDirectory && c.recursive then ListBelow(c, b, whole, seen) else [];
    var own := if t == ListDone then [] else FrameItems(c, b, after.frame);
    Regrouped(Emitted(t, whole), below, own, StackItems(c, b, after.under));
    FinishedItems(c, b, after.frame);
  }

  lemma EmittedOne(t: ListType, whole: CString)
    ensures t == ListDone || |Emitted(t, whole)| == 1
    ensures t == ListDone ==> Emitted(t, whole) == []
  {
  }

  lemma FinishedItems(c: Config, b: Bounds, f: Frame)
    requires Listable(c, b) && FrameOk(c, b, f)
    ensures f.phase == Finished ==> FrameItems(c, b, f) == []
  {
  }

  lemma Regrouped(a: seq<Item>, b: seq<Item>, c: seq<Item>, d: seq<Item>)
    ensures (a + b + c) + d == a + (b + (c + d))
  {
  }
}
