/**
 What a directory listing must produce: the recursive preorder of `DirectoryListing`, as a
 function of an unchanging file system. The file system is what the system calls answer.
 */
module ListingSpec {
  import opened PathBuffers

  // ---------- The file system as seen through system calls ----------

  datatype DType = DtBlk | DtChr | DtFifo | DtSock | DtReg | DtDir | DtLnk | DtUnknown

  datatype Dirent = Dirent(name: CString, dtype: DType)

  /** The file type bits of a mode; `NoType` when they are all clear. */
  datatype Mode = IsDirectory | IsLink | IsOther | NoType

  type LinkId = (int, int)

  datatype Stat = StatFailed | Stat(id: LinkId, mode: Mode)

  /** The entries that `readdir` yields, in order, and whether it then fails or ends. */
  datatype Stream = OpenFailed | Stream(entries: seq<Dirent>, fails: bool)

  datatype FileSystem = FileSystem(
    open: CString -> Stream,
    lstat: CString -> Stat,
    stat: CString -> Stat)

  datatype Config = Config(fs: FileSystem, recursive: bool, followLinks: bool)

  // ---------- One entry ----------

  datatype Class = AsFile | AsLink | AsError | AsDirectory(via: set<LinkId>)

  /** How an entry is reported; a directory reached through a link carries the link's identity. */
  function Classify(c: Config, seen: set<LinkId>, path: CString, dtype: DType): Class {
    match dtype
    case DtDir => AsDirectory({})
    case DtBlk | DtChr | DtFifo | DtSock | DtReg => AsFile
    case DtLnk => if c.followLinks then ClassifyByStat(c, seen, path) else AsLink
    case DtUnknown => ClassifyByStat(c, seen, path)
  }

  function ClassifyByStat(c: Config, seen: set<LinkId>, path: CString): Class {
    match c.fs.lstat(path)
    case StatFailed => AsError
    case Stat(id, mode) =>
      if c.followLinks && mode == IsLink then
        // A looping or broken link is reported as a link.
        if id in seen then AsLink
        else match c.fs.stat(path)
             case StatFailed => AsLink
             case Stat(_, NoType) => AsLink
             case Stat(_, IsDirectory) => AsDirectory({id})
             case Stat(_, m) => ClassifyMode(m)
      else ClassifyMode(mode)
  }

  function ClassifyMode(mode: Mode): Class {
    match mode
    case IsDirectory => AsDirectory({})
    case IsLink => AsLink
    case _ => AsFile
  }

  predicate IsDots(name: string) {
    name == "." || name == ".."
  }

  // ---------- The file systems listed ----------

  /** `links` has every symbolic link; `depth` bounds the physical nesting below a path. */
  datatype Bounds = Bounds(links: set<LinkId>, depth: CString -> nat)

  /**
   A physical subdirectory is less deep than `d`. And a directory whose path has exactly
   `PATH_MAX` characters cannot be opened under the cut path that the buffer then shows: the
   source would read a path length that it never set.
   */
  ghost predicate EntryOk(c: Config, b: Bounds, prefix: CString, entry: Dirent, d: nat) {
    var whole := Concat(prefix, entry.name);
    && (Classify(c, b.links, Cut(whole), entry.dtype) == AsDirectory({}) && !IsDots(entry.name) ==>
          b.depth(Cut(whole)) < d)
    && (c.recursive && |whole| == PATH_MAX ==> c.fs.open(Cut(whole)).OpenFailed?)
  }

  ghost predicate EntriesOk(c: Config, b: Bounds, prefix: CString, entries: seq<Dirent>, d: nat) {
    forall i :: 0 <= i < |entries| ==> EntryOk(c, b, prefix, entries[i], d)
  }

  /**
   A finite file system: finitely many links, and physical directories nested finitely deep.
   Links may form any cycles.
   */
  ghost predicate Listable(c: Config, b: Bounds) {
    && (forall p: CString :: c.fs.lstat(p).Stat? && c.fs.lstat(p).mode == IsLink ==> c.fs.lstat(p).id in b.links)
    && (forall p: CString :: c.fs.open(p).Stream? ==>
                               EntriesOk(c, b, Concat(p, "/"), c.fs.open(p).entries, b.depth(p)))
  }

  /** The listed directory: the children of the root carry its name and theirs, with no separator between. */
  ghost predicate RootListable(c: Config, b: Bounds, dir: CString) {
    c.fs.open(Cut(dir)).Stream? ==> EntriesOk(c, b, dir, c.fs.open(Cut(dir)).entries, b.depth(Cut(dir)))
  }

  // ---------- The listing ----------

  datatype EntityKind = File | Directory | Link

  datatype Item = Entity(kind: EntityKind, path: CString) | Error(path: CString) | Done

  /** What is left of an opened directory: `rest` are the entries not yet read. */
  ghost function ListEntries(c: Config, b: Bounds, prefix: CString, rest: seq<Dirent>, fails: bool,
                             seen: set<LinkId>, d: nat): seq<Item>
    requires Listable(c, b) && EntriesOk(c, b, prefix, rest, d)
    decreases |b.links - seen|, d, 0, |rest|
  {
    if rest == [] then
      if fails then [Error(Cut(prefix))] else []
    else if |prefix| + |rest[0].name| > PATH_MAX then
      // A name that does not fit ends the directory.
      [Error(Cut(Concat(prefix, rest[0].name)))]
    else
      ListEntry(c, b, prefix, rest[0], seen, d) + ListEntries(c, b, prefix, rest[1..], fails, seen, d)
  }

  /** The items of one entry. */
  ghost function ListEntry(c: Config, b: Bounds, prefix: CString, entry: Dirent, seen: set<LinkId>, d: nat): seq<Item>
    requires Listable(c, b) && EntryOk(c, b, prefix, entry, d) && |prefix| + |entry.name| <= PATH_MAX
    decreases |b.links - seen|, d, 0, 0
  {
    var whole := Concat(prefix, entry.name);
    var path := Cut(whole);
    match Classify(c, seen, path, entry.dtype)
    case AsFile => [Entity(File, path)]
    case AsLink => [Entity(Link, path)]
    case AsError => [Error(path)]
    case AsDirectory(via) =>
      if IsDots(entry.name) then []
      else if !c.recursive then [Entity(Directory, path)]
      else
        DescentDecreases(c, b, seen, prefix, entry, d);
        [Entity(Directory, path)] + ListBelow(c, b, whole, seen + via)
  }

  /** The items below a subdirectory. */
  ghost function ListBelow(c: Config, b: Bounds, path: CString, seen: set<LinkId>): seq<Item>
    requires Listable(c, b) && (|path| >= PATH_MAX ==> c.fs.open(Cut(path)).OpenFailed?)
    decreases |b.links - seen|, b.depth(Cut(path)), 1, 0
  {
    match c.fs.open(Cut(path))
    case OpenFailed => [Error(Cut(path))]
    case Stream(entries, fails) => ListEntries(c, b, Concat(path, "/"), entries, fails, seen, b.depth(path))
  }

  ghost function ListRoot(c: Config, b: Bounds, dir: CString): seq<Item>
    requires Listable(c, b) && RootListable(c, b, dir)
  {
    match c.fs.open(Cut(dir))
    case OpenFailed => [Error(Cut(dir))]
    case Stream(entries, fails) => ListEntries(c, b, dir, entries, fails, {}, b.depth(Cut(dir)))
  }

  /** The whole listing of `dir`. */
  ghost function Listing(c: Config, b: Bounds, dir: CString): seq<Item>
    requires Listable(c, b) && RootListable(c, b, dir)
  {
    ListRoot(c, b, dir) + [Done]
  }

  /** A link is followed at most once on a chain; otherwise the physical depth decreases. */
  lemma DescentDecreases(c: Config, b: Bounds, seen: set<LinkId>, prefix: CString, entry: Dirent, d: nat)
    requires Listable(c, b) && EntryOk(c, b, prefix, entry, d) && !IsDots(entry.name)
    ensures var path := Cut(Concat(prefix, entry.name));
            var k := Classify(c, seen, path, entry.dtype);
            k.AsDirectory? ==>
              || |b.links - (seen + k.via)| < |b.links - seen|
              || (k.via == {} && b.depth(path) < d)
  {
    var path := Cut(Concat(prefix, entry.name));
    var k := Classify(c, seen, path, entry.dtype);
    if k.AsDirectory? && k.via != {} {
      var id := c.fs.lstat(path).id;
      assert k.via == {id} && id in b.links && id !in seen;
      assert b.links - (seen + k.via) == (b.links - seen) - {id};
    }
  }
}
