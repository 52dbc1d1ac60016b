/**
 What the listing promises of itself: every entity once, one end marker, and symbolic links that
 form a cycle followed only once.
 */
module ListingProperties {
  import opened PathBuffers
  import opened ListingSpec

  // ---------- Each entity once ----------

  /** Names as a directory holds them: distinct, not empty, without separator. */
  ghost predicate Named(entries: seq<Dirent>) {
    && (forall i :: 0 <= i < |entries| ==> entries[i].name != "" && '/' !in entries[i].name)
    && (forall i, j :: 0 <= i < j < |entries| ==> entries[i].name != entries[j].name)
  }

  /** No entry's path is cut by the buffer. */
  ghost predicate Uncut(prefix: CString, entries: seq<Dirent>) {
    forall i :: 0 <= i < |entries| ==> |prefix| + |entries[i].name| != PATH_MAX
  }

  ghost predicate Tidy(c: Config) {
    forall p: CString :: c.fs.open(p).Stream? ==>
                           Named(c.fs.open(p).entries) && Uncut(Concat(p, "/"), c.fs.open(p).entries)
  }

  /** `path` is `top`, or lies below it. */
  ghost predicate Within(top: CString, path: CString) {
    top <= path && (|path| == |top| || path[|top|] == '/')
  }

  ghost predicate AllWithin(prefix: CString, entries: seq<Dirent>, items: seq<Item>) {
    forall i :: 0 <= i < |items| && items[i].Entity? ==>
                  exists k :: 0 <= k < |entries| && Within(Concat(prefix, entries[k].name), items[i].path)
  }

  ghost predicate EachOnce(items: seq<Item>) {
    forall i, j :: 0 <= i < j < |items| && items[i].Entity? && items[j].Entity? ==> items[i].path != items[j].path
  }

  lemma WithinOneName(prefix: CString, a: CString, b: CString, path: CString)
    requires '/' !in a && '/' !in b
    requires Within(Concat(prefix, a), path) && Within(Concat(prefix, b), path)
    ensures a == b
  {
    var p := |prefix|;
    assert forall i :: 0 <= i < |a| ==> path[p + i] == a[i] != '/';
    assert forall i :: 0 <= i < |b| ==> path[p + i] == b[i] != '/';
  }

  /** Below a directory, every path starts with the directory's, and a separator. */
  lemma WithinChild(path: CString, entries: seq<Dirent>, items: seq<Item>)
    requires AllWithin(Concat(path, "/"), entries, items)
    ensures forall i :: 0 <= i < |items| && items[i].Entity? ==> Within(path, items[i].path) && items[i].path != path
  {
    forall i | 0 <= i < |items| && items[i].Entity?
      ensures Within(path, items[i].path) && items[i].path != path
    {
      var k :| 0 <= k < |entries| && Within(Concat(Concat(path, "/"), entries[k].name), items[i].path);
      var whole := Concat(Concat(path, "/"), entries[k].name);
      assert whole[|path|] == '/' && whole[..|path|] == path;
    }
  }

  lemma {:induction false} EntriesOnce(c: Config, b: Bounds, prefix: CString, rest: seq<Dirent>, fails: bool,
                                       seen: set<LinkId>, d: nat)
    requires Listable(c, b) && EntriesOk(c, b, prefix, rest, d) && Tidy(c)
    requires Named(rest) && Uncut(prefix, rest)
    ensures var items := ListEntries(c, b, prefix, rest, fails, seen, d);
            AllWithin(prefix, rest, items) && EachOnce(items)
    decreases |b.links - seen|, d, 0, |rest|
  {
    hide Listable, ListBelow, ListEntry;
    if rest != [] && |prefix| + |rest[0].name| <= PATH_MAX {
      EntryOnce(c, b, prefix, rest[0], seen, d);
      EntriesOnce(c, b, prefix, rest[1..], fails, seen, d);
      Joined(prefix, rest, ListEntry(c, b, prefix, rest[0], seen, d),
             ListEntries(c, b, prefix, rest[1..], fails, seen, d));
    }
  }

  lemma {:induction false} EntryOnce(c: Config, b: Bounds, prefix: CString, entry: Dirent, seen: set<LinkId>, d: nat)
    requires Listable(c, b) && EntryOk(c, b, prefix, entry, d) && Tidy(c)
    requires |prefix| + |entry.name| < PATH_MAX
    ensures var items := ListEntry(c, b, prefix, entry, seen, d);
            && EachOnce(items)
            && forall i :: 0 <= i < |items| && items[i].Entity? ==> Within(Concat(prefix, entry.name), items[i].path)
    decreases |b.links - seen|, d, 0, 0
  {
    hide Listable, ListBelow, Tidy;
    var whole := Concat(prefix, entry.name);
    var k := Classify(c, seen, whole, entry.dtype);
    if k.AsDirectory? && !IsDots(entry.name) && c.recursive {
      DescentDecreases(c, b, seen, prefix, entry, d);
      BelowOnce(c, b, whole, seen + k.via);
    }
  }

  lemma {:induction false} BelowOnce(c: Config, b: Bounds, path: CString, seen: set<LinkId>)
    requires Listable(c, b) && Tidy(c) && |path| < PATH_MAX
    ensures var items := ListBelow(c, b, path, seen);
            && EachOnce(items)
            && forall i :: 0 <= i < |items| && items[i].Entity? ==> Within(path, items[i].path) && items[i].path != path
    decreases |b.links - seen|, b.depth(Cut(path)), 1, 0
  {
    var stream := c.fs.open(Cut(path));
    if stream.Stream? {
      EntriesOnce(c, b, Concat(path, "/"), stream.entries, stream.fails, seen, b.depth(path));
      WithinChild(path, stream.entries, ListBelow(c, b, path, seen));
    }
  }

  lemma WithinMore(prefix: CString, rest: seq<Dirent>, others: seq<Item>)
    requires rest != [] && AllWithin(prefix, rest[1..], others)
    ensures AllWithin(prefix, rest, others)
  {
    forall i | 0 <= i < |others| && others[i].Entity?
      ensures exists k :: 0 <= k < |rest| && Within(Concat(prefix, rest[k].name), others[i].path)
    {
      var k :| 0 <= k < |rest[1..]| && Within(Concat(prefix, rest[1..][k].name), others[i].path);
      assert rest[1..][k] == rest[k + 1];
    }
  }

  /** The first entry's items and those of the other entries are all distinct. */
  lemma Joined(prefix: CString, rest: seq<Dirent>, mine: seq<Item>, others: seq<Item>)
    requires rest != [] && Named(rest)
    requires EachOnce(mine)
    requires forall i :: 0 <= i < |mine| && mine[i].Entity? ==> Within(Concat(prefix, rest[0].name), mine[i].path)
    requires AllWithin(prefix, rest[1..], others) && EachOnce(others)
    ensures AllWithin(prefix, rest, mine + others) && EachOnce(mine + others)
  {
    var whole := Concat(prefix, rest[0].name);
    WithinMore(prefix, rest, others);
    forall j | 0 <= j < |others| && others[j].Entity? ensures !Within(whole, others[j].path) {
      var k :| 0 <= k < |rest[1..]| && Within(Concat(prefix, rest[1..][k].name), others[j].path);
      assert rest[1..][k] == rest[k + 1];
      if Within(whole, others[j].path) {
        WithinOneName(prefix, rest[0].name, rest[k + 1].name, others[j].path);
        assert false;
      }
    }
    JoinedParts(prefix, rest, whole, mine, others);
  }

  lemma JoinedParts(prefix: CString, rest: seq<Dirent>, whole: CString, mine: seq<Item>, others: seq<Item>)
    requires rest != [] && whole == Concat(prefix, rest[0].name)
    requires EachOnce(mine) && EachOnce(others) && AllWithin(prefix, rest, others)
    requires forall i :: 0 <= i < |mine| && mine[i].Entity? ==> Within(whole, mine[i].path)
    requires forall i :: 0 <= i < |others| && others[i].Entity? ==> !Within(whole, others[i].path)
    ensures AllWithin(prefix, rest, mine + others) && EachOnce(mine + others)
  {
  }

  /** In a listing, no entity is reported twice. */
  lemma ListingEachOnce(c: Config, b: Bounds, dir: CString)
    requires Listable(c, b) && RootListable(c, b, dir) && Tidy(c)
    requires c.fs.open(Cut(dir)).Stream? ==>
               Named(c.fs.open(Cut(dir)).entries) && Uncut(dir, c.fs.open(Cut(dir)).entries)
    ensures EachOnce(Listing(c, b, dir))
  {
    var stream := c.fs.open(Cut(dir));
    if stream.Stream? {
      EntriesOnce(c, b, dir, stream.entries, stream.fails, {}, b.depth(Cut(dir)));
    }
  }

  // ---------- One end marker ----------

  lemma {:induction false} EntriesNotDone(c: Config, b: Bounds, prefix: CString, rest: seq<Dirent>, fails: bool,
                                          seen: set<LinkId>, d: nat)
    requires Listable(c, b) && EntriesOk(c, b, prefix, rest, d)
    ensures Done !in ListEntries(c, b, prefix, rest, fails, seen, d)
    decreases |b.links - seen|, d, 0, |rest|
  {
    hide Listable, ListEntry;
    if rest != [] && |prefix| + |rest[0].name| <= PATH_MAX {
      EntryNotDone(c, b, prefix, rest[0], seen, d);
      EntriesNotDone(c, b, prefix, rest[1..], fails, seen, d);
    }
  }

  lemma {:induction false} EntryNotDone(c: Config, b: Bounds, prefix: CString, entry: Dirent, seen: set<LinkId>, d: nat)
    requires Listable(c, b) && EntryOk(c, b, prefix, entry, d) && |prefix| + |entry.name| <= PATH_MAX
    ensures Done !in ListEntry(c, b, prefix, entry, seen, d)
    decreases |b.links - seen|, d, 0, 0
  {
    hide ListEntries;
    var whole := Concat(prefix, entry.name);
    var k := Classify(c, seen, Cut(whole), entry.dtype);
    if k.AsDirectory? && !IsDots(entry.name) && c.recursive {
      DescentDecreases(c, b, seen, prefix, entry, d);
      var stream := c.fs.open(Cut(whole));
      if stream.Stream? {
        EntriesNotDone(c, b, Concat(whole, "/"), stream.entries, stream.fails, seen + k.via, b.depth(whole));
      }
    }
  }

  /** The end marker comes last, and only once. */
  lemma ListingEndsOnce(c: Config, b: Bounds, dir: CString)
    requires Listable(c, b) && RootListable(c, b, dir)
    ensures var items := Listing(c, b, dir);
            forall i :: 0 <= i < |items| ==> (items[i] == Done <==> i == |items| - 1)
  {
    var stream := c.fs.open(Cut(dir));
    if stream.Stream? {
      EntriesNotDone(c, b, dir, stream.entries, stream.fails, {}, b.depth(Cut(dir)));
    }
  }

  // ---------- A cycle of links ----------

  /** Every directory holds one link, to itself. */
  function LoopSystem(): FileSystem {
    FileSystem(
      (p: CString) => if |p| < 4000 then Stream([Dirent("l", DtLnk)], false) else OpenFailed,
      (p: CString) => Stat((0, 1), IsLink),
      (p: CString) => Stat((0, 2), IsDirectory))
  }

  function LoopConfig(): Config {
    Config(LoopSystem(), true, true)
  }

  function LoopBounds(): Bounds {
    Bounds({(0, 1)}, (p: CString) => 0)
  }

  lemma LoopListable()
    ensures Listable(LoopConfig(), LoopBounds()) && RootListable(LoopConfig(), LoopBounds(), "d/")
  {
  }

  /** The link is followed once, and then reported as a link. */
  lemma LoopIsCut()
    ensures Listable(LoopConfig(), LoopBounds()) && RootListable(LoopConfig(), LoopBounds(), "d/")
    ensures Listing(LoopConfig(), LoopBounds(), "d/") == [Entity(Directory, "d/l"), Entity(Link, "d/l/l"), Done]
  {
    hide Listable, RootListable, ListEntry, ListEntries, ListBelow;
    LoopListable();
    LoopOuter();
  }

  lemma LoopOuter()
    requires Listable(LoopConfig(), LoopBounds()) && RootListable(LoopConfig(), LoopBounds(), "d/")
    ensures ListRoot(LoopConfig(), LoopBounds(), "d/") == [Entity(Directory, "d/l"), Entity(Link, "d/l/l")]
  {
    hide Listable, ListEntries, ListBelow;
    LoopInner();
    OneEntry(LoopConfig(), LoopBounds(), "d/", Dirent("l", DtLnk), {});
    assert Concat("d/", "l") == "d/l";
    assert {} + {(0, 1)} == {(0, 1)};
  }

  lemma LoopInner()
    requires Listable(LoopConfig(), LoopBounds())
    ensures ListBelow(LoopConfig(), LoopBounds(), "d/l", {(0, 1)}) == [Entity(Link, "d/l/l")]
  {
    hide ListEntries;
    var c, b, e := LoopConfig(), LoopBounds(), Dirent("l", DtLnk);
    assert Concat("d/l", "/") == "d/l/" && Concat("d/l/", "l") == "d/l/l";
    assert c.fs.open("d/l") == Stream([e], false);
    assert EntriesOk(c, b, "d/l/", [e], 0);
    OneEntry(c, b, "d/l/", e, {(0, 1)});
  }

  lemma OneEntry(c: Config, b: Bounds, prefix: CString, e: Dirent, seen: set<LinkId>)
    requires Listable(c, b) && EntriesOk(c, b, prefix, [e], 0) && |prefix| + |e.name| <= PATH_MAX
    ensures EntryOk(c, b, prefix, [e][0], 0)
    ensures ListEntries(c, b, prefix, [e], false, seen, 0) == ListEntry(c, b, prefix, e, seen, 0)
  {
    hide ListEntry, Listable;
    assert [e][1..] == [];
  }
}
