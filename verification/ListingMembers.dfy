/**
 What a listing holds, from the answers of the system alone: which directories are entered, and
 what is reported of every entry in them.
 */
module ListingMembers {
  import opened PathBuffers
  import opened ListingSpec

  // ---------- What the system says of a path ----------

  /** A link that leads somewhere, and was not followed on the way to it. */
  ghost predicate Followed(c: Config, seen: set<LinkId>, path: CString) {
    && c.followLinks
    && c.fs.lstat(path).Stat? && c.fs.lstat(path).mode == IsLink && c.fs.lstat(path).id !in seen
    && c.fs.stat(path).Stat? && c.fs.stat(path).mode != NoType
  }

  /** The mode of what the path stands for: of the target of a link that is followed, or its own. */
  ghost predicate HasMode(c: Config, seen: set<LinkId>, path: CString, mode: Mode) {
    if Followed(c, seen, path) then c.fs.stat(path).mode == mode
    else c.fs.lstat(path).Stat? && c.fs.lstat(path).mode == mode
  }

  /** The links followed to get to the directory of that path, once it is entered. */
  ghost function SeenBelow(c: Config, seen: set<LinkId>, path: CString): set<LinkId> {
    if Followed(c, seen, path) then seen + {c.fs.lstat(path).id} else seen
  }

  /** The type that `readdir` gives is the one that `lstat` gives, or none. */
  ghost predicate TypeTrue(c: Config, path: CString, dtype: DType) {
    dtype == DtUnknown ||
    (&& c.fs.lstat(path).Stat?
     && (dtype == DtDir <==> c.fs.lstat(path).mode == IsDirectory)
     && (dtype == DtLnk <==> c.fs.lstat(path).mode == IsLink))
  }

  ghost predicate TypesTrue(c: Config, prefix: CString, entries: seq<Dirent>) {
    forall i :: 0 <= i < |entries| ==> TypeTrue(c, Cut(Concat(prefix, entries[i].name)), entries[i].dtype)
  }

  /** The types in every directory, and in the one that is listed. */
  ghost predicate Truthful(c: Config) {
    forall p: CString :: c.fs.open(p).Stream? ==> TypesTrue(c, Concat(p, "/"), c.fs.open(p).entries)
  }

  ghost predicate RootTruthful(c: Config, dir: CString) {
    c.fs.open(Cut(dir)).Stream? ==> TypesTrue(c, dir, c.fs.open(Cut(dir)).entries)
  }

  // ---------- Types are only a short cut ----------

  lemma TypeIsShortCut(c: Config, seen: set<LinkId>, path: CString, dtype: DType)
    requires TypeTrue(c, path, dtype)
    ensures Classify(c, seen, path, dtype) == Classify(c, seen, path, DtUnknown)
  {
  }

  function BlindEntries(entries: seq<Dirent>): seq<Dirent> {
    seq(|entries|, i requires 0 <= i < |entries| => entries[i].(dtype := DtUnknown))
  }

  function BlindStream(s: Stream): Stream {
    if s.Stream? then s.(entries := BlindEntries(s.entries)) else s
  }

  /** The same file system, whose `readdir` gives no types. */
  function Blind(c: Config): Config {
    c.(fs := c.fs.(open := (p: CString) => BlindStream(c.fs.open(p))))
  }

  lemma BlindClassify(c: Config, seen: set<LinkId>, path: CString, dtype: DType)
    ensures Classify(Blind(c), seen, path, dtype) == Classify(c, seen, path, dtype)
  {
  }

  lemma BlindEntriesOk(c: Config, b: Bounds, prefix: CString, entries: seq<Dirent>, d: nat)
    requires EntriesOk(c, b, prefix, entries, d) && TypesTrue(c, prefix, entries)
    ensures EntriesOk(Blind(c), b, prefix, BlindEntries(entries), d)
  {
    hide Classify;
    var blind := BlindEntries(entries);
    forall i | 0 <= i < |blind| ensures EntryOk(Blind(c), b, prefix, blind[i], d) {
      var path := Cut(Concat(prefix, entries[i].name));
      assert EntryOk(c, b, prefix, entries[i], d) && TypeTrue(c, path, entries[i].dtype);
      TypeIsShortCut(c, b.links, path, entries[i].dtype);
      BlindClassify(c, b.links, path, DtUnknown);
    }
  }

  lemma BlindListable(c: Config, b: Bounds)
    requires Listable(c, b) && Truthful(c)
    ensures Listable(Blind(c), b)
  {
    hide EntriesOk, TypesTrue;
    forall p: CString | Blind(c).fs.open(p).Stream?
      ensures EntriesOk(Blind(c), b, Concat(p, "/"), Blind(c).fs.open(p).entries, b.depth(p))
    {
      BlindEntriesOk(c, b, Concat(p, "/"), c.fs.open(p).entries, b.depth(p));
    }
  }

  lemma {:induction false} BlindRest(c: Config, b: Bounds, prefix: CString, rest: seq<Dirent>, fails: bool,
                                     seen: set<LinkId>, d: nat)
    requires Listable(c, b) && Truthful(c) && Listable(Blind(c), b)
    requires EntriesOk(c, b, prefix, rest, d) && TypesTrue(c, prefix, rest)
    ensures EntriesOk(Blind(c), b, prefix, BlindEntries(rest), d)
    ensures ListEntries(Blind(c), b, prefix, BlindEntries(rest), fails, seen, d)
         == ListEntries(c, b, prefix, rest, fails, seen, d)
    decreases |b.links - seen|, d, 0, |rest|
  {
    hide Listable, Truthful, ListEntry, ListBelow, Blind;
    BlindEntriesOk(c, b, prefix, rest, d);
    if rest != [] {
      assert BlindEntries(rest)[1..] == BlindEntries(rest[1..]) && BlindEntries(rest)[0] == rest[0].(dtype := DtUnknown);
      assert TypeTrue(c, Cut(Concat(prefix, rest[0].name)), rest[0].dtype);
      if |prefix| + |rest[0].name| <= PATH_MAX {
        BlindEntry(c, b, prefix, rest[0], seen, d);
        BlindRest(c, b, prefix, rest[1..], fails, seen, d);
      }
    }
  }

  lemma {:induction false} BlindEntry(c: Config, b: Bounds, prefix: CString, entry: Dirent, seen: set<LinkId>, d: nat)
    requires Listable(c, b) && Truthful(c) && Listable(Blind(c), b)
    requires EntryOk(c, b, prefix, entry, d) && TypeTrue(c, Cut(Concat(prefix, entry.name)), entry.dtype)
    requires EntryOk(Blind(c), b, prefix, entry.(dtype := DtUnknown), d) && |prefix| + |entry.name| <= PATH_MAX
    ensures ListEntry(Blind(c), b, prefix, entry.(dtype := DtUnknown), seen, d) == ListEntry(c, b, prefix, entry, seen, d)
    decreases |b.links - seen|, d, 0, 0
  {
    hide Listable, ListEntries, Classify;
    var whole := Concat(prefix, entry.name);
    TypeIsShortCut(c, seen, Cut(whole), entry.dtype);
    BlindClassify(c, seen, Cut(whole), DtUnknown);
    var k := Classify(c, seen, Cut(whole), entry.dtype);
    if k.AsDirectory? && !IsDots(entry.name) && c.recursive {
      DescentDecreases(c, b, seen, prefix, entry, d);
      BlindBelow(c, b, whole, seen + k.via);
    }
  }

  lemma {:induction false} BlindBelow(c: Config, b: Bounds, path: CString, seen: set<LinkId>)
    requires Listable(c, b) && Truthful(c) && Listable(Blind(c), b)
    requires |path| >= PATH_MAX ==> c.fs.open(Cut(path)).OpenFailed?
    ensures ListBelow(Blind(c), b, path, seen) == ListBelow(c, b, path, seen)
    decreases |b.links - seen|, b.depth(Cut(path)), 1, 0
  {
    hide ListEntries;
    var stream := c.fs.open(Cut(path));
    if stream.Stream? {
      BlindRest(c, b, Concat(path, "/"), stream.entries, stream.fails, seen, b.depth(path));
    }
  }

  /** The types that `readdir` gives, if they are true, change nothing: the listing is the one without any. */
  lemma ListingWithoutTypes(c: Config, b: Bounds, dir: CString)
    requires Listable(c, b) && RootListable(c, b, dir) && Truthful(c) && RootTruthful(c, dir)
    ensures Listable(Blind(c), b) && RootListable(Blind(c), b, dir)
    ensures Listing(Blind(c), b, dir) == Listing(c, b, dir)
  {
    hide Listable, Truthful, ListEntries;
    BlindListable(c, b);
    var stream := c.fs.open(Cut(dir));
    if stream.Stream? {
      BlindRest(c, b, dir, stream.entries, stream.fails, {}, b.depth(Cut(dir)));
    }
  }

  // ---------- What is listed, and where ----------

  ghost predicate Dots(name: CString) {
    name == "." || name == ".."
  }

  /** What is reported of an entry itself. */
  ghost predicate Own(c: Config, seen: set<LinkId>, path: CString, name: CString, item: Item) {
    match item
    case Done => false
    case Error(p) => p == path && c.fs.lstat(path).StatFailed?
    case Entity(Directory, p) => p == path && HasMode(c, seen, path, IsDirectory) && !Dots(name)
    case Entity(Link, p) => p == path && HasMode(c, seen, path, IsLink)
    case Entity(File, p) => p == path && (HasMode(c, seen, path, IsOther) || HasMode(c, seen, path, NoType))
  }

  /** The paths of the first `n` entries fit. */
  ghost predicate Fit(prefix: CString, entries: seq<Dirent>, n: nat) {
    n <= |entries| && forall j :: 0 <= j < n ==> |prefix| + |entries[j].name| <= PATH_MAX
  }

  /**
   What is reported at a position of a directory: of the entry there, or that its path does not fit, or at
   the end that reading has failed.
   */
  ghost predicate YieldsHere(c: Config, prefix: CString, entries: seq<Dirent>, fails: bool, seen: set<LinkId>,
                             i: nat, item: Item) {
    Fit(prefix, entries, i) &&
    if i == |entries| then fails && item == Error(Cut(prefix))
    else
      var whole := Concat(prefix, entries[i].name);
      if |whole| > PATH_MAX then item == Error(Cut(whole)) else Own(c, seen, Cut(whole), entries[i].name, item)
  }

  /** The entry at a position is a directory that is entered. */
  ghost predicate Entered(c: Config, prefix: CString, entries: seq<Dirent>, seen: set<LinkId>, i: nat) {
    && c.recursive && i < |entries| && Fit(prefix, entries, i + 1) && !Dots(entries[i].name)
    && HasMode(c, seen, Cut(Concat(prefix, entries[i].name)), IsDirectory)
  }

  /** A place in a listing: the position in each directory on the way, and in the last one. */
  type Code = seq<nat>

  ghost predicate Yields(c: Config, prefix: CString, entries: seq<Dirent>, fails: bool, seen: set<LinkId>,
                         code: Code, item: Item)
    decreases |code|, 0
  {
    code != [] &&
    if |code| == 1 then YieldsHere(c, prefix, entries, fails, seen, code[0], item)
    else
      && Entered(c, prefix, entries, seen, code[0])
      && var whole := Concat(prefix, entries[code[0]].name);
      YieldsBelow(c, whole, SeenBelow(c, seen, Cut(whole)), code[1..], item)
  }

  /** The same of a directory that is opened first. */
  ghost predicate YieldsBelow(c: Config, path: CString, seen: set<LinkId>, code: Code, item: Item)
    decreases |code|, 1
  {
    match c.fs.open(Cut(path))
    case OpenFailed => code == [0] && item == Error(Cut(path))
    case Stream(entries, fails) => Yields(c, Concat(path, "/"), entries, fails, seen, code, item)
  }

  /** Places in the order of a listing: a directory comes before what is below it. */
  predicate Earlier(a: Code, b: Code)
    decreases |a|
  {
    b != [] && (a == [] || a[0] < b[0] || (a[0] == b[0] && Earlier(a[1..], b[1..])))
  }

  ghost predicate InOrder(codes: seq<Code>) {
    forall m, n :: 0 <= m < n < |codes| ==> Earlier(codes[m], codes[n])
  }

  /** The item stands at its place. */
  ghost predicate Stands(codes: seq<Code>, items: seq<Item>, code: Code, item: Item)
    requires |codes| == |items|
  {
    exists n :: 0 <= n < |codes| && codes[n] == code && items[n] == item
  }

  /** The items are exactly what the places of a directory yield, in order. */
  ghost predicate ListedAs(c: Config, prefix: CString, entries: seq<Dirent>, fails: bool, seen: set<LinkId>,
                           items: seq<Item>, codes: seq<Code>) {
    && |items| == |codes| && InOrder(codes)
    && (forall n :: 0 <= n < |codes| ==> Yields(c, prefix, entries, fails, seen, codes[n], items[n]))
    && (forall code, item :: Yields(c, prefix, entries, fails, seen, code, item) ==> Stands(codes, items, code, item))
  }

  ghost predicate ListedBelow(c: Config, path: CString, seen: set<LinkId>, items: seq<Item>, codes: seq<Code>) {
    && |items| == |codes| && InOrder(codes)
    && (forall n :: 0 <= n < |codes| ==> YieldsBelow(c, path, seen, codes[n], items[n]))
    && (forall code, item :: YieldsBelow(c, path, seen, code, item) ==> Stands(codes, items, code, item))
  }

  // ---------- The listing is that ----------

  /** How an entry is classified, by what the system says of it. */
  lemma ClassMeans(c: Config, seen: set<LinkId>, path: CString, dtype: DType)
    requires TypeTrue(c, path, dtype)
    ensures var k := Classify(c, seen, path, dtype);
            && (k == AsError <==> c.fs.lstat(path).StatFailed?)
            && (k == AsLink <==> HasMode(c, seen, path, IsLink))
            && (k == AsFile <==> HasMode(c, seen, path, IsOther) || HasMode(c, seen, path, NoType))
            && (k.AsDirectory? <==> HasMode(c, seen, path, IsDirectory))
            && (k.AsDirectory? ==> seen + k.via == SeenBelow(c, seen, path))
  {
    TypeIsShortCut(c, seen, path, dtype);
  }

  /** The items of an entry: its own, if it has one, and those below it, if it is entered. */
  lemma EntryItems(c: Config, b: Bounds, prefix: CString, entry: Dirent, seen: set<LinkId>, d: nat)
    returns (own: seq<Item>, below: seq<Item>)
    requires Listable(c, b) && EntryOk(c, b, prefix, entry, d) && |prefix| + |entry.name| <= PATH_MAX
    requires TypeTrue(c, Cut(Concat(prefix, entry.name)), entry.dtype)
    ensures var whole := Concat(prefix, entry.name);
            var dir := c.recursive && !Dots(entry.name) && HasMode(c, seen, Cut(whole), IsDirectory);
            && ListEntry(c, b, prefix, entry, seen, d) == own + below
            && |own| <= 1 && (forall item :: Own(c, seen, Cut(whole), entry.name, item) <==> own == [item])
            && (dir ==> |whole| >= PATH_MAX ==> c.fs.open(Cut(whole)).OpenFailed?)
            && below == if dir then ListBelow(c, b, whole, SeenBelow(c, seen, Cut(whole))) else []
  {
    hide Listable, ListBelow, Classify, HasMode, SeenBelow;
    var whole := Concat(prefix, entry.name);
    ClassMeans(c, seen, Cut(whole), entry.dtype);
    OneMode(c, seen, Cut(whole));
    var k := Classify(c, seen, Cut(whole), entry.dtype);
    var dir := c.recursive && !Dots(entry.name) && HasMode(c, seen, Cut(whole), IsDirectory);
    below := if dir then ListBelow(c, b, whole, SeenBelow(c, seen, Cut(whole))) else [];
    own := match k
      case AsFile => [Entity(File, Cut(whole))]
      case AsLink => [Entity(Link, Cut(whole))]
      case AsError => [Error(Cut(whole))]
      case AsDirectory(_) => if Dots(entry.name) then [] else [Entity(Directory, Cut(whole))];
    assert own + [] == own;
  }

  lemma OneMode(c: Config, seen: set<LinkId>, path: CString)
    ensures forall m, n :: HasMode(c, seen, path, m) && HasMode(c, seen, path, n) ==> m == n
    ensures forall m :: HasMode(c, seen, path, m) ==> c.fs.lstat(path).Stat?
  {
  }

  // ---------- Places ----------

  function Deeper(codes: seq<Code>): (r: seq<Code>)
    ensures |r| == |codes| && forall n :: 0 <= n < |r| ==> r[n] == [0] + codes[n]
  {
    seq(|codes|, n requires 0 <= n < |codes| => [0] + codes[n])
  }

  function Later(code: Code): Code
    requires code != []
  {
    [code[0] + 1] + code[1..]
  }

  function AllLater(codes: seq<Code>): (r: seq<Code>)
    requires forall n :: 0 <= n < |codes| ==> codes[n] != []
    ensures |r| == |codes| && forall n :: 0 <= n < |r| ==> r[n] == Later(codes[n])
  {
    seq(|codes|, n requires 0 <= n < |codes| => Later(codes[n]))
  }

  lemma EarlierDeeper(a: Code, b: Code)
    ensures Earlier([0] + a, [0] + b) == Earlier(a, b)
  {
    assert ([0] + a)[1..] == a && ([0] + b)[1..] == b;
  }

  lemma EarlierLater(a: Code, b: Code)
    requires a != [] && b != []
    ensures Earlier(Later(a), Later(b)) == Earlier(a, b)
  {
    assert Later(a)[1..] == a[1..] && Later(b)[1..] == b[1..];
  }

  /** Later positions yield what they yielded without the first entry. */
  lemma YieldsLater(c: Config, prefix: CString, rest: seq<Dirent>, fails: bool, seen: set<LinkId>, code: Code, item: Item)
    requires rest != [] && |prefix| + |rest[0].name| <= PATH_MAX && code != []
    ensures Yields(c, prefix, rest, fails, seen, Later(code), item) <==>
            Yields(c, prefix, rest[1..], fails, seen, code, item)
  {
    hide Own, HasMode, SeenBelow, YieldsBelow;
    assert Later(code)[1..] == code[1..];
    FitLater(prefix, rest, code[0]);
    FitLater(prefix, rest, code[0] + 1);
  }

  lemma FitLater(prefix: CString, rest: seq<Dirent>, n: nat)
    requires rest != [] && |prefix| + |rest[0].name| <= PATH_MAX
    ensures Fit(prefix, rest, n + 1) <==> Fit(prefix, rest[1..], n)
  {
    if Fit(prefix, rest[1..], n) {
      forall j | 0 <= j < n + 1 ensures |prefix| + |rest[j].name| <= PATH_MAX {
        assert j > 0 ==> rest[1..][j - 1] == rest[j];
      }
    }
  }

  /** Places that begin with the first entry. */
  lemma YieldsFirst(c: Config, prefix: CString, rest: seq<Dirent>, fails: bool, seen: set<LinkId>, code: Code, item: Item)
    requires rest != [] && |prefix| + |rest[0].name| <= PATH_MAX
    ensures var whole := Concat(prefix, rest[0].name);
            Yields(c, prefix, rest, fails, seen, [0] + code, item) <==>
            if code == [] then Own(c, seen, Cut(whole), rest[0].name, item)
            else Entered(c, prefix, rest, seen, 0) && YieldsBelow(c, whole, SeenBelow(c, seen, Cut(whole)), code, item)
  {
    hide Own, HasMode, SeenBelow, YieldsBelow;
    assert ([0] + code)[1..] == code;
  }

  lemma NoEmptyCode(c: Config, prefix: CString, rest: seq<Dirent>, fails: bool, seen: set<LinkId>,
                    items: seq<Item>, codes: seq<Code>)
    requires ListedAs(c, prefix, rest, fails, seen, items, codes)
    ensures forall n :: 0 <= n < |codes| ==> codes[n] != []
  {
    forall n | 0 <= n < |codes| ensures codes[n] != [] {
      assert Yields(c, prefix, rest, fails, seen, codes[n], items[n]);
    }
  }

  lemma NoEmptyBelow(c: Config, path: CString, seen: set<LinkId>, items: seq<Item>, codes: seq<Code>)
    requires ListedBelow(c, path, seen, items, codes)
    ensures forall n :: 0 <= n < |codes| ==> codes[n] != []
  {
    forall n | 0 <= n < |codes| ensures codes[n] != [] {
      assert YieldsBelow(c, path, seen, codes[n], items[n]);
      BelowNotEmpty(c, path, seen, codes[n], items[n]);
    }
  }

  lemma BelowNotEmpty(c: Config, path: CString, seen: set<LinkId>, code: Code, item: Item)
    requires YieldsBelow(c, path, seen, code, item)
    ensures code != []
  {
    var stream := c.fs.open(Cut(path));
    if stream.Stream? {
      assert Yields(c, Concat(path, "/"), stream.entries, stream.fails, seen, code, item);
    }
  }

  // ---------- One entry after the other ----------

  /** What is known of the first entry: its own item, and what is below it. */
  ghost predicate FirstKnown(c: Config, prefix: CString, rest: seq<Dirent>, seen: set<LinkId>,
                             own: seq<Item>, below: seq<Item>, deep: seq<Code>)
    requires rest != []
  {
    var whole := Concat(prefix, rest[0].name);
    && |own| <= 1 && (forall item :: Own(c, seen, Cut(whole), rest[0].name, item) <==> own == [item])
    && if Entered(c, prefix, rest, seen, 0)
       then ListedBelow(c, whole, SeenBelow(c, seen, Cut(whole)), below, deep)
       else below == [] && deep == []
  }

  /** The places of the first entry's own item, of those below it, and of the later entries. */
  function Places(own: seq<Item>, deep: seq<Code>, late: seq<Code>): (codes: seq<Code>)
    requires |own| <= 1 && forall n :: 0 <= n < |late| ==> late[n] != []
    ensures |codes| == |own| + |deep| + |late|
    ensures own != [] ==> codes[0] == [0]
    ensures forall n :: 0 <= n < |deep| ==> codes[|own| + n] == [0] + deep[n]
    ensures forall n :: 0 <= n < |late| ==> codes[|own| + |deep| + n] == Later(late[n])
  {
    (if own == [] then [] else [[0]]) + Deeper(deep) + AllLater(late)
  }

  lemma OwnYields(c: Config, prefix: CString, rest: seq<Dirent>, fails: bool, seen: set<LinkId>,
                  own: seq<Item>, below: seq<Item>, deep: seq<Code>)
    requires rest != [] && |prefix| + |rest[0].name| <= PATH_MAX && FirstKnown(c, prefix, rest, seen, own, below, deep)
    ensures |below| == |deep| && InOrder(deep) && forall n :: 0 <= n < |deep| ==> deep[n] != []
    ensures own != [] ==> Yields(c, prefix, rest, fails, seen, [0], own[0])
    ensures forall n :: 0 <= n < |deep| ==> Yields(c, prefix, rest, fails, seen, [0] + deep[n], below[n])
  {
    hide Own, Entered, SeenBelow, Yields, YieldsBelow, InOrder;
    var whole := Concat(prefix, rest[0].name);
    if Entered(c, prefix, rest, seen, 0) {
      NoEmptyBelow(c, whole, SeenBelow(c, seen, Cut(whole)), below, deep);
    } else {
      NoneInOrder();
    }
    if own != [] {
      assert own == [own[0]] && [0] + [] == [0];
      YieldsFirst(c, prefix, rest, fails, seen, [], own[0]);
    }
    forall n | 0 <= n < |deep| ensures Yields(c, prefix, rest, fails, seen, [0] + deep[n], below[n]) {
      assert YieldsBelow(c, whole, SeenBelow(c, seen, Cut(whole)), deep[n], below[n]);
      YieldsFirst(c, prefix, rest, fails, seen, deep[n], below[n]);
    }
  }

  lemma NoneInOrder()
    ensures InOrder([])
  {
  }

  /** Where a place that yields an item stands. */
  lemma FindPlace(c: Config, prefix: CString, rest: seq<Dirent>, fails: bool, seen: set<LinkId>,
                  own: seq<Item>, below: seq<Item>, deep: seq<Code>, others: seq<Item>, late: seq<Code>,
                  code: Code, item: Item)
    requires rest != [] && |prefix| + |rest[0].name| <= PATH_MAX && FirstKnown(c, prefix, rest, seen, own, below, deep)
    requires ListedAs(c, prefix, rest[1..], fails, seen, others, late) && Yields(c, prefix, rest, fails, seen, code, item)
    ensures || (own == [item] && code == [0])
            || (|below| == |deep| && exists k :: 0 <= k < |deep| && code == [0] + deep[k] && below[k] == item)
            || (exists k :: 0 <= k < |late| && late[k] != [] && code == Later(late[k]) && others[k] == item)
  {
    hide Own, Entered, SeenBelow, YieldsBelow, YieldsHere, InOrder;
    if code[0] == 0 {
      assert code == [0] + code[1..];
      YieldsFirst(c, prefix, rest, fails, seen, code[1..], item);
      if code[1..] != [] {
        assert Stands(deep, below, code[1..], item);
        var k :| 0 <= k < |deep| && deep[k] == code[1..] && below[k] == item;
        assert code == [0] + deep[k];
      }
    } else {
      var less := [code[0] - 1] + code[1..];
      assert Later(less) == code;
      YieldsLater(c, prefix, rest, fails, seen, less, item);
      assert Stands(late, others, less, item);
      var k :| 0 <= k < |late| && late[k] == less && others[k] == item;
      assert code == Later(late[k]);
    }
  }

  /** The items in three parts, with their places. */
  ghost predicate Parts(own: seq<Item>, below: seq<Item>, deep: seq<Code>, others: seq<Item>, late: seq<Code>,
                        items: seq<Item>, codes: seq<Code>) {
    && |own| <= 1 && |below| == |deep| && |others| == |late|
    && |items| == |codes| == |own| + |deep| + |late| && (forall n :: 0 <= n < |late| ==> late[n] != [])
    && (own != [] ==> codes[0] == [0] && items[0] == own[0])
    && (forall n :: 0 <= n < |deep| ==> codes[|own| + n] == [0] + deep[n] && items[|own| + n] == below[n])
    && (forall n :: 0 <= n < |late| ==> codes[|own| + |deep| + n] == Later(late[n])
                                        && items[|own| + |deep| + n] == others[n])
  }

  lemma PartYields(c: Config, prefix: CString, rest: seq<Dirent>, fails: bool, seen: set<LinkId>,
                   own: seq<Item>, below: seq<Item>, deep: seq<Code>, others: seq<Item>, late: seq<Code>,
                   items: seq<Item>, codes: seq<Code>, n: nat)
    requires rest != [] && |prefix| + |rest[0].name| <= PATH_MAX && FirstKnown(c, prefix, rest, seen, own, below, deep)
    requires ListedAs(c, prefix, rest[1..], fails, seen, others, late)
    requires Parts(own, below, deep, others, late, items, codes) && n < |codes|
    ensures Yields(c, prefix, rest, fails, seen, codes[n], items[n])
  {
    hide FirstKnown, Yields, InOrder, Later;
    OwnYields(c, prefix, rest, fails, seen, own, below, deep);
    if |own| <= n < |own| + |deep| {
      var k := n - |own|;
      assert codes[|own| + k] == [0] + deep[k];
    } else if n >= |own| + |deep| {
      var k := n - |own| - |deep|;
      assert codes[|own| + |deep| + k] == Later(late[k]);
      YieldsLater(c, prefix, rest, fails, seen, late[k], others[k]);
    }
  }

  lemma PartStands(c: Config, prefix: CString, rest: seq<Dirent>, fails: bool, seen: set<LinkId>,
                   own: seq<Item>, below: seq<Item>, deep: seq<Code>, others: seq<Item>, late: seq<Code>,
                   items: seq<Item>, codes: seq<Code>, code: Code, item: Item)
    requires rest != [] && |prefix| + |rest[0].name| <= PATH_MAX && FirstKnown(c, prefix, rest, seen, own, below, deep)
    requires ListedAs(c, prefix, rest[1..], fails, seen, others, late) && Yields(c, prefix, rest, fails, seen, code, item)
    requires Parts(own, below, deep, others, late, items, codes)
    ensures Stands(codes, items, code, item)
  {
    hide FirstKnown, ListedAs, Yields, Later;
    FindPlace(c, prefix, rest, fails, seen, own, below, deep, others, late, code, item);
    if own == [item] && code == [0] {
      assert codes[0] == code && items[0] == item;
    } else if k :| 0 <= k < |deep| && code == [0] + deep[k] && below[k] == item {
      assert codes[|own| + k] == code && items[|own| + k] == item;
    } else {
      var k :| 0 <= k < |late| && late[k] != [] && code == Later(late[k]) && others[k] == item;
      assert codes[|own| + |deep| + k] == code && items[|own| + |deep| + k] == item;
    }
  }

  /** The first entry and the later ones together. */
  lemma FirstAndLater(c: Config, prefix: CString, rest: seq<Dirent>, fails: bool, seen: set<LinkId>,
                      own: seq<Item>, below: seq<Item>, deep: seq<Code>, others: seq<Item>, late: seq<Code>)
    returns (codes: seq<Code>)
    requires rest != [] && |prefix| + |rest[0].name| <= PATH_MAX && FirstKnown(c, prefix, rest, seen, own, below, deep)
    requires ListedAs(c, prefix, rest[1..], fails, seen, others, late)
    ensures ListedAs(c, prefix, rest, fails, seen, own + below + others, codes)
  {
    hide FirstKnown, Yields, InOrder, Later, Stands;
    NoEmptyCode(c, prefix, rest[1..], fails, seen, others, late);
    OwnYields(c, prefix, rest, fails, seen, own, below, deep);
    OwnLength(c, prefix, rest, seen, own, below, deep);
    codes := Places(own, deep, late);
    PlacesInOrder(own, deep, late);
    var items := own + below + others;
    InParts(own, below, deep, others, late);
    hide Places, Parts;
    forall n | 0 <= n < |codes| ensures Yields(c, prefix, rest, fails, seen, codes[n], items[n]) {
      PartYields(c, prefix, rest, fails, seen, own, below, deep, others, late, items, codes, n);
    }
    forall code, item | Yields(c, prefix, rest, fails, seen, code, item) ensures Stands(codes, items, code, item) {
      PartStands(c, prefix, rest, fails, seen, own, below, deep, others, late, items, codes, code, item);
    }
  }

  lemma InParts(own: seq<Item>, below: seq<Item>, deep: seq<Code>, others: seq<Item>, late: seq<Code>)
    requires |own| <= 1 && |below| == |deep| && |others| == |late| && forall n :: 0 <= n < |late| ==> late[n] != []
    ensures Parts(own, below, deep, others, late, own + below + others, Places(own, deep, late))
  {
    hide Later, Places, Deeper, AllLater;
    var items, codes := own + below + others, Places(own, deep, late);
    forall n | 0 <= n < |deep| ensures codes[|own| + n] == [0] + deep[n] && items[|own| + n] == below[n] {
    }
    forall n | 0 <= n < |late|
      ensures codes[|own| + |deep| + n] == Later(late[n]) && items[|own| + |deep| + n] == others[n]
    {
    }
  }

  lemma OwnLength(c: Config, prefix: CString, rest: seq<Dirent>, seen: set<LinkId>,
                  own: seq<Item>, below: seq<Item>, deep: seq<Code>)
    requires rest != [] && FirstKnown(c, prefix, rest, seen, own, below, deep)
    ensures |own| <= 1
  {
  }

  lemma PlacesInOrder(own: seq<Item>, deep: seq<Code>, late: seq<Code>)
    requires |own| <= 1 && InOrder(deep) && InOrder(late)
    requires (forall n :: 0 <= n < |deep| ==> deep[n] != []) && (forall n :: 0 <= n < |late| ==> late[n] != [])
    ensures InOrder(Places(own, deep, late))
  {
    CodesInOrder(if own == [] then [] else [[0]], deep, late);
  }

  lemma CodesInOrder(first: seq<Code>, deep: seq<Code>, late: seq<Code>)
    requires first == [] || first == [[0]]
    requires InOrder(deep) && InOrder(late)
    requires (forall n :: 0 <= n < |deep| ==> deep[n] != []) && (forall n :: 0 <= n < |late| ==> late[n] != [])
    ensures InOrder(first + Deeper(deep) + AllLater(late))
  {
    hide Earlier;
    var a, b := |first|, |first| + |deep|;
    var codes := first + Deeper(deep) + AllLater(late);
    forall m, n | 0 <= m < n < |codes| ensures Earlier(codes[m], codes[n]) {
      if n < b {
        if m < a {
          EarlierDeeper([], deep[n - a]);
          assert [0] + [] == [0];
          BeforeAny(deep[n - a]);
        } else {
          EarlierDeeper(deep[m - a], deep[n - a]);
        }
      } else if m < b {
        StartsBefore(codes[m], codes[n]);
      } else {
        EarlierLater(late[m - b], late[n - b]);
      }
    }
  }

  lemma BeforeAny(code: Code)
    requires code != []
    ensures Earlier([], code)
  {
  }

  lemma StartsBefore(a: Code, b: Code)
    requires a != [] && b != [] && a[0] < b[0]
    ensures Earlier(a, b)
  {
  }

  lemma EndListed(c: Config, prefix: CString, rest: seq<Dirent>, fails: bool, seen: set<LinkId>, items: seq<Item>)
    returns (codes: seq<Code>)
    requires rest == [] || |prefix| + |rest[0].name| > PATH_MAX
    requires items == if rest != [] then [Error(Cut(Concat(prefix, rest[0].name)))]
                      else if fails then [Error(Cut(prefix))] else []
    ensures ListedAs(c, prefix, rest, fails, seen, items, codes)
  {
    hide Own, HasMode, SeenBelow, YieldsBelow;
    codes := if items == [] then [] else [[0]];
    forall code, item | Yields(c, prefix, rest, fails, seen, code, item) ensures Stands(codes, items, code, item) {
      assert !Fit(prefix, rest, code[0] + 1);
      assert code == [0] && codes[0] == code && items[0] == item;
    }
  }

  // ---------- The whole listing ----------

  lemma {:induction false} EntriesListed(c: Config, b: Bounds, prefix: CString, rest: seq<Dirent>, fails: bool,
                                         seen: set<LinkId>, d: nat)
    returns (codes: seq<Code>)
    requires Listable(c, b) && Truthful(c) && EntriesOk(c, b, prefix, rest, d) && TypesTrue(c, prefix, rest)
    ensures ListedAs(c, prefix, rest, fails, seen, ListEntries(c, b, prefix, rest, fails, seen, d), codes)
    decreases |b.links - seen|, d, 0, |rest|
  {
    hide Listable, Truthful, ListEntry, ListBelow, Own, HasMode, SeenBelow, ListedAs, ListedBelow, Classify;
    if rest == [] || |prefix| + |rest[0].name| > PATH_MAX {
      codes := EndListed(c, prefix, rest, fails, seen, ListEntries(c, b, prefix, rest, fails, seen, d));
    } else {
      var whole := Concat(prefix, rest[0].name);
      assert EntryOk(c, b, prefix, rest[0], d) && TypeTrue(c, Cut(whole), rest[0].dtype);
      var own, below := EntryItems(c, b, prefix, rest[0], seen, d);
      var deep: seq<Code> := [];
      assert Fit(prefix, rest, 1);
      if Entered(c, prefix, rest, seen, 0) {
        ClassMeans(c, seen, Cut(whole), rest[0].dtype);
        DescentDecreases(c, b, seen, prefix, rest[0], d);
        deep := BelowListed(c, b, whole, SeenBelow(c, seen, Cut(whole)));
      }
      var late := EntriesListed(c, b, prefix, rest[1..], fails, seen, d);
      codes := FirstAndLater(c, prefix, rest, fails, seen, own, below, deep,
                             ListEntries(c, b, prefix, rest[1..], fails, seen, d), late);
    }
  }

  lemma {:induction false} BelowListed(c: Config, b: Bounds, path: CString, seen: set<LinkId>) returns (codes: seq<Code>)
    requires Listable(c, b) && Truthful(c) && (|path| >= PATH_MAX ==> c.fs.open(Cut(path)).OpenFailed?)
    ensures ListedBelow(c, path, seen, ListBelow(c, b, path, seen), codes)
    decreases |b.links - seen|, b.depth(Cut(path)), 1, 0
  {
    hide ListEntries, Yields;
    match c.fs.open(Cut(path))
    case OpenFailed =>
      codes := [[0]];
      assert codes[0] == [0];
    case Stream(entries, fails) =>
      codes := EntriesListed(c, b, Concat(path, "/"), entries, fails, seen, b.depth(path));
  }

  /** What a place of the listed directory yields. */
  ghost predicate YieldsRoot(c: Config, dir: CString, code: Code, item: Item) {
    match c.fs.open(Cut(dir))
    case OpenFailed => code == [0] && item == Error(Cut(dir))
    case Stream(entries, fails) => Yields(c, dir, entries, fails, {}, code, item)
  }

  /**
   The listing is exactly what the system's answers call for, in the order of the places: of every directory
   that can be reached, each entry whose path fits, as what it is, and each thing that goes wrong; directories
   before what is below them, entries as they are read, each once; and then the end.
   */
  lemma ListingHolds(c: Config, b: Bounds, dir: CString) returns (codes: seq<Code>)
    requires Listable(c, b) && RootListable(c, b, dir) && Truthful(c) && RootTruthful(c, dir)
    ensures var items := Listing(c, b, dir);
            && |items| == |codes| + 1 && items[|codes|] == Done && InOrder(codes)
            && (forall n :: 0 <= n < |codes| ==> YieldsRoot(c, dir, codes[n], items[n]))
            && (forall code, item :: YieldsRoot(c, dir, code, item) ==> Stands(codes, items[..|codes|], code, item))
  {
    hide Listable, Truthful, ListEntries, Yields;
    match c.fs.open(Cut(dir))
    case OpenFailed =>
      codes := [[0]];
      assert codes[0] == [0] && Listing(c, b, dir)[..1] == [Error(Cut(dir))];
    case Stream(entries, fails) =>
      var items := ListEntries(c, b, dir, entries, fails, {}, b.depth(Cut(dir)));
      codes := EntriesListed(c, b, dir, entries, fails, {}, b.depth(Cut(dir)));
      assert Listing(c, b, dir)[..|codes|] == items;
      forall n | 0 <= n < |codes| ensures YieldsRoot(c, dir, codes[n], Listing(c, b, dir)[n]) {
        assert Listing(c, b, dir)[n] == items[n];
      }
  }
}
