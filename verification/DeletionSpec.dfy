/** Recursive deletion on a file system that nobody else changes: when it succeeds, and what it removes. */
module DeletionSpec {
  import opened PathBuffers
  import opened ListingSpec

  // ---------- The file system ----------

  datatype Kind = Plain | Symlink | Folder

  /** A place in the tree: the names on the way from the root. */
  type Place = seq<CString>

  type Nodes = map<Place, Kind>

  datatype Call = StatCall | UnlinkCall | OpenCall | CloseCall | RemoveDirCall

  /**
   What the system answers: the place a path leads to, the entries that reading a directory yields and
   whether it then fails, and the calls that it refuses.
   */
  datatype System = System(
    resolve: CString -> Place,
    entries: Place -> seq<Dirent>,
    readFails: Place -> bool,
    refuses: (Call, Place) -> bool)

  predicate Within(root: Place, p: Place) {
    root <= p
  }

  predicate Below(root: Place, p: Place) {
    |root| < |p| && root <= p
  }

  /** The first entry with a name, or the number of entries. */
  function IndexOf(entries: seq<Dirent>, name: CString): (k: nat)
    ensures k <= |entries| && (k < |entries| ==> entries[k].name == name)
    ensures forall i :: 0 <= i < k ==> entries[i].name != name
  {
    if entries == [] || entries[0].name == name then 0 else 1 + IndexOf(entries[1..], name)
  }

  function Child(dir: CString, name: CString): CString {
    Concat(Concat(dir, "/"), name)
  }

  function ChildLength(dir: CString, name: CString): nat {
    |dir| + 1 + |name|
  }

  predicate TypeMatches(dtype: DType, kind: Kind) {
    match dtype
    case DtUnknown => true
    case DtDir => kind == Folder
    case DtLnk => kind == Symlink
    case _ => kind == Plain
  }

  // ---------- The trees deleted ----------

  /**
   The path `dir` leads to a tree at `place`, at most `depth` deep, that reading its directories shows
   truly. No path in it has exactly `PATH_MAX` characters.
   */
  ghost predicate TreeOk(y: System, nodes: Nodes, dir: CString, place: Place, depth: nat)
    decreases depth, 1
  {
    && y.resolve(dir) == place
    && (place in nodes && nodes[place] == Folder ==> FolderOk(y, nodes, dir, place, depth))
    && (place in nodes && nodes[place] != Folder ==> forall p :: p in nodes ==> !Below(place, p))
  }

  ghost predicate FolderOk(y: System, nodes: Nodes, dir: CString, place: Place, depth: nat)
    decreases depth, 0
  {
    var entries := y.entries(place);
    && y.resolve(Concat(dir, "/")) == place
    && |dir| + 1 != PATH_MAX
    && (forall i :: 0 <= i < |entries| ==> EntryShape(y, nodes, dir, place, entries[i]))
    && (forall i :: 0 <= i < |entries| && !IsDots(entries[i].name) ==> IndexOf(entries, entries[i].name) == i)
    && (forall p :: p in nodes && Below(place, p) ==> !IsDots(p[|place|]))
    && (!y.readFails(place) ==> forall p :: p in nodes && Below(place, p) ==> IndexOf(entries, p[|place|]) < |entries|)
    && (forall i :: 0 <= i < |entries| && !IsDots(entries[i].name) && ChildLength(dir, entries[i].name) < PATH_MAX ==>
                      depth > 0 && TreeOk(y, nodes, Child(dir, entries[i].name), place + [entries[i].name], depth - 1))
  }

  lemma FolderPath(y: System, nodes: Nodes, dir: CString, place: Place, depth: nat)
    requires FolderOk(y, nodes, dir, place, depth)
    ensures y.resolve(Concat(dir, "/")) == place && |dir| + 1 != PATH_MAX
  {
  }

  /** An entry stands for a child, or is one of the two dots, which lead to directories. */
  ghost predicate EntryShape(y: System, nodes: Nodes, dir: CString, place: Place, e: Dirent) {
    && ChildLength(dir, e.name) != PATH_MAX
    && if IsDots(e.name)
       then (e.dtype == DtDir || e.dtype == DtUnknown) && DotsAt(y, nodes, dir, place, e.name)
       else place + [e.name] in nodes && TypeMatches(e.dtype, nodes[place + [e.name]])
  }

  ghost predicate DotsAt(y: System, nodes: Nodes, dir: CString, place: Place, name: CString) {
    var target := y.resolve(Child(dir, name));
    (target == place || (|place| > 0 && target == place[..|place| - 1])) && target in nodes && nodes[target] == Folder
  }

  // ---------- When deletion succeeds ----------

  /** Every call that the deletion of the tree makes is answered, and every path fits. */
  ghost predicate Deletable(y: System, nodes: Nodes, dir: CString, place: Place, depth: nat)
    decreases depth, 2
  {
    && place in nodes && !y.refuses(StatCall, place)
    && if nodes[place] != Folder then !y.refuses(UnlinkCall, place) else FolderDeletable(y, nodes, dir, place, depth)
  }

  ghost predicate FolderDeletable(y: System, nodes: Nodes, dir: CString, place: Place, depth: nat)
    decreases depth, 1
  {
    && |dir| + 1 <= PATH_MAX && !y.refuses(OpenCall, place)
    && (forall i :: 0 <= i < |y.entries(place)| ==> EntryDeletable(y, nodes, dir, place, y.entries(place)[i], depth))
    && !y.readFails(place) && !y.refuses(CloseCall, place) && !y.refuses(RemoveDirCall, place)
  }

  ghost predicate EntryDeletable(y: System, nodes: Nodes, dir: CString, place: Place, e: Dirent, depth: nat)
    decreases depth, 0
  {
    if IsDots(e.name) then DotsPass(y, dir, e)
    else
      && ChildLength(dir, e.name) <= PATH_MAX && PassesStat(y, place, e)
      && if IsFolderEntry(nodes, place, e)
         then depth > 0 && Deletable(y, nodes, Child(dir, e.name), place + [e.name], depth - 1)
         else !y.refuses(UnlinkCall, place + [e.name])
  }

  predicate IsFolderEntry(nodes: Nodes, place: Place, e: Dirent) {
    place + [e.name] in nodes && nodes[place + [e.name]] == Folder
  }

  /** An entry of unknown type is looked at first. */
  predicate PassesStat(y: System, place: Place, e: Dirent) {
    e.dtype == DtUnknown ==> !y.refuses(StatCall, place + [e.name])
  }

  predicate DotsPass(y: System, dir: CString, e: Dirent) {
    e.dtype == DtUnknown ==> ChildLength(dir, e.name) <= PATH_MAX && !y.refuses(StatCall, y.resolve(Child(dir, e.name)))
  }

  // ---------- What deletion removes ----------

  /** Only nodes within `root` are gone, and the rest is as it was. */
  ghost predicate OnlyWithin(before: Nodes, after: Nodes, root: Place) {
    && (forall p :: p in after ==> p in before && after[p] == before[p])
    && (forall p :: p in before && !Within(root, p) ==> p in after)
  }

  ghost predicate Gone(nodes: Nodes, root: Place) {
    forall p :: p in nodes ==> !Within(root, p)
  }

  /** What a deletion leaves behind. */
  ghost predicate Outcome(before: Nodes, after: Nodes, root: Place, ok: bool) {
    && OnlyWithin(before, after, root)
    && (ok ==> Gone(after, root))
    && (!ok && root in before ==> root in after)
  }

  /** Success and the set of nodes that remain determine each other. */
  lemma OutcomeExact(before: Nodes, after: Nodes, root: Place, ok: bool)
    requires Outcome(before, after, root, ok) && root in before
    ensures ok <==> root !in after
    ensures ok <==> after == map p | p in before && !Within(root, p) :: before[p]
  {
    assert Within(root, root);
  }

  /** Removing a node that has nothing below it. */
  lemma RemoveLeaf(nodes: Nodes, p: Place)
    requires p in nodes && forall q :: q in nodes ==> !Below(p, q)
    ensures Outcome(nodes, nodes - {p}, p, true)
  {
    forall q | q in nodes - {p} ensures !Within(p, q) {
      assert !Below(p, q) && q != p;
      if |p| == |q| {
        assert p == q[..|p|] <==> p == q;
      }
    }
  }

  lemma Untouched(nodes: Nodes, p: Place)
    ensures Outcome(nodes, nodes, p, false)
  {
  }

  // ---------- Changes elsewhere do not matter ----------

  predicate Relevant(place: Place, p: Place) {
    Within(place, p) || (|place| > 0 && p == place[..|place| - 1])
  }

  ghost predicate Agree(m: Nodes, n: Nodes, place: Place) {
    forall p :: Relevant(place, p) ==> (p in m <==> p in n) && (p in m ==> m[p] == n[p])
  }

  lemma AgreeChild(m: Nodes, n: Nodes, place: Place, name: CString)
    requires Agree(m, n, place)
    ensures Agree(m, n, place + [name])
  {
    forall p | Relevant(place + [name], p) ensures Relevant(place, p) {
      if p == (place + [name])[..|place + [name]| - 1] {
        assert p == place;
      }
    }
  }

  lemma {:induction false} TreeFrame(y: System, m: Nodes, n: Nodes, dir: CString, place: Place, depth: nat)
    requires Agree(m, n, place) && TreeOk(y, m, dir, place, depth)
    ensures TreeOk(y, n, dir, place, depth)
    ensures Deletable(y, m, dir, place, depth) == Deletable(y, n, dir, place, depth)
    decreases depth
  {
    assert Relevant(place, place);
    assert forall p :: Below(place, p) ==> Relevant(place, p);
    if place in m && m[place] == Folder {
      var entries := y.entries(place);
      forall i | 0 <= i < |entries|
        ensures EntryShape(y, n, dir, place, entries[i])
        ensures EntryDeletable(y, m, dir, place, entries[i], depth) == EntryDeletable(y, n, dir, place, entries[i], depth)
        ensures !IsDots(entries[i].name) && ChildLength(dir, entries[i].name) < PATH_MAX ==>
                  depth > 0 && TreeOk(y, n, Child(dir, entries[i].name), place + [entries[i].name], depth - 1)
      {
        var e := entries[i];
        assert EntryShape(y, m, dir, place, e);
        assert Relevant(place, place + [e.name]);
        if IsDots(e.name) {
          assert Relevant(place, y.resolve(Child(dir, e.name)));
        } else if ChildLength(dir, e.name) < PATH_MAX {
          AgreeChild(m, n, place, e.name);
          TreeFrame(y, m, n, Child(dir, e.name), place + [e.name], depth - 1);
        }
      }
    }
  }

  // ---------- A directory part of whose entries are gone ----------

  /** The nodes left when the first `i` entries of a directory are deleted. */
  function Left(nodes: Nodes, place: Place, entries: seq<Dirent>, i: nat): Nodes {
    map p | p in nodes && !(Below(place, p) && IndexOf(entries, p[|place|]) < i) :: nodes[p]
  }

  lemma LeftAgrees(y: System, nodes: Nodes, dir: CString, place: Place, depth: nat, i: nat)
    requires FolderOk(y, nodes, dir, place, depth) && i < |y.entries(place)| && !IsDots(y.entries(place)[i].name)
    ensures Agree(nodes, Left(nodes, place, y.entries(place), i), place + [y.entries(place)[i].name])
  {
    var child := place + [y.entries(place)[i].name];
    forall p | Relevant(child, p) ensures !(Below(place, p) && IndexOf(y.entries(place), p[|place|]) < i) {
      if Within(child, p) {
        assert p[|place|] == child[|place|];
      } else {
        assert p == place;
      }
    }
  }

  /** The next entry is as it was at the start. */
  lemma NextEntry(y: System, nodes: Nodes, dir: CString, place: Place, depth: nat, i: nat)
    requires FolderOk(y, nodes, dir, place, depth) && i < |y.entries(place)| && place in nodes && nodes[place] == Folder
    ensures var left, e := Left(nodes, place, y.entries(place), i), y.entries(place)[i];
            && EntryShape(y, left, dir, place, e)
            && EntryDeletable(y, nodes, dir, place, e, depth) == EntryDeletable(y, left, dir, place, e, depth)
            && (!IsDots(e.name) && ChildLength(dir, e.name) < PATH_MAX ==>
                  depth > 0 && TreeOk(y, left, Child(dir, e.name), place + [e.name], depth - 1))
  {
    var left, e := Left(nodes, place, y.entries(place), i), y.entries(place)[i];
    assert EntryShape(y, nodes, dir, place, e);
    if !IsDots(e.name) {
      LeftAgrees(y, nodes, dir, place, depth, i);
      assert Relevant(place + [e.name], place + [e.name]);
      if ChildLength(dir, e.name) < PATH_MAX {
        TreeFrame(y, nodes, left, Child(dir, e.name), place + [e.name], depth - 1);
      }
    }
  }

  lemma LeftStart(nodes: Nodes, place: Place, entries: seq<Dirent>)
    ensures Left(nodes, place, entries, 0) == nodes
  {
  }

  /** Deleting the next entry. */
  lemma LeftNext(y: System, nodes: Nodes, after: Nodes, dir: CString, place: Place, depth: nat, i: nat)
    requires FolderOk(y, nodes, dir, place, depth) && i < |y.entries(place)| && !IsDots(y.entries(place)[i].name)
    requires Outcome(Left(nodes, place, y.entries(place), i), after, place + [y.entries(place)[i].name], true)
    ensures after == Left(nodes, place, y.entries(place), i + 1)
  {
    var entries := y.entries(place);
    var child := place + [entries[i].name];
    forall p | p in nodes
      ensures Below(place, p) && IndexOf(entries, p[|place|]) == i <==> Within(child, p)
    {
      if Below(place, p) && IndexOf(entries, p[|place|]) == i {
        assert p[..|child|] == child;
      }
    }
  }

  /** The dots are skipped. */
  lemma LeftDots(y: System, nodes: Nodes, dir: CString, place: Place, depth: nat, i: nat)
    requires FolderOk(y, nodes, dir, place, depth) && i < |y.entries(place)| && IsDots(y.entries(place)[i].name)
    ensures Left(nodes, place, y.entries(place), i + 1) == Left(nodes, place, y.entries(place), i)
  {
    assert forall p :: p in nodes && Below(place, p) ==> IndexOf(y.entries(place), p[|place|]) != i;
  }

  /** With every entry deleted the directory is empty, and only it and what was below has gone. */
  lemma LeftEnd(y: System, nodes: Nodes, dir: CString, place: Place, depth: nat)
    requires FolderOk(y, nodes, dir, place, depth) && !y.readFails(place)
    ensures var left := Left(nodes, place, y.entries(place), |y.entries(place)|);
            forall p :: p in left ==> !Below(place, p)
  {
  }

  lemma LeftWithin(nodes: Nodes, place: Place, entries: seq<Dirent>, i: nat)
    requires place in nodes
    ensures OnlyWithin(nodes, Left(nodes, place, entries, i), place) && place in Left(nodes, place, entries, i)
  {
  }

  /** A failure part of the way. */
  lemma PartlyDeleted(nodes: Nodes, after: Nodes, place: Place, entries: seq<Dirent>, i: nat)
    requires place in nodes && i < |entries|
    requires if IsDots(entries[i].name) then after == Left(nodes, place, entries, i)
             else Outcome(Left(nodes, place, entries, i), after, place + [entries[i].name], false)
    ensures Outcome(nodes, after, place, false)
  {
    LeftWithin(nodes, place, entries, i);
    var child := place + [entries[i].name];
    assert !Within(child, place);
    assert forall p :: Within(child, p) ==> Within(place, p);
  }

  /** The end: the directory itself goes. */
  lemma FolderGone(y: System, nodes: Nodes, dir: CString, place: Place, depth: nat)
    requires FolderOk(y, nodes, dir, place, depth) && !y.readFails(place) && place in nodes
    ensures var left := Left(nodes, place, y.entries(place), |y.entries(place)|);
            place in left && (forall p :: p in left ==> !Below(place, p)) && Outcome(nodes, left - {place}, place, true)
  {
    hide FolderOk;
    var left := Left(nodes, place, y.entries(place), |y.entries(place)|);
    LeftEnd(y, nodes, dir, place, depth);
    LeftWithin(nodes, place, y.entries(place), |y.entries(place)|);
    RemoveLeaf(left, place);
  }

  lemma FolderStays(nodes: Nodes, place: Place, entries: seq<Dirent>, i: nat)
    requires place in nodes
    ensures Outcome(nodes, Left(nodes, place, entries, i), place, false)
  {
    LeftWithin(nodes, place, entries, i);
  }
}
