/**
 When recursive deletion succeeds, said of the nodes of the tree and of the system's answers at each of
 them, without following the deletion.
 */
module DeletionAnswers {
  import opened PathBuffers
  import opened ListingSpec
  import opened DeletionSpec

  /** The path to a node, given the names that lead to it from the directory. */
  function PathTo(dir: CString, names: seq<CString>): CString
    decreases |names|
  {
    if names == [] then dir else PathTo(Child(dir, names[0]), names[1..])
  }

  /** Reading its directory gives no type for the node. */
  ghost predicate TypeUnknown(y: System, p: Place) {
    |p| > 0 &&
    var entries := y.entries(p[..|p| - 1]);
    exists i :: 0 <= i < |entries| && entries[i] == Dirent(p[|p| - 1], DtUnknown)
  }

  /** A dot of unknown type is looked at; the paths of the others are not formed. */
  ghost predicate DotAnswered(y: System, path: CString, e: Dirent) {
    (e.name == "." || e.name == "..") && e.dtype == DtUnknown ==>
      |path| + 1 + |e.name| <= PATH_MAX && !y.refuses(StatCall, y.resolve(Child(path, e.name)))
  }

  /** At the node of that path everything that is asked for is granted, and its path fits. */
  ghost predicate Answered(y: System, nodes: Nodes, path: CString, p: Place, root: bool)
    requires p in nodes
  {
    if nodes[p] == Folder then
      && |path| + 1 <= PATH_MAX && !y.readFails(p)
      && !y.refuses(StatCall, p) && !y.refuses(OpenCall, p) && !y.refuses(CloseCall, p) && !y.refuses(RemoveDirCall, p)
      && forall i :: 0 <= i < |y.entries(p)| ==> DotAnswered(y, path, y.entries(p)[i])
    else
      && |path| <= PATH_MAX && !y.refuses(UnlinkCall, p)
      && (root || TypeUnknown(y, p) ==> !y.refuses(StatCall, p))
  }

  /** The same of every node of the tree at `place`. */
  ghost predicate AllAnswered(y: System, nodes: Nodes, dir: CString, place: Place, root: bool) {
    forall p :: p in nodes && Within(place, p) ==>
                  Answered(y, nodes, PathTo(dir, p[|place|..]), p, root && p == place)
  }

  // ---------- A node and the trees below it ----------

  lemma PathToSelf(dir: CString, place: Place)
    ensures Within(place, place) && PathTo(dir, place[|place|..]) == dir
  {
    assert place[|place|..] == [];
  }

  lemma PathToBelow(dir: CString, place: Place, p: Place)
    requires Below(place, p)
    ensures Within(place + [p[|place|]], p)
    ensures PathTo(dir, p[|place|..]) == PathTo(Child(dir, p[|place|]), p[|place + [p[|place|]]|..])
  {
    assert p[|place|..][1..] == p[|place| + 1..] && p[..|place| + 1] == place + [p[|place|]];
  }

  /** A node without anything below it. */
  lemma LeafAnswered(y: System, nodes: Nodes, dir: CString, place: Place, root: bool)
    requires place in nodes && forall p :: p in nodes ==> !Below(place, p)
    ensures AllAnswered(y, nodes, dir, place, root) <==> Answered(y, nodes, dir, place, root)
  {
    hide Answered;
    PathToSelf(dir, place);
    forall p | p in nodes && Within(place, p) ensures p == place {
      assert !Below(place, p);
    }
  }

  /** The trees of the entries that are not dots. */
  ghost predicate ChildrenAnswered(y: System, nodes: Nodes, dir: CString, place: Place) {
    forall i :: 0 <= i < |y.entries(place)| && !IsDots(y.entries(place)[i].name) ==>
                  var name := y.entries(place)[i].name; AllAnswered(y, nodes, Child(dir, name), place + [name], false)
  }

  lemma FolderAnswered(y: System, nodes: Nodes, dir: CString, place: Place, depth: nat, root: bool)
    requires place in nodes && nodes[place] == Folder && FolderOk(y, nodes, dir, place, depth)
    ensures AllAnswered(y, nodes, dir, place, root) <==>
            Answered(y, nodes, dir, place, root) && ChildrenAnswered(y, nodes, dir, place)
  {
    PathToSelf(dir, place);
    if AllAnswered(y, nodes, dir, place, root) {
      assert Answered(y, nodes, PathTo(dir, place[|place|..]), place, root && place == place);
      forall i | 0 <= i < |y.entries(place)| && !IsDots(y.entries(place)[i].name)
        ensures var name := y.entries(place)[i].name; AllAnswered(y, nodes, Child(dir, name), place + [name], false)
      {
        ChildFromAll(y, nodes, dir, place, y.entries(place)[i].name, root);
      }
    }
    if Answered(y, nodes, dir, place, root) && ChildrenAnswered(y, nodes, dir, place) {
      forall p | p in nodes && Within(place, p)
        ensures Answered(y, nodes, PathTo(dir, p[|place|..]), p, root && p == place)
      {
        if p != place {
          NameListed(y, nodes, dir, place, depth, p);
          PathToBelow(dir, place, p);
        }
      }
    }
  }

  lemma ChildFromAll(y: System, nodes: Nodes, dir: CString, place: Place, name: CString, root: bool)
    requires AllAnswered(y, nodes, dir, place, root)
    ensures AllAnswered(y, nodes, Child(dir, name), place + [name], false)
  {
    hide Answered;
    forall p | p in nodes && Within(place + [name], p)
      ensures Answered(y, nodes, PathTo(Child(dir, name), p[|place + [name]|..]), p, false)
    {
      assert p[|place|] == (place + [name])[|place|] == name;
      assert Below(place, p) && p != place;
      PathToBelow(dir, place, p);
      assert Answered(y, nodes, PathTo(dir, p[|place|..]), p, root && p == place);
    }
  }

  /** The name of a node below is among the entries, as long as they can be read to the end. */
  lemma NameListed(y: System, nodes: Nodes, dir: CString, place: Place, depth: nat, p: Place)
    requires FolderOk(y, nodes, dir, place, depth) && !y.readFails(place)
    requires p in nodes && Within(place, p) && p != place
    ensures Below(place, p)
    ensures exists i :: 0 <= i < |y.entries(place)| && !IsDots(y.entries(place)[i].name)
                        && y.entries(place)[i].name == p[|place|]
  {
    assert |p| == |place| ==> p == place;
    var k := IndexOf(y.entries(place), p[|place|]);
    assert y.entries(place)[k].name == p[|place|];
  }

  // ---------- Deletion succeeds exactly if every node is answered ----------

  /** The type unknown to the entry of a child is the one unknown of its place. */
  lemma TypeOfChild(y: System, nodes: Nodes, dir: CString, place: Place, depth: nat, i: nat)
    requires FolderOk(y, nodes, dir, place, depth) && i < |y.entries(place)| && !IsDots(y.entries(place)[i].name)
    ensures TypeUnknown(y, place + [y.entries(place)[i].name]) <==> y.entries(place)[i].dtype == DtUnknown
  {
    var entries := y.entries(place);
    var child := place + [entries[i].name];
    assert child[..|child| - 1] == place;
    if TypeUnknown(y, child) {
      var k :| 0 <= k < |entries| && entries[k] == Dirent(entries[i].name, DtUnknown);
      assert IndexOf(entries, entries[k].name) == k && IndexOf(entries, entries[i].name) == i;
    }
    assert entries[i] == Dirent(entries[i].name, entries[i].dtype);
  }

  lemma {:induction false} EntryIff(y: System, nodes: Nodes, dir: CString, place: Place, depth: nat, i: nat)
    requires place in nodes && nodes[place] == Folder && FolderOk(y, nodes, dir, place, depth)
    requires i < |y.entries(place)| && !IsDots(y.entries(place)[i].name)
    ensures var e := y.entries(place)[i];
            EntryDeletable(y, nodes, dir, place, e, depth) <==>
            AllAnswered(y, nodes, Child(dir, e.name), place + [e.name], false)
    decreases depth, 0
  {
    hide AllAnswered, TypeUnknown, FolderDeletable, FolderOk;
    var e := y.entries(place)[i];
    var child := place + [e.name];
    EntryKnown(y, nodes, dir, place, depth, i);
    if ChildLength(dir, e.name) > PATH_MAX {
      TooLong(y, nodes, Child(dir, e.name), child);
    } else if nodes[child] == Folder {
      DeletableIff(y, nodes, Child(dir, e.name), child, depth - 1);
      RootDoesNotMatter(y, nodes, Child(dir, e.name), child);
    } else {
      TypeOfChild(y, nodes, dir, place, depth, i);
      LeafAnswered(y, nodes, Child(dir, e.name), child, false);
    }
  }

  lemma EntryKnown(y: System, nodes: Nodes, dir: CString, place: Place, depth: nat, i: nat)
    requires FolderOk(y, nodes, dir, place, depth) && i < |y.entries(place)| && !IsDots(y.entries(place)[i].name)
    ensures var e := y.entries(place)[i];
            && place + [e.name] in nodes && ChildLength(dir, e.name) != PATH_MAX
            && (ChildLength(dir, e.name) < PATH_MAX ==>
                  depth > 0 && TreeOk(y, nodes, Child(dir, e.name), place + [e.name], depth - 1))
  {
    assert EntryShape(y, nodes, dir, place, y.entries(place)[i]);
  }

  lemma TooLong(y: System, nodes: Nodes, path: CString, p: Place)
    requires p in nodes && |path| > PATH_MAX
    ensures !AllAnswered(y, nodes, path, p, false)
  {
    PathToSelf(path, p);
    assert !Answered(y, nodes, PathTo(path, p[|p|..]), p, false);
  }

  /** A directory is looked at in any case. */
  lemma RootDoesNotMatter(y: System, nodes: Nodes, dir: CString, place: Place)
    requires place in nodes && nodes[place] == Folder
    ensures AllAnswered(y, nodes, dir, place, true) <==> AllAnswered(y, nodes, dir, place, false)
  {
    hide TypeUnknown, DotAnswered;
    forall p | p in nodes && Within(place, p)
      ensures Answered(y, nodes, PathTo(dir, p[|place|..]), p, true && p == place)
         <==> Answered(y, nodes, PathTo(dir, p[|place|..]), p, false && p == place)
    {
    }
  }

  /**
   A tree can be deleted exactly if it is there, and at every node of it nothing needed is refused, its
   directory can be read to the end, and its path fits.
   */
  lemma {:induction false} DeletableIff(y: System, nodes: Nodes, dir: CString, place: Place, depth: nat)
    requires TreeOk(y, nodes, dir, place, depth) && |dir| <= PATH_MAX
    ensures Deletable(y, nodes, dir, place, depth) <==> place in nodes && AllAnswered(y, nodes, dir, place, true)
    decreases depth, 2
  {
    hide AllAnswered, TypeUnknown, EntryDeletable, FolderOk, ChildrenAnswered;
    if place in nodes {
      if nodes[place] == Folder {
        FolderAnswered(y, nodes, dir, place, depth, true);
        FolderIff(y, nodes, dir, place, depth);
      } else {
        LeafAnswered(y, nodes, dir, place, true);
      }
    }
  }

  lemma {:induction false} FolderIff(y: System, nodes: Nodes, dir: CString, place: Place, depth: nat)
    requires place in nodes && nodes[place] == Folder && FolderOk(y, nodes, dir, place, depth)
    ensures !y.refuses(StatCall, place) && FolderDeletable(y, nodes, dir, place, depth)
       <==> Answered(y, nodes, dir, place, true) && ChildrenAnswered(y, nodes, dir, place)
    decreases depth, 1
  {
    hide AllAnswered, TypeUnknown, EntryDeletable, FolderOk;
    var entries := y.entries(place);
    forall i | 0 <= i < |entries|
      ensures EntryDeletable(y, nodes, dir, place, entries[i], depth) <==>
              && DotAnswered(y, dir, entries[i])
              && (!IsDots(entries[i].name) ==>
                    AllAnswered(y, nodes, Child(dir, entries[i].name), place + [entries[i].name], false))
    {
      if IsDots(entries[i].name) {
        DotsIff(y, nodes, dir, place, entries[i], depth);
      } else {
        EntryIff(y, nodes, dir, place, depth, i);
      }
    }
  }

  lemma DotsIff(y: System, nodes: Nodes, dir: CString, place: Place, e: Dirent, depth: nat)
    requires IsDots(e.name)
    ensures EntryDeletable(y, nodes, dir, place, e, depth) <==> DotAnswered(y, dir, e)
  {
  }
}
