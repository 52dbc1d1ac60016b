/** `DeleteRecursively` with its helpers: one path buffer, lengthened and reset along the way. */
module RecursiveDeletion {
  import opened PathBuffers
  import opened ListingSpec
  import opened DeletionSpec
  import opened DeletionAnswers
  import opened Options

  /** The file system behind the system calls. */
  class Disk {
    const system: System
    var nodes: Nodes

    constructor (system: System, nodes: Nodes)
      ensures this.system == system && this.nodes == nodes
    {
      this.system, this.nodes := system, nodes;
    }

    /** `fstatat` without following a link. */
    method Lstat(path: CString) returns (kind: Option<Kind>)
      ensures kind == var p := system.resolve(path);
                      if p in nodes && !system.refuses(StatCall, p) then Some(nodes[p]) else None
    {
      var p := system.resolve(path);
      if p in nodes && !system.refuses(StatCall, p) {
        kind := Some(nodes[p]);
      } else {
        kind := None;
      }
    }

    method Unlink(path: CString) returns (ok: bool)
      modifies this`nodes
      ensures var p := system.resolve(path);
              && ok == (p in old(nodes) && old(nodes)[p] != Folder && !system.refuses(UnlinkCall, p))
              && nodes == if ok then old(nodes) - {p} else old(nodes)
    {
      var p := system.resolve(path);
      ok := p in nodes && nodes[p] != Folder && !system.refuses(UnlinkCall, p);
      if ok {
        nodes := nodes - {p};
      }
    }

    method RemoveDir(path: CString) returns (ok: bool)
      modifies this`nodes
      ensures var p := system.resolve(path);
              && ok == (p in old(nodes) && old(nodes)[p] == Folder && (forall q :: q in old(nodes) ==> !Below(p, q))
                        && !system.refuses(RemoveDirCall, p))
              && nodes == if ok then old(nodes) - {p} else old(nodes)
    {
      var p := system.resolve(path);
      ok := p in nodes && nodes[p] == Folder && (forall q :: q in nodes ==> !Below(p, q))
            && !system.refuses(RemoveDirCall, p);
      if ok {
        nodes := nodes - {p};
      }
    }

    /** Opening follows links; it is only ever asked for paths that lead to a directory itself. */
    method OpenDir(path: CString) returns (entries: Option<seq<Dirent>>)
      requires system.resolve(path) in nodes && nodes[system.resolve(path)] == Folder
      ensures entries == var p := system.resolve(path);
                         if system.refuses(OpenCall, p) then None else Some(system.entries(p))
    {
      var p := system.resolve(path);
      if system.refuses(OpenCall, p) {
        entries := None;
      } else {
        entries := Some(system.entries(p));
      }
    }
  }

  // ---------- Entries ----------

  /** The buffer holds `path`, which is not of the critical length. */
  ghost predicate Holds(buffer: PathBuffer, path: CString)
    reads buffer, buffer.data
  {
    buffer.Valid() && buffer.Keeps(path) && |path| == buffer.length
  }

  method DeleteFile(disk: Disk, name: CString, path: PathBuffer, ghost dir: CString, ghost place: Place) returns (ok: bool)
    requires Holds(path, Concat(dir, "/")) && ChildLength(dir, name) != PATH_MAX
    requires ChildLength(dir, name) < PATH_MAX ==> disk.system.resolve(Child(dir, name)) == place + [name]
    requires place + [name] in disk.nodes && disk.nodes[place + [name]] != Folder
    requires ChildLength(dir, name) < PATH_MAX ==> forall p :: p in disk.nodes ==> !Below(place + [name], p)
    modifies disk`nodes, path`length, path.data
    ensures path.Valid() && path.Keeps(Concat(dir, "/"))
    ensures ok == (ChildLength(dir, name) <= PATH_MAX && !disk.system.refuses(UnlinkCall, place + [name]))
    ensures Outcome(old(disk.nodes), disk.nodes, place + [name], ok)
  {
    hide PathBuffer.Keeps, PathBuffer.Reads, Outcome;
    Untouched(disk.nodes, place + [name]);
    ok := path.Add(name, Concat(dir, "/"));
    if ok {
      RemoveLeaf(disk.nodes, place + [name]);
      var text := path.AsString(Child(dir, name));
      ok := disk.Unlink(text);
    }
  }

  method DeleteDir(disk: Disk, name: CString, path: PathBuffer, ghost dir: CString, ghost place: Place, ghost depth: nat)
    returns (ok: bool)
    requires Holds(path, Concat(dir, "/"))
    requires !IsDots(name) ==>
               && ChildLength(dir, name) != PATH_MAX
               && (ChildLength(dir, name) < PATH_MAX ==>
                     depth > 0 && TreeOk(disk.system, disk.nodes, Child(dir, name), place + [name], depth - 1))
    modifies disk`nodes, path`length, path.data
    ensures path.Valid() && path.Keeps(Concat(dir, "/"))
    ensures IsDots(name) ==> ok && disk.nodes == old(disk.nodes)
    ensures !IsDots(name) ==>
              && ok == (ChildLength(dir, name) <= PATH_MAX && depth > 0
                        && Deletable(disk.system, old(disk.nodes), Child(dir, name), place + [name], depth - 1))
              && Outcome(old(disk.nodes), disk.nodes, place + [name], ok)
    decreases depth, 0
  {
    hide PathBuffer.Keeps, PathBuffer.Reads, Outcome, Deletable, TreeOk;
    if name == "." || name == ".." {
      return true;
    }
    Untouched(disk.nodes, place + [name]);
    ok := path.Add(name, Concat(dir, "/"));
    if ok {
      ok := DeleteRecursively(disk, path, Child(dir, name), place + [name], depth - 1);
      KeepsPart(path, Concat(dir, "/"), Child(dir, name));
    }
  }

  lemma KeepsPart(path: PathBuffer, short: CString, long: CString)
    requires path.Valid() && path.Keeps(long) && short <= long
    ensures path.Keeps(short)
  {
    path.KeepsShorter(short, long);
  }

  method DeleteEntry(disk: Disk, e: Dirent, path: PathBuffer, pathLength: int,
                     ghost dir: CString, ghost place: Place, ghost depth: nat)
    returns (ok: bool)
    requires Holds(path, Concat(dir, "/")) && path.length == pathLength && EntryShape(disk.system, disk.nodes, dir, place, e)
    requires !IsDots(e.name) && ChildLength(dir, e.name) < PATH_MAX ==>
               depth > 0 && TreeOk(disk.system, disk.nodes, Child(dir, e.name), place + [e.name], depth - 1)
    modifies disk`nodes, path`length, path.data
    ensures path.Valid() && path.Keeps(Concat(dir, "/"))
    ensures ok == EntryDeletable(disk.system, old(disk.nodes), dir, place, e, depth)
    ensures IsDots(e.name) ==> disk.nodes == old(disk.nodes)
    ensures !IsDots(e.name) ==> Outcome(old(disk.nodes), disk.nodes, place + [e.name], ok)
    decreases depth, 1
  {
    hide PathBuffer.Keeps, PathBuffer.Reads, Outcome, Deletable;
    Untouched(disk.nodes, place + [e.name]);
    var folder := e.dtype == DtDir;
    if e.dtype == DtUnknown {
      ghost var prefix := Concat(dir, "/");
      ok := path.Add(e.name, prefix);
      if !ok {
        return;
      }
      var text := path.AsString(Child(dir, e.name));
      var kind := disk.Lstat(text);
      if kind.None? {
        return false;
      }
      path.Reset(pathLength, prefix);
      folder := kind.value == Folder;
    }
    if folder {
      ok := DeleteDir(disk, e.name, path, dir, place, depth);
    } else {
      ok := DeleteFile(disk, e.name, path, dir, place);
    }
  }

  method DeleteRecursively(disk: Disk, path: PathBuffer, ghost dir: CString, ghost place: Place, ghost depth: nat)
    returns (ok: bool)
    requires Holds(path, dir) && path.Reads(dir) && |dir| < PATH_MAX
    requires TreeOk(disk.system, disk.nodes, dir, place, depth)
    modifies disk`nodes, path`length, path.data
    ensures path.Valid() && path.Keeps(dir)
    ensures ok == Deletable(disk.system, old(disk.nodes), dir, place, depth)
    ensures ok <==> place in old(disk.nodes) && AllAnswered(disk.system, old(disk.nodes), dir, place, true)
    ensures Outcome(old(disk.nodes), disk.nodes, place, ok)
    decreases depth, 3
  {
    hide PathBuffer.Keeps, PathBuffer.Reads, Outcome, FolderDeletable, FolderOk, AllAnswered;
    DeletableIff(disk.system, disk.nodes, dir, place, depth);
    Untouched(disk.nodes, place);
    var text := path.AsString(dir);
    var kind := disk.Lstat(text);
    if kind.None? {
      return false;
    }
    if kind.value != Folder {
      RemoveLeaf(disk.nodes, place);
      ok := disk.Unlink(text);
      return;
    }
    ok := DeleteFolder(disk, path, dir, place, depth);
  }

  /** The part for a directory: every entry in turn, then the directory itself. */
  method DeleteFolder(disk: Disk, path: PathBuffer, ghost dir: CString, ghost place: Place, ghost depth: nat)
    returns (ok: bool)
    requires Holds(path, dir) && |dir| < PATH_MAX && place in disk.nodes && disk.nodes[place] == Folder
    requires FolderOk(disk.system, disk.nodes, dir, place, depth)
    modifies disk`nodes, path`length, path.data
    ensures path.Valid() && path.Keeps(dir)
    ensures ok == FolderDeletable(disk.system, old(disk.nodes), dir, place, depth)
    ensures Outcome(old(disk.nodes), disk.nodes, place, ok)
    decreases depth, 2
  {
    hide PathBuffer.Keeps, PathBuffer.Reads, Outcome, EntryDeletable, FolderOk, Left;
    FolderPath(disk.system, disk.nodes, dir, place, depth);
    ghost var nodes, y, prefix := disk.nodes, disk.system, Concat(dir, "/");
    Untouched(nodes, place);
    ok := path.Add("/", dir);
    if !ok {
      return;
    }
    var text := path.AsString(prefix);
    var entries := disk.OpenDir(text);
    if entries.None? {
      return false;
    }
    var pathLength, i := path.length, 0;
    LeftStart(nodes, place, entries.value);
    while i < |entries.value|
      invariant 0 <= i <= |entries.value| && Holds(path, prefix) && path.Reads(prefix) && path.Keeps(dir)
      invariant disk.nodes == Left(nodes, place, entries.value, i)
      invariant forall k :: 0 <= k < i ==> EntryDeletable(y, nodes, dir, place, entries.value[k], depth)
    {
      NextEntry(y, nodes, dir, place, depth, i);
      ok := DeleteEntry(disk, entries.value[i], path, pathLength, dir, place, depth);
      KeepsPart(path, dir, prefix);
      if !ok {
        PartlyDeleted(nodes, disk.nodes, place, entries.value, i);
        return;
      }
      if IsDots(entries.value[i].name) {
        LeftDots(y, nodes, dir, place, depth, i);
      } else {
        LeftNext(y, nodes, disk.nodes, dir, place, depth, i);
      }
      path.Reset(pathLength, prefix);
      KeepsPart(path, dir, prefix);
      i := i + 1;
    }
    ok := FinishFolder(disk, path, prefix, nodes, dir, place, depth);
  }

  /** All entries are gone: the end of the directory, or a failure to read it, to close it or to remove it. */
  method FinishFolder(disk: Disk, path: PathBuffer, ghost prefix: CString, ghost nodes: Nodes,
                      ghost dir: CString, ghost place: Place, ghost depth: nat)
    returns (ok: bool)
    requires path.Valid() && path.Reads(prefix) && prefix == Concat(dir, "/") && |prefix| <= PATH_MAX
    requires FolderOk(disk.system, nodes, dir, place, depth) && place in nodes && nodes[place] == Folder
    requires disk.nodes == Left(nodes, place, disk.system.entries(place), |disk.system.entries(place)|)
    modifies disk`nodes
    ensures ok == (!disk.system.readFails(place) && !disk.system.refuses(CloseCall, place)
                   && !disk.system.refuses(RemoveDirCall, place))
    ensures Outcome(nodes, disk.nodes, place, ok)
  {
    hide PathBuffer.Keeps, PathBuffer.Reads, Outcome;
    FolderStays(nodes, place, disk.system.entries(place), |disk.system.entries(place)|);
    var text := path.AsString(prefix);
    var p := disk.system.resolve(text);
    if disk.system.readFails(p) {
      return false;
    }
    if disk.system.refuses(CloseCall, p) {
      return false;
    }
    FolderGone(disk.system, nodes, dir, place, depth);
    ok := disk.RemoveDir(text);
  }

  /** `Directory::Delete`, recursive. */
  method Delete(disk: Disk, name: CString, ghost place: Place, ghost depth: nat) returns (ok: bool)
    requires |name| != PATH_MAX
    requires |name| < PATH_MAX ==> TreeOk(disk.system, disk.nodes, name, place, depth)
    modifies disk`nodes
    ensures ok == (|name| <= PATH_MAX && Deletable(disk.system, old(disk.nodes), name, place, depth))
    ensures ok <==> |name| <= PATH_MAX && place in old(disk.nodes)
                    && AllAnswered(disk.system, old(disk.nodes), name, place, true)
    ensures Outcome(old(disk.nodes), disk.nodes, place, ok)
  {
    hide PathBuffer.Keeps, PathBuffer.Reads, Outcome, TreeOk, Deletable, AllAnswered;
    Untouched(disk.nodes, place);
    var path := new PathBuffer();
    assert Concat("", name) == name;
    ok := path.Add(name, "");
    if ok {
      ok := DeleteRecursively(disk, path, name, place, depth);
    }
  }
}
