/** The in-memory file system: operations on path strings that update the tree in place. */
module RamFs {
  import opened Basics
  import opened FsTree

  // ---- what the operations are about -------------------------------------------------

  /** Where an operation on one path acts: the error of the first step that fails, or the path. */
  function Locate(n: Node, path: string): (r: Result<Path>)
  {
    match SplitPath(path)
    case Err(e) => Err(e)
    case Ok(p) =>
      if p == [] then Err(InvalidPath)
      else match WalkDir(n, p[..|p| - 1])
        case Err(e) => Err(e)
        case Ok(_) => Ok(p)
  }

  lemma LocatedHasParent(n: Node, path: string)
    requires Locate(n, path).Ok?
    ensures var p := Locate(n, path).value;
            && HasParent(n, p) && Ok(p) == SplitPath(path)
            && var es := WalkDir(n, p[..|p| - 1]).value;
            && Get(n, p) == (if p[|p| - 1] in es then Some(es[p[|p| - 1]]) else None)
  {
    var p := Locate(n, path).value;
    var d, x := p[..|p| - 1], p[|p| - 1];
    WalkOutcome(n, d);
    assert p == d + [x];
    EntryIn(n, d, x);
  }

  /** What a directory's entry is called below the directory's path. */
  lemma EntryIn(n: Node, d: Path, x: string)
    requires Get(n, d).Some? && Get(n, d).value.Dir?
    ensures var es := Get(n, d).value.entries;
            Get(n, d + [x]) == if x in es then Some(es[x]) else None
  {
    GetConcat(n, d, [x]);
    assert [x][1..] == [];
  }

  /** The path is relative or has no last component. */
  predicate NoTarget(path: string)
  {
    path == "" || path[0] != '/' || SplitPath(path) == Ok([])
  }

  /** Where an operation acts, and the exact reason why it cannot, read off the path map. */
  lemma LocateOutcome(n: Node, path: string)
    ensures Locate(n, path) == Err(InvalidPath) <==> NoTarget(path)
    ensures !NoTarget(path) ==>
              && SplitPath(path).Ok? && SplitPath(path).value != []
              && var p := SplitPath(path).value;
              var d := p[..|p| - 1];
              && (Locate(n, path).Ok? <==> Look(n, d) == Some(ADir))
              && (Locate(n, path).Ok? ==> Locate(n, path).value == p)
              && (Locate(n, path) == Err(NotFound) <==> exists i :: MissingAt(n, d, i))
              && (Locate(n, path) == Err(NotDirectory) <==> exists i :: 0 <= i <= |d| && Look(n, d[..i]).Some? && Look(n, d[..i]) != Some(ADir))
    ensures Locate(n, path).Ok? || Locate(n, path).error in {InvalidPath, NotFound, NotDirectory}
  {
    SplitRootAndRelative(path);
    if !NoTarget(path) {
      var p := SplitPath(path).value;
      var d := p[..|p| - 1];
      WalkOutcome(n, d);
      WalkErrors(n, d);
      FileOnTheWay(n, d);
    }
  }

  lemma {:induction false} WalkErrors(n: Node, p: Path)
    ensures Walk(n, p).Err? ==> Walk(n, p).error == NotDirectory || Walk(n, p).error == NotFound
    decreases |p|
  {
    if p != [] && n.Dir? && p[0] in n.entries { WalkErrors(n.entries[p[0]], p[1..]); }
  }

  /** A directory walk stops at a file exactly if one lies on the way or at the end. */
  lemma FileOnTheWay(n: Node, d: Path)
    ensures WalkDir(n, d) == Err(NotDirectory) <==>
              exists i :: 0 <= i <= |d| && Look(n, d[..i]).Some? && Look(n, d[..i]) != Some(ADir)
  {
    WalkOutcome(n, d);
    assert d[..|d|] == d;
    if i: nat :| FileAt(n, d, i) {
      assert i <= |d| && Look(n, d[..i]).Some? && Look(n, d[..i]) != Some(ADir);
    }
    if i :| 0 <= i <= |d| && Look(n, d[..i]).Some? && Look(n, d[..i]) != Some(ADir) {
      if i < |d| { assert FileAt(n, d, i); }
    }
  }

  ghost predicate UpdatedAt(n: Node, n': Node, p: Path, e: Option<Entry>, q: Path)
  {
    Look(n', q) == if q == p then e else Look(n, q)
  }

  /** Exactly the entry at `p` became `e`. */
  ghost predicate Updated(n: Node, n': Node, p: Path, e: Option<Entry>)
  {
    forall q {:trigger UpdatedAt(n, n', p, e, q)} :: UpdatedAt(n, n', p, e, q)
  }

  /** A leaf written where there was nothing, a file, or an empty directory changes that entry alone. */
  lemma PutUpdates(n: Node, p: Path, leaf: Option<Node>)
    requires HasParent(n, p) && (leaf.Some? ==> Leafy(leaf.value))
    requires Get(n, p).Some? ==> Leafy(Get(n, p).value)
    ensures Updated(n, Put(n, p, leaf), p, if leaf.Some? then Some(EntryOf(leaf.value)) else None)
  {
    var e := if leaf.Some? then Some(EntryOf(leaf.value)) else None;
    forall q ensures UpdatedAt(n, Put(n, p, leaf), p, e, q) {
      LookPut(n, p, leaf, q);
      if p <= q && p != q {
        assert q == p + q[|p|..];
        GetConcat(n, p, q[|p|..]);
      }
    }
  }

  /** Nothing lies below: a file or an empty directory. */
  predicate Leafy(n: Node)
  {
    n.File? || n.entries == map[]
  }

  // ---- renaming ------------------------------------------------------------------------

  /** The tree without everything at and below `p`. */
  ghost predicate Without(n: Node, n': Node, p: Path)
  {
    forall q :: Look(n', q) == if p <= q then None else Look(n, q)
  }

  /** Everything at and below `src` now lies at and below `dst`. */
  ghost predicate Moved(n: Node, n': Node, src: Path, dst: Path)
  {
    forall q :: Look(n', q) ==
      if dst <= q then Look(n, src + q[|dst|..]) else if src <= q then None else Look(n, q)
  }

  /** Both paths split, both have a last component, and the source exists. */
  ghost predicate RenameStarts(n: Node, src: string, dst: string)
  {
    Locate(n, src).Ok? && SplitPath(dst).Ok? && SplitPath(dst).value != [] && Get(n, Locate(n, src).value).Some?
  }

  /** After the source is gone, the destination's directory exists and the name is free. */
  ghost predicate RenameLands(n: Node, src: string, dst: string)
  {
    Locate(n, src).Ok? &&
    var t := Put(n, Locate(n, src).value, None);
    Locate(t, dst).Ok? && Get(t, Locate(t, dst).value).None?
  }

  /** The error of a rename: of the first check that fails, the destination being checked last. */
  function RenameError(n: Node, src: string, dst: string): (e: Option<FsError>)
  {
    if SplitPath(src).Err? then Some(SplitPath(src).error)
    else if SplitPath(dst).Err? then Some(SplitPath(dst).error)
    else if SplitPath(dst).value == [] then Some(InvalidPath)
    else match Locate(n, src)
      case Err(e) => Some(e)
      case Ok(p) =>
        if Get(n, p).None? then Some(NotFound)
        else
          var t := Put(n, p, None);
          match Locate(t, dst)
          case Err(e) => Some(e)
          case Ok(q) => if Get(t, q).Some? then Some(AlreadyExists) else None
  }

  class RamFs {
    var root: Node

    /** The root is a directory. */
    predicate Valid()
      reads this
    {
      root.Dir?
    }

    constructor ()
      ensures Valid()
      ensures forall q :: Look(root, q) ==
                if q == [] || q == ["bin"] || q == ["lib"] || q == ["home"] || q == ["tmp"] then Some(ADir) else None
    {
      root := Dir(map[]);
      new;
      ghost var n0 := root;
      MakeTop("bin");
      ghost var n1 := root;
      assert UpdatedAt(n0, n1, ["bin"], Some(ADir), ["lib"]);
      MakeTop("lib");
      ghost var n2 := root;
      assert UpdatedAt(n0, n1, ["bin"], Some(ADir), ["home"]) && UpdatedAt(n1, n2, ["lib"], Some(ADir), ["home"]);
      MakeTop("home");
      ghost var n3 := root;
      assert UpdatedAt(n0, n1, ["bin"], Some(ADir), ["tmp"]) && UpdatedAt(n1, n2, ["lib"], Some(ADir), ["tmp"]);
      assert UpdatedAt(n2, n3, ["home"], Some(ADir), ["tmp"]);
      MakeTop("tmp");
      forall q ensures Look(root, q) ==
                         if q == [] || q == ["bin"] || q == ["lib"] || q == ["home"] || q == ["tmp"] then Some(ADir) else None
      {
        assert UpdatedAt(n0, n1, ["bin"], Some(ADir), q) && UpdatedAt(n1, n2, ["lib"], Some(ADir), q);
        assert UpdatedAt(n2, n3, ["home"], Some(ADir), q) && UpdatedAt(n3, root, ["tmp"], Some(ADir), q);
      }
    }

    /** Create a directory right below the root. */
    method MakeTop(name: string)
      requires Valid() && Clean(name) && Look(root, [name]) == None
      modifies this
      ensures Valid() && Updated(old(root), root, [name], Some(ADir))
    {
      SplitJoin([name]);
      assert Join([name]) == "/" + name;
      assert [name][..0] == [];
      var r := Mkdir("/" + name);
    }

    /** The node a path names. */
    method NodeAt(path: string) returns (r: Result<Node>)
      ensures r == (match SplitPath(path) case Err(e) => Err(e) case Ok(p) => Walk(root, p))
    {
      var parts := SplitPath(path);
      if parts.Err? {
        return Err(parts.error);
      }
      var p := parts.value;
      var current := root;
      var i := 0;
      while i < |p|
        invariant 0 <= i <= |p| && Walk(root, p) == Walk(current, p[i..])
      {
        match current {
          case File(_) => return Err(NotDirectory);
          case Dir(entries) =>
            if p[i] !in entries {
              return Err(NotFound);
            }
            current := entries[p[i]];
        }
        i := i + 1;
      }
      return Ok(current);
    }

    /** The directory a list of components names. */
    method DirAt(p: Path) returns (r: Result<map<string, Node>>)
      ensures r == WalkDir(root, p)
    {
      var current := root;
      var i := 0;
      while i < |p|
        invariant 0 <= i <= |p| && Walk(root, p) == Walk(current, p[i..])
      {
        match current {
          case File(_) => return Err(NotDirectory);
          case Dir(entries) =>
            if p[i] !in entries {
              return Err(NotFound);
            }
            current := entries[p[i]];
        }
        i := i + 1;
      }
      match current {
        case File(_) => return Err(NotDirectory);
        case Dir(entries) => return Ok(entries);
      }
    }

    method Mkdir(path: string) returns (r: Result<()>)
      requires Valid()
      modifies this
      ensures Valid()
      ensures r.Err? ==> root == old(root)
      ensures r == if SplitPath(path) == Ok([]) then Err(AlreadyExists)
                   else match Locate(old(root), path)
                     case Err(e) => Err(e)
                     case Ok(p) => if Look(old(root), p).Some? then Err(AlreadyExists) else Ok(())
      ensures r.Ok? ==> Updated(old(root), root, Locate(old(root), path).value, Some(ADir))
    {
      var parts := SplitPath(path);
      if parts.Err? {
        return Err(parts.error);
      }
      if parts.value == [] {
        return Err(AlreadyExists);
      }
      var p, name := parts.value, parts.value[|parts.value| - 1];
      var dir := DirAt(p[..|p| - 1]);
      if dir.Err? {
        return Err(dir.error);
      }
      LocatedHasParent(root, path);
      if name in dir.value {
        return Err(AlreadyExists);
      }
      PutUpdates(root, p, Some(Dir(map[])));
      root := Put(root, p, Some(Dir(map[])));
      return Ok(());
    }

    method Touch(path: string) returns (r: Result<()>)
      requires Valid()
      modifies this
      ensures Valid()
      ensures r.Err? ==> root == old(root)
      ensures r == match Locate(old(root), path)
                   case Err(e) => Err(e)
                   case Ok(p) => if Look(old(root), p) == Some(ADir) then Err(IsDirectory) else Ok(())
      ensures r.Ok? ==> var p := Locate(old(root), path).value;
                        if Look(old(root), p).Some? then root == old(root) else Updated(old(root), root, p, Some(AFile([])))
    {
      var parts := SplitPath(path);
      if parts.Err? {
        return Err(parts.error);
      }
      if parts.value == [] {
        return Err(InvalidPath);
      }
      var p, name := parts.value, parts.value[|parts.value| - 1];
      var dir := DirAt(p[..|p| - 1]);
      if dir.Err? {
        return Err(dir.error);
      }
      LocatedHasParent(root, path);
      if name in dir.value {
        match dir.value[name] {
          case Dir(_) => return Err(IsDirectory);
          case File(_) => return Ok(());
        }
      }
      PutUpdates(root, p, Some(File([])));
      root := Put(root, p, Some(File([])));
      return Ok(());
    }

    /** Replace the contents of a file, creating it if need be. */
    method Write(path: string, data: seq<byte>) returns (r: Result<()>)
      requires Valid()
      modifies this
      ensures Valid()
      ensures r.Err? ==> root == old(root)
      ensures r == match Locate(old(root), path)
                   case Err(e) => Err(e)
                   case Ok(p) => if Look(old(root), p) == Some(ADir) then Err(IsDirectory) else Ok(())
      ensures r.Ok? ==> Updated(old(root), root, Locate(old(root), path).value, Some(AFile(data)))
    {
      var parts := SplitPath(path);
      if parts.Err? {
        return Err(parts.error);
      }
      if parts.value == [] {
        return Err(InvalidPath);
      }
      var p, name := parts.value, parts.value[|parts.value| - 1];
      var dir := DirAt(p[..|p| - 1]);
      if dir.Err? {
        return Err(dir.error);
      }
      LocatedHasParent(root, path);
      if name in dir.value && dir.value[name].Dir? {
        return Err(IsDirectory);
      }
      PutUpdates(root, p, Some(File(data)));
      root := Put(root, p, Some(File(data)));
      return Ok(());
    }

    /** Add to the end of a file, creating it if need be. */
    method Append(path: string, data: seq<byte>) returns (r: Result<()>)
      requires Valid()
      modifies this
      ensures Valid()
      ensures r.Err? ==> root == old(root)
      ensures r == match Locate(old(root), path)
                   case Err(e) => Err(e)
                   case Ok(p) => if Look(old(root), p) == Some(ADir) then Err(IsDirectory) else Ok(())
      ensures r.Ok? ==> var p := Locate(old(root), path).value;
                        var before := if Look(old(root), p).Some? then Look(old(root), p).value.data else [];
                        Updated(old(root), root, p, Some(AFile(before + data)))
    {
      var parts := SplitPath(path);
      if parts.Err? {
        return Err(parts.error);
      }
      if parts.value == [] {
        return Err(InvalidPath);
      }
      var p, name := parts.value, parts.value[|parts.value| - 1];
      var dir := DirAt(p[..|p| - 1]);
      if dir.Err? {
        return Err(dir.error);
      }
      LocatedHasParent(root, path);
      var content := data;
      assert [] + data == data;
      if name in dir.value {
        match dir.value[name] {
          case Dir(_) => return Err(IsDirectory);
          case File(before) => content := before + data;
        }
      }
      PutUpdates(root, p, Some(File(content)));
      root := Put(root, p, Some(File(content)));
      return Ok(());
    }

    method Read(path: string) returns (r: Result<seq<byte>>)
      ensures r == ReadResult(root, path)
    {
      var node := NodeAt(path);
      match node {
        case Err(e) => return Err(e);
        case Ok(File(data)) => return Ok(data);
        case Ok(Dir(_)) => return Err(IsDirectory);
      }
    }

    /** The names in a directory, in ascending order. */
    method List(path: string) returns (r: Result<seq<string>>)
      ensures r.Ok? <==> SplitPath(path).Ok? && Look(root, SplitPath(path).value) == Some(ADir)
      ensures r.Err? ==> r.error == (match SplitPath(path)
                                     case Err(e) => e
                                     case Ok(p) => if Walk(root, p).Err? then Walk(root, p).error else NotDirectory)
      ensures r.Ok? ==> AscendingNames(r.value) && forall x :: x in r.value <==> Look(root, SplitPath(path).value + [x]).Some?
    {
      var node := NodeAt(path);
      if SplitPath(path).Ok? {
        ghost var p := SplitPath(path).value;
        WalkOutcome(root, p);
        if node.Ok? && node.value.Dir? {
          forall x ensures x in node.value.entries <==> Look(root, p + [x]).Some? { ChildLook(root, p, x); }
        }
      }
      match node {
        case Err(e) => return Err(e);
        case Ok(File(_)) => return Err(NotDirectory);
        case Ok(Dir(entries)) =>
          var names := InOrder(entries.Keys);
          return Ok(names);
      }
    }

    /** Remove a file or an empty directory. */
    method Remove(path: string) returns (r: Result<()>)
      requires Valid()
      modifies this
      ensures Valid()
      ensures r.Err? ==> root == old(root)
      ensures r == match Locate(old(root), path)
                   case Err(e) => Err(e)
                   case Ok(p) =>
                     match Get(old(root), p)
                     case None => Err(NotFound)
                     case Some(m) => if Leafy(m) then Ok(()) else Err(DirectoryNotEmpty)
      ensures r.Ok? ==> Updated(old(root), root, Locate(old(root), path).value, None)
    {
      var parts := SplitPath(path);
      if parts.Err? {
        return Err(parts.error);
      }
      if parts.value == [] {
        return Err(InvalidPath);
      }
      var p, name := parts.value, parts.value[|parts.value| - 1];
      var dir := DirAt(p[..|p| - 1]);
      if dir.Err? {
        return Err(dir.error);
      }
      LocatedHasParent(root, path);
      if name !in dir.value {
        return Err(NotFound);
      }
      if dir.value[name].Dir? && dir.value[name].entries != map[] {
        return Err(DirectoryNotEmpty);
      }
      PutUpdates(root, p, None);
      root := Put(root, p, None);
      return Ok(());
    }

    /**
      Move a subtree. The source is taken out before the destination is looked at, so a
      failure after that point loses it.
    */
    method Rename(src: string, dst: string) returns (r: Result<()>)
      requires Valid()
      modifies this
      ensures Valid()
      ensures r.Ok? <==> RenameStarts(old(root), src, dst) && RenameLands(old(root), src, dst)
      ensures r.Err? ==> RenameError(old(root), src, dst) == Some(r.error)
      ensures r.Ok? ==> Moved(old(root), root, Locate(old(root), src).value, SplitPath(dst).value)
      ensures !RenameStarts(old(root), src, dst) ==> root == old(root)
      ensures r.Err? && RenameStarts(old(root), src, dst) ==> Without(old(root), root, Locate(old(root), src).value)
    {
      var srcParts := SplitPath(src);
      if srcParts.Err? {
        return Err(srcParts.error);
      }
      var dstParts := SplitPath(dst);
      if dstParts.Err? {
        return Err(dstParts.error);
      }
      if srcParts.value == [] || dstParts.value == [] {
        return Err(InvalidPath);
      }
      var p, q := srcParts.value, dstParts.value;
      var srcDir := DirAt(p[..|p| - 1]);
      if srcDir.Err? {
        return Err(srcDir.error);
      }
      LocatedHasParent(root, src);
      if p[|p| - 1] !in srcDir.value {
        return Err(NotFound);
      }
      var node := srcDir.value[p[|p| - 1]];
      ghost var n0 := root;
      RemovedSubtree(n0, p);
      root := Put(root, p, None);
      var dstDir := DirAt(q[..|q| - 1]);
      if dstDir.Err? {
        return Err(dstDir.error);
      }
      LocatedHasParent(root, dst);
      if q[|q| - 1] in dstDir.value {
        return Err(AlreadyExists);
      }
      MovedSubtree(n0, p, q, node);
      root := Put(root, q, Some(node));
      return Ok(());
    }

    method Copy(src: string, dst: string) returns (r: Result<()>)
      requires Valid()
      modifies this
      ensures Valid()
      ensures r.Err? ==> root == old(root)
      ensures r == match ReadResult(old(root), src)
                   case Err(e) => Err(e)
                   case Ok(_) =>
                     match Locate(old(root), dst)
                     case Err(e) => Err(e)
                     case Ok(p) => if Look(old(root), p) == Some(ADir) then Err(IsDirectory) else Ok(())
      ensures r.Ok? ==> ReadResult(old(root), src).Ok? && Locate(old(root), dst).Ok? &&
                        Updated(old(root), root, Locate(old(root), dst).value, Some(AFile(ReadResult(old(root), src).value)))
    {
      var data := Read(src);
      if data.Err? {
        return Err(data.error);
      }
      r := Write(dst, data.value);
    }
  }

  function ReadResult(n: Node, path: string): (r: Result<seq<byte>>)
  {
    match SplitPath(path)
    case Err(e) => Err(e)
    case Ok(p) =>
      match Walk(n, p)
      case Err(e) => Err(e)
      case Ok(File(data)) => Ok(data)
      case Ok(Dir(_)) => Err(IsDirectory)
  }

  /** A directory's names are the paths one component longer. */
  lemma ChildLook(n: Node, p: Path, x: string)
    requires Get(n, p).Some? && Get(n, p).value.Dir?
    ensures x in Get(n, p).value.entries <==> Look(n, p + [x]).Some?
  {
    GetConcat(n, p, [x]);
    assert [x][1..] == [];
  }

  /** Reading is lookup in the path map. */
  lemma ReadIsLook(n: Node, path: string)
    ensures ReadResult(n, path).Ok? <==> SplitPath(path).Ok? && Look(n, SplitPath(path).value).Some? && Look(n, SplitPath(path).value) != Some(ADir)
    ensures ReadResult(n, path).Ok? ==> Look(n, SplitPath(path).value) == Some(AFile(ReadResult(n, path).value))
  {
    if SplitPath(path).Ok? { WalkOutcome(n, SplitPath(path).value); }
  }

  /** Why a path cannot be read, read off the path map. */
  lemma ReadErrors(n: Node, path: string)
    ensures ReadResult(n, path) == Err(InvalidPath) <==> path == "" || path[0] != '/'
    ensures SplitPath(path).Ok? ==>
              var p := SplitPath(path).value;
              && (ReadResult(n, path) == Err(IsDirectory) <==> Look(n, p) == Some(ADir))
              && (ReadResult(n, path) == Err(NotDirectory) <==> exists i :: FileAt(n, p, i))
              && (ReadResult(n, path) == Err(NotFound) <==> exists i :: MissingAt(n, p, i))
  {
    SplitRootAndRelative(path);
    if SplitPath(path).Ok? {
      WalkOutcome(n, SplitPath(path).value);
      WalkErrors(n, SplitPath(path).value);
    }
  }

  /** The error of a rename, read off the tree before it. */
  lemma RenameErrorIs(n: Node, src: string, dst: string)
    ensures RenameError(n, src, dst) == Some(InvalidPath) <==> NoTarget(src) || NoTarget(dst)
    ensures !NoTarget(src) && !NoTarget(dst) ==>
              && SplitPath(src).Ok? && SplitPath(src).value != [] && SplitPath(dst).Ok? && SplitPath(dst).value != []
              && var p, q := SplitPath(src).value, SplitPath(dst).value;
              var d := q[..|q| - 1];
              RenameError(n, src, dst) ==
                if Locate(n, src).Err? then Some(Locate(n, src).error)
                else if Look(n, p).None? || p <= d then Some(NotFound)
                else if WalkDir(n, d).Err? then Some(WalkDir(n, d).error)
                else if p != q && Look(n, q).Some? then Some(AlreadyExists) else None
  {
    SplitRootAndRelative(src);
    SplitRootAndRelative(dst);
    LocateOutcome(n, src);
    if !NoTarget(src) && !NoTarget(dst) && Locate(n, src).Ok? {
      var p, q := SplitPath(src).value, SplitPath(dst).value;
      var t := Put(n, p, None);
      LocatedHasParent(n, src);
      LocateOutcome(t, dst);
      if Get(n, p).Some? { WalkAfterRemoval(n, p, q[..|q| - 1]); }
      LookPut(n, p, None, q);
      assert q == q[..|q| - 1] + [q[|q| - 1]];
      assert p <= q <==> p == q || p <= q[..|q| - 1];
    }
  }

  /** Walking to a directory after a removal: its own components are gone, all else is as before. */
  lemma WalkAfterRemoval(n: Node, p: Path, d: Path)
    requires HasParent(n, p) && Get(n, p).Some?
    ensures var t := Put(n, p, None);
            if p <= d then WalkDir(t, d) == Err(NotFound)
            else WalkDir(t, d).Ok? == WalkDir(n, d).Ok? && (WalkDir(n, d).Err? ==> WalkDir(t, d) == Err(WalkDir(n, d).error))
  {
    var t := Put(n, p, None);
    WalkOutcome(t, d);
    WalkOutcome(n, d);
    WalkErrors(t, d);
    WalkErrors(n, d);
    if p <= d {
      GoneIsMissing(n, p, d);
    } else {
      assert d[..|d|] == d;
      forall i: nat ensures FileAt(t, d, i) <==> FileAt(n, d, i)
                    ensures MissingAt(t, d, i) <==> MissingAt(n, d, i)
      {
        if i < |d| {
          LookPut(n, p, None, d[..i]);
          LookPut(n, p, None, d[..i + 1]);
        }
      }
      LookPut(n, p, None, d);
    }
  }

  /** The removed entry is the component a later walk misses. */
  lemma GoneIsMissing(n: Node, p: Path, d: Path)
    requires HasParent(n, p) && p <= d
    ensures MissingAt(Put(n, p, None), d, |p| - 1)
  {
    var k := |p| - 1;
    assert d[..k] == p[..k] && d[..k + 1] == p;
    LookPut(n, p, None, p[..k]);
    LookPut(n, p, None, p);
  }

  lemma RemovedSubtree(n: Node, p: Path)
    requires HasParent(n, p)
    ensures Without(n, Put(n, p, None), p)
  {
    forall q ensures Look(Put(n, p, None), q) == if p <= q then None else Look(n, q) {
      LookPut(n, p, None, q);
    }
  }

  lemma MovedSubtree(n: Node, p: Path, q: Path, node: Node)
    requires HasParent(n, p) && Get(n, p) == Some(node) && HasParent(Put(n, p, None), q)
    ensures Moved(n, Put(Put(n, p, None), q, Some(node)), p, q)
  {
    var t := Put(n, p, None);
    forall x ensures Look(Put(t, q, Some(node)), x) ==
                       if q <= x then Look(n, p + x[|q|..]) else if p <= x then None else Look(n, x)
    {
      LookPut(t, q, Some(node), x);
      LookPut(n, p, None, x);
      if q <= x { GetConcat(n, p, x[|q|..]); }
    }
  }

  /**
    There is a place for the source: the destination's directory exists and is not the source or
    below it, and the destination is free or is the source itself.
  */
  ghost predicate HasLanding(n: Node, src: string, dst: string)
    requires RenameStarts(n, src, dst)
  {
    var p, q := Locate(n, src).value, SplitPath(dst).value;
    var d := q[..|q| - 1];
    !(p <= d) && Look(n, d) == Some(ADir) && (p == q || Look(n, q) == None)
  }

  /** Whether a rename lands, read off the tree before it. */
  lemma RenameLandsIff(n: Node, src: string, dst: string)
    requires RenameStarts(n, src, dst)
    ensures RenameLands(n, src, dst) <==> HasLanding(n, src, dst)
  {
    var p, q := Locate(n, src).value, SplitPath(dst).value;
    var d := q[..|q| - 1];
    var t := Put(n, p, None);
    LocatedHasParent(n, src);
    LookPut(n, p, None, d);
    LookPut(n, p, None, q);
    WalkOutcome(t, d);
    assert q == d + [q[|q| - 1]];
    assert p <= q <==> p == q || p <= d;
  }
}
