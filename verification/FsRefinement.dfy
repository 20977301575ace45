/**
  The file system as an abstract data type: a map from normalised paths to entries and its
  operations, stated without any tree, and the proof that every run of the tree refines it.
*/
module FsRefinement {
  import opened Basics
  import opened FsTree
  import opened RamFs

  /** What each existing path names. */
  type PathMap = imap<Path, Entry>

  ghost function At(m: PathMap, p: Path): (r: Option<Entry>)
  {
    if p in m then Some(m[p]) else None
  }

  /** The map a tree stands for. */
  ghost function Abs(n: Node): (m: PathMap)
    ensures forall p :: At(m, p) == Look(n, p)
  {
    imap p | Look(n, p).Some? :: Look(n, p).value
  }

  /** A map is determined by its lookups. */
  lemma SameMap(n: Node, m: PathMap)
    requires forall p :: Look(n, p) == At(m, p)
    ensures Abs(n) == m
  {
    forall p: Path ensures (p in Abs(n) <==> p in m) && (p in m ==> Abs(n)[p] == m[p]) {
      assert At(Abs(n), p) == Look(n, p);
    }
  }

  // ---- the abstract operations -------------------------------------------------------

  ghost predicate FileBefore(m: PathMap, p: Path, i: nat)
  {
    i < |p| && At(m, p[..i]).Some? && At(m, p[..i]) != Some(ADir)
  }

  ghost predicate GapBefore(m: PathMap, p: Path, i: nat)
  {
    i < |p| && At(m, p[..i]) == Some(ADir) && At(m, p[..i + 1]) == None
  }

  /** Why a path cannot be followed, if it cannot: a file on the way, or a missing component. */
  ghost function PathError(m: PathMap, p: Path): (e: Option<FsError>)
  {
    if exists i :: FileBefore(m, p, i) then Some(NotDirectory)
    else if exists i :: GapBefore(m, p, i) then Some(NotFound)
    else None
  }

  /** The path an operation acts on: all but the last component must lead to a directory. */
  ghost function Target(m: PathMap, path: string): (r: Result<Path>)
  {
    match SplitPath(path)
    case Err(e) => Err(e)
    case Ok(p) =>
      if p == [] then Err(InvalidPath)
      else
        var d := p[..|p| - 1];
        if PathError(m, d).Some? then Err(PathError(m, d).value)
        else if At(m, d) != Some(ADir) then Err(NotDirectory)
        else Ok(p)
  }

  ghost function FileData(m: PathMap, path: string): (r: Result<seq<byte>>)
  {
    match SplitPath(path)
    case Err(e) => Err(e)
    case Ok(p) =>
      if PathError(m, p).Some? then Err(PathError(m, p).value)
      else match At(m, p)
        case Some(AFile(data)) => Ok(data)
        case _ => Err(IsDirectory)
  }

  ghost predicate SomethingBelow(m: PathMap, p: Path)
  {
    exists q :: p < q && q in m
  }

  ghost function Dropped(m: PathMap, p: Path): (r: PathMap)
  {
    imap q | q in m && !(p <= q) :: m[q]
  }

  /** `t` with everything that `m` holds at and below `src` added at and below `dst`. */
  ghost function Grafted(m: PathMap, src: Path, t: PathMap, dst: Path): (r: PathMap)
  {
    imap q | if dst <= q then src + q[|dst|..] in m else q in t :: if dst <= q then m[src + q[|dst|..]] else t[q]
  }

  datatype FsOp =
    | OpMkdir(path: string)
    | OpTouch(path: string)
    | OpWrite(path: string, data: seq<byte>)
    | OpAppend(path: string, data: seq<byte>)
    | OpRemove(path: string)
    | OpRename(src: string, dst: string)
    | OpCopy(src: string, dst: string)

  /** A new map and what the caller is told. */
  datatype Outcome = Outcome(files: PathMap, result: Result<()>)

  ghost function Wrote(m: PathMap, path: string, data: seq<byte>): (r: Outcome)
  {
    match Target(m, path)
    case Err(e) => Outcome(m, Err(e))
    case Ok(p) => if At(m, p) == Some(ADir) then Outcome(m, Err(IsDirectory)) else Outcome(m[p := AFile(data)], Ok(()))
  }

  ghost function Renamed(m: PathMap, src: string, dst: string): (r: Outcome)
  {
    if SplitPath(src).Err? then Outcome(m, Err(SplitPath(src).error))
    else if SplitPath(dst).Err? then Outcome(m, Err(SplitPath(dst).error))
    else if SplitPath(dst).value == [] then Outcome(m, Err(InvalidPath))
    else match Target(m, src)
      case Err(e) => Outcome(m, Err(e))
      case Ok(p) =>
        if p !in m then Outcome(m, Err(NotFound))
        else
          var t := Dropped(m, p);
          match Target(t, dst)
          case Err(e) => Outcome(t, Err(e))
          case Ok(q) => if q in t then Outcome(t, Err(AlreadyExists)) else Outcome(Grafted(m, p, t, q), Ok(()))
  }

  ghost function SpecStep(m: PathMap, op: FsOp): (r: Outcome)
  {
    match op
    case OpMkdir(path) =>
      if SplitPath(path) == Ok([]) then Outcome(m, Err(AlreadyExists))
      else (match Target(m, path)
        case Err(e) => Outcome(m, Err(e))
        case Ok(p) => if p in m then Outcome(m, Err(AlreadyExists)) else Outcome(m[p := ADir], Ok(())))
    case OpTouch(path) =>
      (match Target(m, path)
        case Err(e) => Outcome(m, Err(e))
        case Ok(p) =>
          if At(m, p) == Some(ADir) then Outcome(m, Err(IsDirectory))
          else if p in m then Outcome(m, Ok(()))
          else Outcome(m[p := AFile([])], Ok(())))
    case OpWrite(path, data) => Wrote(m, path, data)
    case OpAppend(path, data) =>
      (match Target(m, path)
        case Ok(p) =>
          if At(m, p).Some? && m[p].AFile? then Wrote(m, path, m[p].data + data) else Wrote(m, path, data)
        case Err(_) => Wrote(m, path, data))
    case OpRemove(path) =>
      (match Target(m, path)
        case Err(e) => Outcome(m, Err(e))
        case Ok(p) =>
          if p !in m then Outcome(m, Err(NotFound))
          else if SomethingBelow(m, p) then Outcome(m, Err(DirectoryNotEmpty))
          else Outcome(Dropped(m, p), Ok(())))
    case OpRename(src, dst) => Renamed(m, src, dst)
    case OpCopy(src, dst) =>
      (match FileData(m, src)
        case Err(e) => Outcome(m, Err(e))
        case Ok(data) => Wrote(m, dst, data))
  }

  // ---- tree and map agree --------------------------------------------------------------

  lemma PathErrorIsWalk(n: Node, p: Path)
    ensures PathError(Abs(n), p) == if Walk(n, p).Err? then Some(Walk(n, p).error) else None
    ensures PathError(Abs(n), p).None? ==> Look(n, p).Some?
  {
    WalkOutcome(n, p);
    WalkErrors(n, p);
    forall i: nat ensures FileBefore(Abs(n), p, i) <==> FileAt(n, p, i)
                  ensures GapBefore(Abs(n), p, i) <==> MissingAt(n, p, i)
    {
      if i < |p| { assert At(Abs(n), p[..i]) == Look(n, p[..i]) && At(Abs(n), p[..i + 1]) == Look(n, p[..i + 1]); }
    }
  }

  lemma TargetIsLocate(n: Node, path: string)
    ensures Target(Abs(n), path) == Locate(n, path)
  {
    if SplitPath(path).Ok? && SplitPath(path).value != [] {
      var p := SplitPath(path).value;
      PathErrorIsWalk(n, p[..|p| - 1]);
      WalkOutcome(n, p[..|p| - 1]);
    }
  }

  lemma FileDataIsRead(n: Node, path: string)
    ensures FileData(Abs(n), path) == ReadResult(n, path)
  {
    if SplitPath(path).Ok? {
      PathErrorIsWalk(n, SplitPath(path).value);
      WalkOutcome(n, SplitPath(path).value);
    }
  }

  /** A node has nothing below it in the map exactly if it is a file or an empty directory. */
  lemma BelowIsNotLeafy(n: Node, p: Path)
    requires Get(n, p).Some?
    ensures SomethingBelow(Abs(n), p) <==> !Leafy(Get(n, p).value)
  {
    var m := Get(n, p).value;
    if !Leafy(m) {
      var x :| x in m.entries;
      ChildLook(n, p, x);
      assert p < p + [x] && p + [x] in Abs(n);
    }
    if SomethingBelow(Abs(n), p) {
      var q :| p < q && q in Abs(n);
      assert q == p + q[|p|..];
      GetConcat(n, p, q[|p|..]);
    }
  }

  lemma UpdatedIsPut(n: Node, n': Node, p: Path, e: Entry)
    requires Updated(n, n', p, Some(e))
    ensures Abs(n') == Abs(n)[p := e]
  {
    forall q ensures Look(n', q) == At(Abs(n)[p := e], q) {
      assert UpdatedAt(n, n', p, Some(e), q);
      assert At(Abs(n), q) == Look(n, q);
    }
    SameMap(n', Abs(n)[p := e]);
  }

  lemma UpdatedIsDropped(n: Node, n': Node, p: Path)
    requires Updated(n, n', p, None) && !SomethingBelow(Abs(n), p)
    ensures Abs(n') == Dropped(Abs(n), p)
  {
    forall q ensures Look(n', q) == At(Dropped(Abs(n), p), q) {
      assert UpdatedAt(n, n', p, None, q);
      assert At(Abs(n), q) == Look(n, q);
      assert p <= q ==> q == p || q !in Abs(n);
    }
    SameMap(n', Dropped(Abs(n), p));
  }

  lemma WithoutIsDropped(n: Node, n': Node, p: Path)
    requires Without(n, n', p)
    ensures Abs(n') == Dropped(Abs(n), p)
  {
    forall q ensures Look(n', q) == At(Dropped(Abs(n), p), q) {
      assert At(Abs(n), q) == Look(n, q);
    }
    SameMap(n', Dropped(Abs(n), p));
  }

  lemma MovedIsGrafted(n: Node, n': Node, p: Path, q: Path)
    requires Moved(n, n', p, q)
    ensures Abs(n') == Grafted(Abs(n), p, Dropped(Abs(n), p), q)
  {
    var g := Grafted(Abs(n), p, Dropped(Abs(n), p), q);
    forall x ensures Look(n', x) == At(g, x) {
      assert At(Abs(n), x) == Look(n, x);
      if q <= x { assert At(Abs(n), p + x[|q|..]) == Look(n, p + x[|q|..]); }
    }
    SameMap(n', g);
  }

  // ---- one step ----------------------------------------------------------------------------

  /** The tree is now `n'` and reported `r`, as the map does. */
  ghost predicate Simulates(n': Node, r: Result<()>, want: Outcome)
  {
    Abs(n') == want.files && r == want.result
  }

  method RunWrite(fs: RamFs, path: string, data: seq<byte>) returns (r: Result<()>)
    requires fs.Valid()
    modifies fs
    ensures fs.Valid() && Simulates(fs.root, r, Wrote(Abs(old(fs.root)), path, data))
  {
    ghost var n := fs.root;
    TargetIsLocate(n, path);
    r := fs.Write(path, data);
    if r.Ok? { UpdatedIsPut(n, fs.root, Locate(n, path).value, AFile(data)); }
  }

  method RunAppend(fs: RamFs, path: string, data: seq<byte>) returns (r: Result<()>)
    requires fs.Valid()
    modifies fs
    ensures fs.Valid() && Simulates(fs.root, r, SpecStep(Abs(old(fs.root)), OpAppend(path, data)))
  {
    ghost var n := fs.root;
    TargetIsLocate(n, path);
    r := fs.Append(path, data);
    if Locate(n, path).Ok? {
      ghost var p := Locate(n, path).value;
      assert At(Abs(n), p) == Look(n, p);
      if r.Ok? {
        ghost var before := if Look(n, p).Some? then Look(n, p).value.data else [];
        assert [] + data == data;
        UpdatedIsPut(n, fs.root, p, AFile(before + data));
      }
    }
  }

  method RunMake(fs: RamFs, op: FsOp) returns (r: Result<()>)
    requires fs.Valid() && (op.OpMkdir? || op.OpTouch?)
    modifies fs
    ensures fs.Valid() && Simulates(fs.root, r, SpecStep(Abs(old(fs.root)), op))
  {
    ghost var n := fs.root;
    TargetIsLocate(n, op.path);
    if Locate(n, op.path).Ok? { assert At(Abs(n), Locate(n, op.path).value) == Look(n, Locate(n, op.path).value); }
    if op.OpMkdir? {
      r := fs.Mkdir(op.path);
      if r.Ok? { UpdatedIsPut(n, fs.root, Locate(n, op.path).value, ADir); }
    } else {
      r := fs.Touch(op.path);
      if r.Ok? && Look(n, Locate(n, op.path).value).None? {
        UpdatedIsPut(n, fs.root, Locate(n, op.path).value, AFile([]));
      }
    }
  }

  method RunRemove(fs: RamFs, path: string) returns (r: Result<()>)
    requires fs.Valid()
    modifies fs
    ensures fs.Valid() && Simulates(fs.root, r, SpecStep(Abs(old(fs.root)), OpRemove(path)))
  {
    ghost var n := fs.root;
    TargetIsLocate(n, path);
    if Locate(n, path).Ok? {
      ghost var p := Locate(n, path).value;
      assert At(Abs(n), p) == Look(n, p);
      if Get(n, p).Some? { BelowIsNotLeafy(n, p); }
    }
    r := fs.Remove(path);
    if r.Ok? { UpdatedIsDropped(n, fs.root, Locate(n, path).value); }
  }

  method RunRename(fs: RamFs, src: string, dst: string) returns (r: Result<()>)
    requires fs.Valid()
    modifies fs
    ensures fs.Valid() && Simulates(fs.root, r, Renamed(Abs(old(fs.root)), src, dst))
  {
    r := fs.Rename(src, dst);
    RenameSimulates(old(fs.root), fs.root, r, src, dst);
  }

  lemma RenameSimulates(n: Node, n': Node, r: Result<()>, src: string, dst: string)
    requires r.Ok? <==> RenameStarts(n, src, dst) && RenameLands(n, src, dst)
    requires r.Err? ==> RenameError(n, src, dst) == Some(r.error)
    requires r.Ok? ==> Moved(n, n', Locate(n, src).value, SplitPath(dst).value)
    requires !RenameStarts(n, src, dst) ==> n' == n
    requires r.Err? && RenameStarts(n, src, dst) ==> Without(n, n', Locate(n, src).value)
    ensures Simulates(n', r, Renamed(Abs(n), src, dst))
  {
    RenameAgrees(n, src, dst);
    if r.Ok? {
      assert r.value == ();
      MovedIsGrafted(n, n', Locate(n, src).value, SplitPath(dst).value);
    } else if RenameStarts(n, src, dst) {
      WithoutIsDropped(n, n', Locate(n, src).value);
    }
  }

  /** The map's rename decides success, error and loss as the tree's does. */
  lemma RenameAgrees(n: Node, src: string, dst: string)
    ensures var want := Renamed(Abs(n), src, dst);
            && (want.result.Ok? <==> RenameStarts(n, src, dst) && RenameLands(n, src, dst))
            && (want.result.Err? ==> RenameError(n, src, dst) == Some(want.result.error))
            && (want.result.Ok? ==>
                  want.files == Grafted(Abs(n), Locate(n, src).value, Dropped(Abs(n), Locate(n, src).value), SplitPath(dst).value))
            && (want.result.Err? ==>
                  want.files == if RenameStarts(n, src, dst) then Dropped(Abs(n), Locate(n, src).value) else Abs(n))
  {
    TargetIsLocate(n, src);
    if Locate(n, src).Ok? {
      var p := Locate(n, src).value;
      var t := Put(n, p, None);
      LocatedHasParent(n, src);
      RemovedSubtree(n, p);
      WithoutIsDropped(n, t, p);
      TargetIsLocate(t, dst);
      assert At(Abs(n), p) == Look(n, p);
      if Locate(t, dst).Ok? {
        LocatedHasParent(t, dst);
        assert At(Abs(t), Locate(t, dst).value) == Look(t, Locate(t, dst).value);
      }
    }
  }

  /** A rename fails and changes the tree exactly if it starts and the source has no place to go. */
  lemma RenameLosesIff(n: Node, src: string, dst: string)
    ensures var want := Renamed(Abs(n), src, dst);
            want.result.Err? && want.files != Abs(n) <==> RenameStarts(n, src, dst) && !HasLanding(n, src, dst)
    ensures var want := Renamed(Abs(n), src, dst);
            want.result.Err? && want.files != Abs(n) ==> want.files == Dropped(Abs(n), Locate(n, src).value)
  {
    RenameAgrees(n, src, dst);
    if RenameStarts(n, src, dst) {
      RenameLandsIff(n, src, dst);
      var p := Locate(n, src).value;
      assert At(Abs(n), p) == Look(n, p) && p !in Dropped(Abs(n), p);
    }
  }

  /** Moving a directory below itself always fails, and the directory with all it holds is lost. */
  lemma RenameBelowItself(n: Node, src: string, dst: string)
    requires RenameStarts(n, src, dst) && Locate(n, src).value < SplitPath(dst).value
    ensures var p, want := Locate(n, src).value, Renamed(Abs(n), src, dst);
            want.result.Err? && p in Abs(n) && want.files == Dropped(Abs(n), p) && want.files != Abs(n)
  {
    var p, q := Locate(n, src).value, SplitPath(dst).value;
    assert p <= q[..|q| - 1];
    RenameLosesIff(n, src, dst);
    assert At(Abs(n), p) == Look(n, p);
  }

  lemma TopName(name: string)
    requires Clean(name)
    ensures SplitPath("/" + name) == Ok([name]) && [name][..0] == []
  {
    SplitJoin([name]);
    assert Join([name]) == "/" + name;
  }

  /** On a tree with two top-level directories, renaming one to the other loses the first. */
  lemma RenameOntoDirectory(n: Node, a: string, b: string)
    requires n.Dir? && Clean(a) && Clean(b) && a != b && Look(n, [a]) == Some(ADir) && Look(n, [b]) == Some(ADir)
    ensures Renamed(Abs(n), "/" + a, "/" + b) == Outcome(Dropped(Abs(n), [a]), Err(AlreadyExists))
    ensures [a] in Abs(n) && [a] !in Dropped(Abs(n), [a])
  {
    TopName(a);
    TopName(b);
    assert At(Abs(n), [a]) == Look(n, [a]) && At(Abs(n), [b]) == Look(n, [b]);
    TargetIsLocate(n, "/" + a);
    var t := Put(n, [a], None);
    RemovedSubtree(n, [a]);
    WithoutIsDropped(n, t, [a]);
    TargetIsLocate(t, "/" + b);
    assert !([a] <= [b]) by { assert [a][0] != [b][0]; }
  }

  /** On a fresh file system, renaming "/home" to "/tmp" fails and loses "/home". */
  method LoseHome() returns (fs: RamFs, r: Result<()>)
    ensures fs.Valid() && r == Err(AlreadyExists)
    ensures forall q :: Look(fs.root, q) ==
              if q == [] || q == ["bin"] || q == ["lib"] || q == ["tmp"] then Some(ADir) else None
  {
    fs := new RamFs();
    ghost var n := fs.root;
    assert "/" + "home" == "/home" && "/" + "tmp" == "/tmp";
    assert Clean("home") && Clean("tmp") && "home"[0] != "tmp"[0];
    RenameOntoDirectory(n, "home", "tmp");
    r := RunRename(fs, "/home", "/tmp");
    forall q ensures Look(fs.root, q) ==
                       if q == [] || q == ["bin"] || q == ["lib"] || q == ["tmp"] then Some(ADir) else None
    {
      assert At(Abs(fs.root), q) == Look(fs.root, q) && At(Abs(n), q) == Look(n, q);
      assert ["home"] <= q ==> Look(n, q) == None || q == ["home"];
      assert q == ["bin"] || q == ["lib"] || q == ["tmp"] ==> q[0][0] != "home"[0];
    }
  }

  method RunCopy(fs: RamFs, src: string, dst: string) returns (r: Result<()>)
    requires fs.Valid()
    modifies fs
    ensures fs.Valid() && Simulates(fs.root, r, SpecStep(Abs(old(fs.root)), OpCopy(src, dst)))
  {
    ghost var n := fs.root;
    FileDataIsRead(n, src);
    TargetIsLocate(n, dst);
    r := fs.Copy(src, dst);
    if r.Ok? { UpdatedIsPut(n, fs.root, Locate(n, dst).value, AFile(ReadResult(n, src).value)); }
  }

  method RunOne(fs: RamFs, op: FsOp) returns (r: Result<()>)
    requires fs.Valid()
    modifies fs
    ensures fs.Valid() && Simulates(fs.root, r, SpecStep(Abs(old(fs.root)), op))
  {
    match op {
      case OpMkdir(_) => r := RunMake(fs, op);
      case OpTouch(_) => r := RunMake(fs, op);
      case OpWrite(path, data) => r := RunWrite(fs, path, data);
      case OpAppend(path, data) => r := RunAppend(fs, path, data);
      case OpRemove(path) => r := RunRemove(fs, path);
      case OpRename(src, dst) => r := RunRename(fs, src, dst);
      case OpCopy(src, dst) => r := RunCopy(fs, src, dst);
    }
  }

  // ---- whole runs --------------------------------------------------------------------------

  ghost function SpecRun(m: PathMap, ops: seq<FsOp>): (r: PathMap)
  {
    if ops == [] then m else SpecRun(SpecStep(m, ops[0]).files, ops[1..])
  }

  ghost function SpecResults(m: PathMap, ops: seq<FsOp>): (r: seq<Result<()>>)
  {
    if ops == [] then [] else [SpecStep(m, ops[0]).result] + SpecResults(SpecStep(m, ops[0]).files, ops[1..])
  }

  /** Any run of operations reports what the map reports and ends in the map's state. */
  method Run(fs: RamFs, ops: seq<FsOp>) returns (results: seq<Result<()>>)
    requires fs.Valid()
    modifies fs
    ensures fs.Valid()
    ensures Abs(fs.root) == SpecRun(Abs(old(fs.root)), ops)
    ensures results == SpecResults(Abs(old(fs.root)), ops)
    decreases |ops|
  {
    if ops == [] {
      return [];
    }
    var r := RunOne(fs, ops[0]);
    var rest := Run(fs, ops[1..]);
    return [r] + rest;
  }

  /** Every tree stands for a prefix-closed map, so every reachable map is one. */
  lemma AbsPrefixClosed(n: Node, p: Path, i: nat)
    requires p in Abs(n) && i < |p|
    ensures At(Abs(n), p[..i]) == Some(ADir)
  {
    assert At(Abs(n), p) == Look(n, p);
    PrefixClosed(n, p, i);
  }
}
