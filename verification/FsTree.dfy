/** The file tree, its reading as a map from paths to entries, and path strings. */
module FsTree {
  import opened Basics

  datatype FsError = InvalidPath | NotFound | AlreadyExists | NotDirectory | IsDirectory | DirectoryNotEmpty

  datatype Result<+T> = Ok(value: T) | Err(error: FsError)

  datatype Node = File(data: seq<byte>) | Dir(entries: map<string, Node>)

  /** What a path names, without what lies below it. */
  datatype Entry = AFile(data: seq<byte>) | ADir

  type Path = seq<string>

  // ---- reading -------------------------------------------------------------------

  function Get(n: Node, p: Path): (r: Option<Node>)
    decreases |p|
  {
    if p == [] then Some(n)
    else if n.Dir? && p[0] in n.entries then Get(n.entries[p[0]], p[1..])
    else None
  }

  function EntryOf(n: Node): (e: Entry)
  {
    match n
    case File(data) => AFile(data)
    case Dir(_) => ADir
  }

  /** The tree as a map from paths. */
  function Look(n: Node, p: Path): (r: Option<Entry>)
  {
    match Get(n, p)
    case None => None
    case Some(m) => Some(EntryOf(m))
  }

  lemma {:induction false} GetConcat(n: Node, p: Path, q: Path)
    ensures Get(n, p + q) == (match Get(n, p) case None => None case Some(m) => Get(m, q))
    decreases |p|
  {
    if p == [] {
      assert p + q == q;
    } else {
      assert (p + q)[1..] == p[1..] + q;
      if n.Dir? && p[0] in n.entries { GetConcat(n.entries[p[0]], p[1..], q); }
    }
  }

  /** The map is prefix-closed: whatever exists lies inside directories. */
  lemma PrefixClosed(n: Node, p: Path, i: nat)
    requires Look(n, p).Some? && i < |p|
    ensures Look(n, p[..i]) == Some(ADir)
  {
    assert p == p[..i] + p[i..];
    GetConcat(n, p[..i], p[i..]);
  }

  // ---- walking -------------------------------------------------------------------

  /** The walk of `node`: component by component, failing at the first one that cannot be entered. */
  function Walk(n: Node, p: Path): (r: Result<Node>)
    decreases |p|
  {
    if p == [] then Ok(n)
    else match n
      case File(_) => Err(NotDirectory)
      case Dir(entries) => if p[0] in entries then Walk(entries[p[0]], p[1..]) else Err(NotFound)
  }

  /** The walk of `dir_mut`: the last node must be a directory too. */
  function WalkDir(n: Node, p: Path): (r: Result<map<string, Node>>)
  {
    match Walk(n, p)
    case Err(e) => Err(e)
    case Ok(File(_)) => Err(NotDirectory)
    case Ok(Dir(entries)) => Ok(entries)
  }

  /** The first `i` components lead to a file, and the walk goes on. */
  ghost predicate FileAt(n: Node, p: Path, i: nat)
  {
    i < |p| && Look(n, p[..i]).Some? && Look(n, p[..i]) != Some(ADir)
  }

  /** The first `i` components lead to a directory that lacks the next one. */
  ghost predicate MissingAt(n: Node, p: Path, i: nat)
  {
    i < |p| && Look(n, p[..i]) == Some(ADir) && Look(n, p[..i + 1]) == None
  }

  /** The outcome of a walk read off the path map: the first failing component decides the error. */
  lemma {:induction false} WalkOutcome(n: Node, p: Path)
    ensures Walk(n, p).Ok? <==> Get(n, p).Some?
    ensures Walk(n, p).Ok? ==> Get(n, p) == Some(Walk(n, p).value)
    ensures Walk(n, p) == Err(NotDirectory) <==> exists i :: FileAt(n, p, i)
    ensures Walk(n, p) == Err(NotFound) <==> exists i :: MissingAt(n, p, i)
    decreases |p|
  {
    if p != [] {
      if n.Dir? && p[0] in n.entries {
        var m, t := n.entries[p[0]], p[1..];
        WalkOutcome(m, t);
        EnteredBack(n, p);
        forall i: nat ensures (FileAt(m, t, i) <==> FileAt(n, p, i + 1)) && (MissingAt(m, t, i) <==> MissingAt(n, p, i + 1)) {
          Entered(n, p, i);
        }
      } else {
        NoFurther(n, p);
        assert if n.Dir? then MissingAt(n, p, 0) else FileAt(n, p, 0);
      }
    }
  }

  /** After the first component the outcome is that of the walk from its node. */
  lemma Entered(n: Node, p: Path, i: nat)
    requires p != [] && n.Dir? && p[0] in n.entries
    ensures var m, t := n.entries[p[0]], p[1..];
            (FileAt(m, t, i) <==> FileAt(n, p, i + 1)) && (MissingAt(m, t, i) <==> MissingAt(n, p, i + 1))
  {
    var t := p[1..];
    if i < |t| {
      assert p[..i + 1][1..] == t[..i] && p[..i + 2][1..] == t[..i + 1];
    }
  }

  lemma EnteredBack(n: Node, p: Path)
    requires p != [] && n.Dir? && p[0] in n.entries
    ensures forall i: nat {:trigger FileAt(n, p, i)} :: FileAt(n, p, i) ==> i > 0 && FileAt(n.entries[p[0]], p[1..], i - 1)
    ensures forall i: nat {:trigger MissingAt(n, p, i)} :: MissingAt(n, p, i) ==> i > 0 && MissingAt(n.entries[p[0]], p[1..], i - 1)
  {
    var first := p[..0 + 1];
    assert first[1..] == [] && Get(n, first) == Some(n.entries[p[0]]);
    assert !FileAt(n, p, 0) && !MissingAt(n, p, 0);
    forall i: nat | i > 0
      ensures FileAt(n, p, i) ==> FileAt(n.entries[p[0]], p[1..], i - 1)
      ensures MissingAt(n, p, i) ==> MissingAt(n.entries[p[0]], p[1..], i - 1)
    {
      Entered(n, p, i - 1);
    }
  }

  /** Nothing exists below a component that cannot be entered. */
  lemma NoFurther(n: Node, p: Path)
    requires p != [] && !(n.Dir? && p[0] in n.entries)
    ensures forall i :: 0 < i <= |p| ==> Look(n, p[..i]) == None
    ensures Look(n, p[..0]) == Some(EntryOf(n)) && Look(n, p[..0 + 1]) == None
  {
    forall i | 0 < i <= |p| ensures Look(n, p[..i]) == None {
      assert p[..i][0] == p[0];
    }
  }

  // ---- updating ------------------------------------------------------------------

  /** The path names an entry of an existing directory. */
  ghost predicate HasParent(n: Node, p: Path)
  {
    p != [] && Look(n, p[..|p| - 1]) == Some(ADir)
  }

  /** Replace (or remove, for `None`) what `p` names in its directory. */
  function Put(n: Node, p: Path, leaf: Option<Node>): (r: Node)
    requires p != []
    decreases |p|
  {
    match n
    case File(_) => n
    case Dir(entries) =>
      if |p| == 1 then
        match leaf
        case Some(m) => Dir(entries[p[0] := m])
        case None => Dir(entries - {p[0]})
      else if p[0] in entries then Dir(entries[p[0] := Put(entries[p[0]], p[1..], leaf)])
      else n
  }

  /** Below `p` the new tree is the new node; everywhere else it is the old tree. */
  lemma {:induction false} LookPut(n: Node, p: Path, leaf: Option<Node>, q: Path)
    requires HasParent(n, p)
    ensures Look(Put(n, p, leaf), q) ==
              if p <= q then (if leaf.Some? then Look(leaf.value, q[|p|..]) else None) else Look(n, q)
    decreases |p|
  {
    var n' := Put(n, p, leaf);
    if |p| == 1 {
      assert p[..0] == [];
      if q != [] {
        assert p <= q <==> q[0] == p[0];
      }
    } else {
      var t := p[..|p| - 1];
      assert t[0] == p[0] && t[1..] == p[1..][..|p| - 2];
      var m := n.entries[p[0]];
      assert HasParent(m, p[1..]);
      if q != [] && q[0] == p[0] {
        LookPut(m, p[1..], leaf, q[1..]);
        assert p <= q <==> p[1..] <= q[1..];
        assert p <= q ==> q[|p|..] == q[1..][|p| - 1..];
      }
    }
  }

  // ---- path strings --------------------------------------------------------------------

  /** The pieces between slashes. */
  function Pieces(s: string): (r: seq<string>)
    ensures |r| > 0
  {
    if s == "" then [""]
    else if s[0] == '/' then [""] + Pieces(s[1..])
    else
      var r := Pieces(s[1..]);
      [[s[0]] + r[0]] + r[1..]
  }

  predicate Keeps(part: string) { part != "" && part != "." }

  function Filter(parts: seq<string>): (r: seq<string>)
  {
    if parts == [] then []
    else if Keeps(parts[0]) then [parts[0]] + Filter(parts[1..])
    else Filter(parts[1..])
  }

  /** Absolute paths only; empty and "." components dropped. */
  function SplitPath(path: string): (r: Result<Path>)
  {
    if path == "" || path[0] != '/' then Err(InvalidPath) else Ok(Filter(Pieces(path)))
  }

  /** A component that a normalised path may hold. */
  ghost predicate Clean(part: string)
  {
    Keeps(part) && '/' !in part
  }

  function Join(p: Path): (s: string)
  {
    if p == [] then "" else "/" + p[0] + Join(p[1..])
  }

  lemma {:induction false} PiecesClean(s: string, i: nat)
    requires i < |Pieces(s)|
    ensures '/' !in Pieces(s)[i]
  {
    if s != "" {
      if s[0] == '/' {
        if i > 0 { PiecesClean(s[1..], i - 1); }
      } else {
        PiecesClean(s[1..], i);
      }
    }
  }

  lemma {:induction false} FilterMembers(parts: seq<string>, x: string)
    ensures x in Filter(parts) <==> x in parts && Keeps(x)
  {
    if parts != [] { FilterMembers(parts[1..], x); }
  }

  /** Every component of a split path is clean. */
  lemma SplitPathClean(path: string)
    requires SplitPath(path).Ok?
    ensures forall x :: x in SplitPath(path).value ==> Clean(x)
  {
    forall x | x in SplitPath(path).value ensures Clean(x) {
      FilterMembers(Pieces(path), x);
      var i :| 0 <= i < |Pieces(path)| && Pieces(path)[i] == x;
      PiecesClean(path, i);
    }
  }

  lemma {:induction false} PiecesOfPart(part: string, rest: string)
    requires '/' !in part && (rest == "" || rest[0] == '/')
    ensures Pieces(part + rest) == [part] + Pieces(rest)[1..]
  {
    if part == "" {
      assert part + rest == rest;
    } else {
      assert (part + rest)[1..] == part[1..] + rest;
      PiecesOfPart(part[1..], rest);
      assert [part[0]] + part[1..] == part;
    }
  }

  lemma {:induction false} PiecesOfJoin(p: Path)
    requires forall x :: x in p ==> Clean(x)
    ensures Pieces(Join(p)) == [""] + p
  {
    if p != [] {
      var rest := Join(p[1..]);
      PiecesOfJoin(p[1..]);
      assert Clean(p[0]);
      PiecesOfPart(p[0], rest);
      assert Join(p) == "/" + (p[0] + rest);
      SlashFirst(p[0] + rest);
      assert ([""] + p[1..])[1..] == p[1..] && [p[0]] + p[1..] == p;
    }
  }

  lemma SlashFirst(s: string)
    ensures Pieces("/" + s) == [""] + Pieces(s)
  {
    assert ("/" + s)[1..] == s;
  }

  lemma {:induction false} FilterAll(p: Path)
    requires forall x :: x in p ==> Keeps(x)
    ensures Filter(p) == p
  {
    if p != [] { FilterAll(p[1..]); }
  }

  /** Splitting inverts joining: every normalised path has a string that names it. */
  lemma SplitJoin(p: Path)
    requires p != [] && forall x :: x in p ==> Clean(x)
    ensures SplitPath(Join(p)) == Ok(p)
  {
    PiecesOfJoin(p);
    FilterAll(p);
    assert ([""] + p)[1..] == p;
  }

  /**
    How a path string splits, from its end: after a further slash comes one more component, unless it is
    empty or a dot. With the root and the relative paths this determines every split.
  */
  lemma SplitAppend(path: string, part: string)
    requires '/' !in part && (path == "" || SplitPath(path).Ok?)
    ensures SplitPath(path + "/" + part) ==
              Ok((if path == "" then [] else SplitPath(path).value) + (if part == "" || part == "." then [] else [part]))
  {
    var s := path + "/" + part;
    assert path + ("/" + part) == s;
    PiecesAppend(path, part);
    FilterAppend(Pieces(path), [part]);
    assert Filter([part]) == if Keeps(part) then [part] else [];
    if path == "" { assert Filter([""]) == []; }
  }

  /** The root has no components, and exactly the relative paths are invalid. */
  lemma SplitRootAndRelative(path: string)
    ensures SplitPath("/") == Ok([])
    ensures SplitPath(path) == Err(InvalidPath) <==> path == "" || path[0] != '/'
    ensures SplitPath(path).Ok? <==> path != "" && path[0] == '/'
  {
    SplitAppend("", "");
    assert "" + "/" + "" == "/";
  }

  lemma {:induction false} PiecesAppend(s: string, part: string)
    requires '/' !in part
    ensures Pieces(s + "/" + part) == Pieces(s) + [part]
  {
    var t := s + "/" + part;
    if s == "" {
      assert t[1..] == part;
      PiecesOfPart(part, "");
      assert part + "" == part && Pieces("") == [""];
    } else {
      assert t[1..] == s[1..] + "/" + part;
      PiecesAppend(s[1..], part);
    }
  }

  lemma {:induction false} FilterAppend(a: seq<string>, b: seq<string>)
    ensures Filter(a + b) == Filter(a) + Filter(b)
  {
    if a == [] {
      assert a + b == b;
    } else {
      assert (a + b)[1..] == a[1..] + b;
      FilterAppend(a[1..], b);
    }
  }

  // ---- the order of names -----------------------------------------------------------------

  /** Lexicographic order, in which a directory's names are kept. */
  predicate Less(a: string, b: string)
  {
    b != "" && (a == "" || a[0] < b[0] || (a[0] == b[0] && Less(a[1..], b[1..])))
  }

  /** The names agree before position `i`, where the first one ends or has the smaller character. */
  predicate DiffersAt(a: string, b: string, i: nat)
  {
    i < |b| && i <= |a| && a[..i] == b[..i] && (i < |a| ==> a[i] < b[i])
  }

  /** The order is decided by the first difference. */
  lemma {:induction false} LessIsFirstDifference(a: string, b: string)
    ensures Less(a, b) <==> exists i :: DiffersAt(a, b, i)
  {
    if b != "" && a != "" && a[0] == b[0] {
      LessIsFirstDifference(a[1..], b[1..]);
      if i: nat :| DiffersAt(a[1..], b[1..], i) {
        assert a[..i + 1] == [a[0]] + a[1..][..i] && b[..i + 1] == [b[0]] + b[1..][..i];
        assert DiffersAt(a, b, i + 1);
      }
      if i: nat :| DiffersAt(a, b, i) {
        assert i > 0 && a[1..][..i - 1] == a[..i][1..] && b[1..][..i - 1] == b[..i][1..];
        assert DiffersAt(a[1..], b[1..], i - 1);
      }
    } else {
      if Less(a, b) { assert DiffersAt(a, b, 0); }
      if i: nat :| DiffersAt(a, b, i) {
        assert i > 0 ==> a[..i][0] == b[..i][0];
      }
    }
  }

  lemma {:induction false} LessTotal(a: string, b: string)
    ensures a == b || Less(a, b) || Less(b, a)
  {
    if a != "" && b != "" && a[0] == b[0] {
      LessTotal(a[1..], b[1..]);
      assert a == [a[0]] + a[1..] && b == [b[0]] + b[1..];
    }
  }

  lemma {:induction false} LessTransitive(a: string, b: string, c: string)
    requires Less(a, b) && Less(b, c)
    ensures Less(a, c)
  {
    if a != "" && a[0] == b[0] && b[0] == c[0] { LessTransitive(a[1..], b[1..], c[1..]); }
  }

  ghost predicate AscendingNames(names: seq<string>)
  {
    forall i, j :: 0 <= i < j < |names| ==> Less(names[i], names[j])
  }

  /** The least of a set of names. */
  method LeastName(names: set<string>) returns (m: string)
    requires names != {}
    ensures m in names && forall x :: x in names && x != m ==> Less(m, x)
  {
    m :| m in names;
    var rest := names - {m};
    while rest != {}
      invariant rest <= names && m in names && m !in rest
      invariant forall x :: x in names && x !in rest && x != m ==> Less(m, x)
      decreases |rest|
    {
      var x :| x in rest;
      LessTotal(x, m);
      if Less(x, m) {
        forall y | y in names && y !in rest && y != m ensures Less(x, y) { LessTransitive(x, m, y); }
        m := x;
      }
      rest := rest - {x};
    }
  }

  /** The names in ascending order, each once. */
  method InOrder(names: set<string>) returns (r: seq<string>)
    ensures AscendingNames(r) && forall x :: x in r <==> x in names
  {
    r := [];
    var rest := names;
    while rest != {}
      invariant rest <= names && AscendingNames(r) && forall x :: x in r <==> x in names && x !in rest
      invariant forall x, y :: x in r && y in rest ==> Less(x, y)
      decreases |rest|
    {
      var m := LeastName(rest);
      assert forall i :: 0 <= i < |r| ==> r[i] in r;
      r := r + [m];
      rest := rest - {m};
    }
  }
}
