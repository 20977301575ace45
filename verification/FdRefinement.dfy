/**
  Descriptors over the file system as an abstract data type: files are a map from paths to entries,
  descriptors a table of streams. Every run of opens, closes, duplications, reads, writes and file
  operations, in any order and on any descriptors, refines it.
*/
module FdRefinement {
  import opened Basics
  import opened FsTree
  import Fs = RamFs
  import opened FsRefinement
  import opened FdTable

  datatype State = State(files: PathMap, entries: seq<Option<OpenFile>>)

  datatype FdOp =
    | OpOpen(path: string, flags: OpenFlags)
    | OpClose(fd: nat)
    | OpDup2(oldFd: nat, newFd: nat)
    | OpRead(fd: nat, len: nat)
    | OpWriteTo(fd: nat, buf: seq<byte>)
    | OnFiles(op: FsOp)

  datatype Reply =
    | Number(n: nat)
    | Bytes(data: seq<byte>)
    | FdFailed(error: FdError)
    | FilesReply(result: Result<()>)

  datatype Answer = Answer(state: State, reply: Reply)

  // ---- the abstract operations ----------------------------------------------------------

  /** The lowest descriptor that is not in use. */
  function LowestFree(entries: seq<Option<OpenFile>>): (fd: nat)
    ensures fd <= |entries| && (forall i :: 0 <= i < fd ==> entries[i].Some?)
    ensures fd < |entries| ==> entries[fd].None?
  {
    if entries == [] || entries[0].None? then 0 else 1 + LowestFree(entries[1..])
  }

  function Placed(entries: seq<Option<OpenFile>>, fd: nat, file: OpenFile): (r: seq<Option<OpenFile>>)
    requires fd <= |entries|
  {
    if fd == |entries| then entries + [Some(file)] else entries[fd := Some(file)]
  }

  ghost function OpenedFile(st: State, files: PathMap, path: string, flags: OpenFlags): (r: Answer)
  {
    var fd := LowestFree(st.entries);
    Answer(State(files, Placed(st.entries, fd, OnFile(path, 0, flags))), Number(fd))
  }

  ghost function SpecOpen(st: State, path: string, flags: OpenFlags): (r: Answer)
  {
    if Has(flags, CREATE) || Has(flags, TRUNC) then
      match Target(st.files, path)
      case Err(e) => Answer(st, FdFailed(OfFs(e)))
      case Ok(p) =>
        if At(st.files, p) == Some(ADir) then Answer(st, FdFailed(OfFs(IsDirectory)))
        else OpenedFile(st, if Has(flags, TRUNC) || p !in st.files then st.files[p := AFile([])] else st.files, path, flags)
    else
      match FileData(st.files, path)
      case Err(e) => Answer(st, FdFailed(OfFs(e)))
      case Ok(_) => OpenedFile(st, st.files, path, flags)
  }

  ghost function Extend(entries: seq<Option<OpenFile>>, n: nat): (r: seq<Option<OpenFile>>)
  {
    if |entries| < n then entries + seq(n - |entries|, _ => None) else entries
  }

  /** The bytes and the offset a read draws from, or why it cannot. */
  ghost function SourceIn(st: State, fd: nat): (r: FdResult<(seq<byte>, nat)>)
  {
    if fd >= |st.entries| || st.entries[fd].None? then Failed(BadFd)
    else match st.entries[fd].value
      case Stdin(data, offset) => Done((data, offset))
      case OnFile(path, offset, flags) =>
        if !Has(flags, READ) then Failed(Permission)
        else (match FileData(st.files, path) case Ok(data) => Done((data, offset)) case Err(e) => Failed(OfFs(e)))
      case _ => Failed(Permission)
  }

  ghost function SpecRead(st: State, fd: nat, len: nat): (r: Answer)
  {
    match SourceIn(st, fd)
    case Failed(e) => Answer(st, FdFailed(e))
    case Done(s) =>
      var got := Chunk(s.0, s.1, len);
      var f := st.entries[fd].value;
      Answer(st.(entries := st.entries[fd := Some(f.(offset := s.1 + |got|))]), Bytes(got))
  }

  /** The contents a write to a path starts from. */
  ghost function Contents(files: PathMap, path: string): (r: seq<byte>)
  {
    match FileData(files, path)
    case Ok(data) => data
    case Err(_) => []
  }

  ghost function WroteFile(st: State, fd: nat, path: string, offset: nat, flags: OpenFlags, buf: seq<byte>): (r: Answer)
    requires fd < |st.entries|
  {
    match Target(st.files, path)
    case Err(e) => Answer(st, FdFailed(OfFs(e)))
    case Ok(p) =>
      if At(st.files, p) == Some(ADir) then Answer(st, FdFailed(OfFs(IsDirectory)))
      else if Has(flags, APPEND) then
        Answer(st.(files := st.files[p := AFile(Contents(st.files, path) + buf)]), Number(|buf|))
      else
        Answer(State(st.files[p := AFile(Overlay(Contents(st.files, path), offset, buf))],
                     st.entries[fd := Some(OnFile(path, offset + |buf|, flags))]), Number(|buf|))
  }

  ghost function SpecWrite(st: State, fd: nat, buf: seq<byte>): (r: Answer)
  {
    if fd >= |st.entries| || st.entries[fd].None? then Answer(st, FdFailed(BadFd))
    else match st.entries[fd].value
      case Stdin(_, _) => Answer(st, FdFailed(Permission))
      case Stdout(data) => Answer(st.(entries := st.entries[fd := Some(Stdout(data + buf))]), Number(|buf|))
      case Stderr(data) => Answer(st.(entries := st.entries[fd := Some(Stderr(data + buf))]), Number(|buf|))
      case OnFile(path, offset, flags) =>
        if !Has(flags, WRITE) then Answer(st, FdFailed(Permission)) else WroteFile(st, fd, path, offset, flags, buf)
  }

  ghost function SpecFd(st: State, op: FdOp): (r: Answer)
  {
    match op
    case OpOpen(path, flags) => SpecOpen(st, path, flags)
    case OpClose(fd) =>
      if fd < |st.entries| && st.entries[fd].Some? then Answer(st.(entries := st.entries[fd := None]), Number(0))
      else Answer(st, FdFailed(BadFd))
    case OpDup2(a, b) =>
      if a < |st.entries| && st.entries[a].Some?
      then Answer(st.(entries := Extend(st.entries, b + 1)[b := st.entries[a]]), Number(b))
      else Answer(st, FdFailed(BadFd))
    case OpRead(fd, len) => SpecRead(st, fd, len)
    case OpWriteTo(fd, buf) => SpecWrite(st, fd, buf)
    case OnFiles(o) =>
      var out := SpecStep(st.files, o);
      Answer(st.(files := out.files), FilesReply(out.result))
  }

  // ---- one step ------------------------------------------------------------------------------

  /** The abstract state of a table over a file system. */
  ghost function StateOf(n: Node, entries: seq<Option<OpenFile>>): (st: State) { State(Abs(n), entries) }

  lemma {:induction false} LowestIsFree(entries: seq<Option<OpenFile>>, fd: nat)
    requires fd <= |entries| && (forall i :: 0 <= i < fd ==> entries[i].Some?) && (fd < |entries| ==> entries[fd].None?)
    ensures fd == LowestFree(entries)
  {
    if entries != [] && entries[0].Some? {
      assert fd > 0;
      assert forall i :: 0 <= i < fd - 1 ==> entries[1..][i] == entries[i + 1];
      LowestIsFree(entries[1..], fd - 1);
    }
  }

  lemma WritableIsTarget(n: Node, path: string)
    ensures Writable(n, path) <==> Target(Abs(n), path).Ok? && At(Abs(n), Target(Abs(n), path).value) != Some(ADir)
    ensures Target(Abs(n), path) == Fs.Locate(n, path)
  {
    TargetIsLocate(n, path);
  }

  /** At a path that can be written there is a file to read exactly if there is an entry. */
  lemma ReadableIsThere(n: Node, path: string)
    requires Writable(n, path)
    ensures Fs.ReadResult(n, path).Ok? <==> Fs.Locate(n, path).value in Abs(n)
  {
    var p := Fs.Locate(n, path).value;
    LocateByLook(n, path, p);
    Fs.ReadIsLook(n, path);
    assert At(Abs(n), p) == Look(n, p);
  }

  method RunOpen(t: FileDescriptorTable, fs: Fs.RamFs, path: string, flags: OpenFlags) returns (reply: Reply)
    requires fs.Valid()
    modifies t, fs
    ensures fs.Valid()
    ensures Answer(StateOf(fs.root, t.entries), reply) == SpecOpen(StateOf(old(fs.root), old(t.entries)), path, flags)
  {
    ghost var n, es := fs.root, t.entries;
    WritableIsTarget(n, path);
    FileDataIsRead(n, path);
    if Writable(n, path) { ReadableIsThere(n, path); }
    var r := t.Open(fs, path, flags);
    if r.Done? {
      LowestIsFree(es, r.value);
      if Writable(n, path) && fs.root != n { UpdatedIsPut(n, fs.root, Fs.Locate(n, path).value, AFile([])); }
      OpenedState(n, es, fs.root, path, flags);
      reply := Number(r.value);
    } else {
      reply := FdFailed(r.error);
    }
  }

  /** The map after an open, from what the table promises about the tree. */
  lemma OpenedState(n: Node, es: seq<Option<OpenFile>>, n': Node, path: string, flags: OpenFlags)
    requires if Has(flags, CREATE) || Has(flags, TRUNC) then Writable(n, path) else Fs.ReadResult(n, path).Ok?
    requires Has(flags, TRUNC) ==> Fs.Updated(n, n', Fs.Locate(n, path).value, Some(AFile([])))
    requires !Has(flags, TRUNC) && Fs.ReadResult(n, path).Ok? ==> n' == n
    requires !Has(flags, TRUNC) && !Fs.ReadResult(n, path).Ok? ==> Fs.Updated(n, n', Fs.Locate(n, path).value, Some(AFile([])))
    ensures SpecOpen(StateOf(n, es), path, flags) == OpenedFile(StateOf(n, es), Abs(n'), path, flags)
  {
    WritableIsTarget(n, path);
    FileDataIsRead(n, path);
    if Has(flags, CREATE) || Has(flags, TRUNC) {
      ReadableIsThere(n, path);
      if Has(flags, TRUNC) || !Fs.ReadResult(n, path).Ok? { UpdatedIsPut(n, n', Fs.Locate(n, path).value, AFile([])); }
    }
  }

  method RunClose(t: FileDescriptorTable, fs: Fs.RamFs, fd: nat) returns (reply: Reply)
    modifies t
    ensures Answer(StateOf(fs.root, t.entries), reply) == SpecFd(StateOf(fs.root, old(t.entries)), OpClose(fd))
  {
    var r := t.Close(fd);
    reply := if r.Done? then Number(r.value) else FdFailed(r.error);
  }

  method RunDup2(t: FileDescriptorTable, fs: Fs.RamFs, a: nat, b: nat) returns (reply: Reply)
    modifies t
    ensures Answer(StateOf(fs.root, t.entries), reply) == SpecFd(StateOf(fs.root, old(t.entries)), OpDup2(a, b))
  {
    ghost var es := t.entries;
    var r := t.Dup2(a, b);
    if r.Done? { assert t.entries == Extend(es, b + 1)[b := es[a]]; }
    reply := if r.Done? then Number(r.value) else FdFailed(r.error);
  }

  lemma SourceIsIn(n: Node, es: seq<Option<OpenFile>>, fd: nat)
    ensures SourceIn(StateOf(n, es), fd) == Source(es, fd, n)
  {
    if fd < |es| && es[fd].Some? && es[fd].value.OnFile? { FileDataIsRead(n, es[fd].value.path); }
  }

  method RunRead(t: FileDescriptorTable, fs: Fs.RamFs, fd: nat, len: nat) returns (reply: Reply)
    modifies t
    ensures fs.root == old(fs.root)
    ensures Answer(StateOf(fs.root, t.entries), reply) == SpecRead(StateOf(fs.root, old(t.entries)), fd, len)
  {
    SourceIsIn(fs.root, t.entries, fd);
    var buf := new byte[len](_ => 0);
    var r := t.Read(fs, fd, buf);
    reply := if r.Done? then Bytes(buf[..r.value]) else FdFailed(r.error);
  }

  lemma ContentsIsBefore(n: Node, path: string)
    ensures Contents(Abs(n), path) == Before(n, path)
  {
    FileDataIsRead(n, path);
  }

  method RunWriteTo(t: FileDescriptorTable, fs: Fs.RamFs, fd: nat, buf: seq<byte>) returns (reply: Reply)
    requires fs.Valid()
    modifies t, fs
    ensures fs.Valid()
    ensures Answer(StateOf(fs.root, t.entries), reply) == SpecWrite(StateOf(old(fs.root), old(t.entries)), fd, buf)
  {
    ghost var n, es := fs.root, t.entries;
    var r := t.Write(fs, fd, buf);
    reply := if r.Done? then Number(r.value) else FdFailed(r.error);
    if fd < |es| && es[fd].Some? && es[fd].value.OnFile? {
      WrittenState(n, es, fs.root, t.entries, fd, buf, r);
    }
  }

  lemma WrittenState(n: Node, es: seq<Option<OpenFile>>, n': Node, es': seq<Option<OpenFile>>, fd: nat, buf: seq<byte>, r: FdResult<nat>)
    requires fd < |es| && es[fd].Some? && es[fd].value.OnFile?
    requires var f := es[fd].value;
             && FileWritten(n, n', f.path, f.offset, f.flags, buf, r)
             && (r.Done? ==> es' == if Has(f.flags, APPEND) then es else es[fd := Some(OnFile(f.path, f.offset + |buf|, f.flags))])
    requires r.Failed? ==> es' == es && n' == n
    ensures SpecWrite(StateOf(n, es), fd, buf) ==
              Answer(StateOf(n', es'), if r.Done? then Number(r.value) else FdFailed(r.error))
  {
    var f := es[fd].value;
    WritableIsTarget(n, f.path);
    ContentsIsBefore(n, f.path);
    if r.Done? {
      UpdatedIsPut(n, n', Fs.Locate(n, f.path).value, AFile(NewContents(n, f.path, f.offset, f.flags, buf)));
    }
  }

  method Step(t: FileDescriptorTable, fs: Fs.RamFs, op: FdOp) returns (reply: Reply)
    requires fs.Valid()
    modifies t, fs
    ensures fs.Valid()
    ensures Answer(StateOf(fs.root, t.entries), reply) == SpecFd(StateOf(old(fs.root), old(t.entries)), op)
  {
    match op {
      case OpOpen(path, flags) => reply := RunOpen(t, fs, path, flags);
      case OpClose(fd) => reply := RunClose(t, fs, fd);
      case OpDup2(a, b) => reply := RunDup2(t, fs, a, b);
      case OpRead(fd, len) => reply := RunRead(t, fs, fd, len);
      case OpWriteTo(fd, buf) => reply := RunWriteTo(t, fs, fd, buf);
      case OnFiles(o) =>
        var r := FsRefinement.RunOne(fs, o);
        reply := FilesReply(r);
    }
  }

  // ---- whole runs ----------------------------------------------------------------------------

  ghost function SpecFds(st: State, ops: seq<FdOp>): (r: State)
    decreases |ops|
  {
    if ops == [] then st else SpecFds(SpecFd(st, ops[0]).state, ops[1..])
  }

  ghost function SpecReplies(st: State, ops: seq<FdOp>): (r: seq<Reply>)
    decreases |ops|
  {
    if ops == [] then [] else [SpecFd(st, ops[0]).reply] + SpecReplies(SpecFd(st, ops[0]).state, ops[1..])
  }

  /** Any run, on any mix of descriptors and with files changing underneath, gives the abstract replies and state. */
  method Run(t: FileDescriptorTable, fs: Fs.RamFs, ops: seq<FdOp>) returns (replies: seq<Reply>)
    requires fs.Valid()
    modifies t, fs
    ensures fs.Valid()
    ensures StateOf(fs.root, t.entries) == SpecFds(StateOf(old(fs.root), old(t.entries)), ops)
    ensures replies == SpecReplies(StateOf(old(fs.root), old(t.entries)), ops)
    decreases |ops|
  {
    if ops == [] {
      return [];
    }
    var r := Step(t, fs, ops[0]);
    var rest := Run(t, fs, ops[1..]);
    return [r] + rest;
  }

  /** After `dup2` the two descriptors move independently: a read through one leaves the other alone. */
  lemma DupIsIndependent(st: State, a: nat, b: nat, len: nat)
    requires a < |st.entries| && st.entries[a].Some? && a != b
    ensures var st1 := SpecFd(st, OpDup2(a, b)).state;
            var st2 := SpecFd(st1, OpRead(b, len)).state;
            && b < |st1.entries| && a < |st2.entries| == |st1.entries|
            && st1.entries[b] == st.entries[a] && st2.entries[a] == st.entries[a]
  {
  }
}
