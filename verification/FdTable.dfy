/** The per-process descriptor table: byte streams over the in-memory file system. */
module FdTable {
  import opened Basics
  import opened FsTree
  import Fs = RamFs

  /** Open flags as a bit set. */
  type OpenFlags = bv8

  const READ: OpenFlags := 1
  const WRITE: OpenFlags := 2
  const CREATE: OpenFlags := 4
  const TRUNC: OpenFlags := 8
  const APPEND: OpenFlags := 16

  predicate Has(flags: OpenFlags, f: OpenFlags) { flags & f == f }

  /** Each flag is its own bit, and a set of flags has those of its parts. */
  lemma FlagBits(a: OpenFlags, b: OpenFlags)
    ensures Has(a, READ) <==> a & 1 != 0
    ensures Has(a, WRITE) <==> a & 2 != 0
    ensures Has(a, CREATE) <==> a & 4 != 0
    ensures Has(a, TRUNC) <==> a & 8 != 0
    ensures Has(a, APPEND) <==> a & 16 != 0
    ensures Has(a | b, READ) <==> Has(a, READ) || Has(b, READ)
    ensures Has(a | b, WRITE) <==> Has(a, WRITE) || Has(b, WRITE)
    ensures Has(a | b, CREATE) <==> Has(a, CREATE) || Has(b, CREATE)
    ensures Has(a | b, TRUNC) <==> Has(a, TRUNC) || Has(b, TRUNC)
    ensures Has(a | b, APPEND) <==> Has(a, APPEND) || Has(b, APPEND)
  {
  }

  datatype FdError = BadFd | Permission | OfFs(error: FsError)

  datatype FdResult<+T> = Done(value: T) | Failed(error: FdError)

  datatype OpenFile =
    | Stdin(data: seq<byte>, offset: nat)
    | Stdout(data: seq<byte>)
    | Stderr(data: seq<byte>)
    | OnFile(path: string, offset: nat, flags: OpenFlags)

  // ---- streams -----------------------------------------------------------------------

  /** The bytes a read of up to `len` bytes at `offset` delivers. */
  function Chunk(data: seq<byte>, offset: nat, len: nat): (r: seq<byte>)
    ensures |r| <= len
  {
    seq(if offset >= |data| then 0 else Min(len, |data| - offset), i requires 0 <= i && offset + i < |data| => data[offset + i])
  }

  function Sum(sizes: seq<nat>): (n: nat)
  {
    if sizes == [] then 0 else sizes[0] + Sum(sizes[1..])
  }

  function Flatten(bufs: seq<seq<byte>>): (r: seq<byte>)
  {
    if bufs == [] then [] else bufs[0] + Flatten(bufs[1..])
  }

  /** Two reads in a row deliver what one large read would. */
  lemma ChunkThenChunk(data: seq<byte>, offset: nat, a: nat, b: nat)
    ensures Chunk(data, offset, a) + Chunk(data, offset + |Chunk(data, offset, a)|, b) == Chunk(data, offset, a + b)
  {
  }

  lemma {:induction false} SumSnoc(sizes: seq<nat>, n: nat)
    ensures Sum(sizes + [n]) == Sum(sizes) + n
  {
    if sizes == [] {
      assert sizes + [n] == [n];
    } else {
      assert (sizes + [n])[1..] == sizes[1..] + [n];
      SumSnoc(sizes[1..], n);
    }
  }

  lemma {:induction false} FlattenSnoc(bufs: seq<seq<byte>>, b: seq<byte>)
    ensures Flatten(bufs + [b]) == Flatten(bufs) + b
  {
    if bufs == [] {
      assert bufs + [b] == [b];
    } else {
      assert (bufs + [b])[1..] == bufs[1..] + [b];
      FlattenSnoc(bufs[1..], b);
    }
  }

  /** Zero-filled up to length `n`. */
  function Extended(data: seq<byte>, n: nat): (r: seq<byte>)
    ensures |r| == if |data| < n then n else |data|
    ensures forall i :: 0 <= i < |r| ==> r[i] == if i < |data| then data[i] else 0
  {
    if |data| < n then data + Zeros(n - |data|) else data
  }

  /** `data` overwritten by `buf` at `offset`, gaps filled with zeros. */
  function Overlay(data: seq<byte>, offset: nat, buf: seq<byte>): (r: seq<byte>)
    ensures |r| == if |data| < offset + |buf| then offset + |buf| else |data|
  {
    seq(if |data| < offset + |buf| then offset + |buf| else |data|, i requires 0 <= i =>
      if offset <= i < offset + |buf| then buf[i - offset] else if i < |data| then data[i] else 0)
  }

  /** Byte `i` of `after`: that of `buf` in its own range from `at` on, else the old one, or zero in a gap. */
  ghost predicate PatchedAt(before: seq<byte>, at: nat, buf: seq<byte>, after: seq<byte>, i: nat)
    requires i < |after|
  {
    after[i] == if at <= i < at + |buf| then buf[i - at] else if i < |before| then before[i] else 0
  }

  /** `before` with `buf` written over it from `at` on, byte by byte. */
  ghost predicate Patched(before: seq<byte>, at: nat, buf: seq<byte>, after: seq<byte>)
  {
    && |after| == Max(|before|, at + |buf|)
    && forall i: nat {:trigger PatchedAt(before, at, buf, after, i)} :: i < |after| ==> PatchedAt(before, at, buf, after, i)
  }

  lemma OverlayPatches(data: seq<byte>, offset: nat, buf: seq<byte>)
    ensures Patched(data, offset, buf, Overlay(data, offset, buf))
  {
  }

  lemma AppendPatches(data: seq<byte>, buf: seq<byte>)
    ensures Patched(data, |data|, buf, data + buf)
  {
  }

  /** Two writes in a row leave what one write of both buffers would. */
  lemma OverlayThenOverlay(data: seq<byte>, offset: nat, a: seq<byte>, b: seq<byte>)
    ensures Overlay(Overlay(data, offset, a), offset + |a|, b) == Overlay(data, offset, a + b)
  {
  }

  /** What was written can be read back from the same place. */
  lemma ReadBack(data: seq<byte>, offset: nat, buf: seq<byte>)
    ensures Chunk(Overlay(data, offset, buf), offset, |buf|) == buf
  {
  }

  // ---- where a file descriptor points ----------------------------------------------------

  /** The same open file, `n` bytes further on. */
  function Advanced(f: OpenFile, n: nat): (r: OpenFile)
    requires f.Stdin? || f.OnFile?
  {
    f.(offset := f.offset + n)
  }

  /** The directory part of a path decides whether it can be located. */
  lemma LocateByLook(n: Node, path: string, p: Path)
    ensures Fs.Locate(n, path) == Ok(p) <==> SplitPath(path) == Ok(p) && p != [] && Look(n, p[..|p| - 1]) == Some(ADir)
  {
    if SplitPath(path) == Ok(p) && p != [] { WalkOutcome(n, p[..|p| - 1]); }
  }

  /** The contents a write starts from: the file if it can be read, else nothing. */
  function Before(n: Node, path: string): (r: seq<byte>)
  {
    match Fs.ReadResult(n, path)
    case Ok(data) => data
    case Err(_) => []
  }

  /** Why a path cannot be written: the first component that fails, or a directory at its end. */
  function WriteError(n: Node, path: string): (e: FsError)
  {
    match Fs.Locate(n, path)
    case Err(e) => e
    case Ok(_) => IsDirectory
  }

  /** The path names a file, or a free place in a directory. */
  ghost predicate Writable(n: Node, path: string)
  {
    Fs.Locate(n, path).Ok? && Look(n, Fs.Locate(n, path).value) != Some(ADir)
  }

  /** Why a path cannot be written, read off the path map. */
  lemma WriteErrors(n: Node, path: string)
    requires !Writable(n, path)
    ensures WriteError(n, path) == InvalidPath <==> Fs.NoTarget(path)
    ensures !Fs.NoTarget(path) ==>
              && SplitPath(path).Ok? && SplitPath(path).value != []
              && var p := SplitPath(path).value;
              var d := p[..|p| - 1];
              && (WriteError(n, path) == IsDirectory <==> Look(n, p) == Some(ADir))
              && (WriteError(n, path) == NotFound <==> exists i :: MissingAt(n, d, i))
              && (WriteError(n, path) == NotDirectory <==>
                    exists i :: 0 <= i <= |d| && Look(n, d[..i]).Some? && Look(n, d[..i]) != Some(ADir))
  {
    Fs.LocateOutcome(n, path);
    if !Fs.NoTarget(path) && Look(n, SplitPath(path).value).Some? {
      PrefixClosed(n, SplitPath(path).value, |SplitPath(path).value| - 1);
    }
  }

  /** After a file was written it stays where it is and reads back. */
  lemma WrittenStays(n: Node, n': Node, path: string, data: seq<byte>)
    requires Writable(n, path) && Fs.Updated(n, n', Fs.Locate(n, path).value, Some(AFile(data)))
    ensures Writable(n', path) && Fs.Locate(n', path) == Fs.Locate(n, path) && Fs.ReadResult(n', path) == Ok(data)
  {
    var p := Fs.Locate(n, path).value;
    LocateByLook(n, path, p);
    LocateByLook(n', path, p);
    Fs.ReadIsLook(n', path);
    assert Fs.UpdatedAt(n, n', p, Some(AFile(data)), p) && Fs.UpdatedAt(n, n', p, Some(AFile(data)), p[..|p| - 1]);
  }

  lemma UpdatedTwice(n: Node, n1: Node, n2: Node, p: Path, a: Option<Entry>, b: Option<Entry>)
    requires Fs.Updated(n, n1, p, a) && Fs.Updated(n1, n2, p, b)
    ensures Fs.Updated(n, n2, p, b)
  {
    forall q ensures Fs.UpdatedAt(n, n2, p, b, q) {
      assert Fs.UpdatedAt(n, n1, p, a, q) && Fs.UpdatedAt(n1, n2, p, b, q);
    }
  }

  // ---- the table ---------------------------------------------------------------------------

  /** A buffer of `|before|` bytes received the `n` bytes of `data` that are left at `offset` and fit. */
  ghost predicate Delivered(data: seq<byte>, offset: nat, before: seq<byte>, after: seq<byte>, n: nat)
  {
    && n == (if offset >= |data| then 0 else Min(|before|, |data| - offset)) && |after| == |before|
    && forall i :: 0 <= i < |after| ==> after[i] == if i < n then data[offset + i] else before[i]
  }

  /** Copy what fits from `src` at `offset` to the front of `dst`. */
  method CopyFromOffset(src: seq<byte>, offset: nat, dst: array<byte>) returns (n: nat)
    modifies dst
    ensures n == |Chunk(src, offset, dst.Length)| && dst[..n] == Chunk(src, offset, dst.Length)
    ensures dst[n..] == old(dst[n..])
    ensures Delivered(src, offset, old(dst[..]), dst[..], n)
  {
    if offset >= |src| {
      return 0;
    }
    n := Min(dst.Length, |src| - offset);
    for i := 0 to n
      invariant dst[..i] == src[offset..offset + i]
      invariant dst[n..] == old(dst[n..])
    {
      dst[i] := src[offset + i];
    }
  }

  /** Grow to the offset, grow to the end of the buffer, copy the buffer in. */
  method Patch(before: seq<byte>, offset: nat, buf: seq<byte>) returns (data: seq<byte>)
    ensures data == Overlay(before, offset, buf)
    ensures |data| == Max(|before|, offset + |buf|)
    ensures forall i :: 0 <= i < |data| ==>
              data[i] == if offset <= i < offset + |buf| then buf[i - offset] else if i < |before| then before[i] else 0
  {
    data := before;
    if offset > |data| {
      data := Extended(data, offset);
    }
    if offset + |buf| > |data| {
      data := Extended(data, offset + |buf|);
    }
    data := data[..offset] + buf + data[offset + |buf|..];
    assert data == Overlay(before, offset, buf);
  }

  class FileDescriptorTable {
    var entries: seq<Option<OpenFile>>

    constructor ()
      ensures entries == [Some(Stdin([], 0)), Some(Stdout([])), Some(Stderr([]))]
    {
      entries := [Some(Stdin([], 0)), Some(Stdout([])), Some(Stderr([]))];
    }

    /** Put a file in the lowest free slot. */
    method Insert(file: OpenFile) returns (fd: nat)
      modifies this
      ensures fd <= |old(entries)| && (forall i :: 0 <= i < fd ==> old(entries)[i].Some?)
      ensures if fd == |old(entries)| then entries == old(entries) + [Some(file)]
              else old(entries)[fd].None? && entries == old(entries)[fd := Some(file)]
    {
      fd := 0;
      while fd < |entries|
        invariant 0 <= fd <= |entries| && entries == old(entries)
        invariant forall i :: 0 <= i < fd ==> entries[i].Some?
      {
        if entries[fd].None? {
          entries := entries[fd := Some(file)];
          return;
        }
        fd := fd + 1;
      }
      entries := entries + [Some(file)];
    }

    /** Open a file on the lowest free descriptor, at offset 0. A failed open changes nothing. */
    method Open(fs: Fs.RamFs, path: string, flags: OpenFlags) returns (r: FdResult<nat>)
      requires fs.Valid()
      modifies this, fs
      ensures fs.Valid()
      ensures r.Failed? ==> entries == old(entries) && fs.root == old(fs.root)
      ensures r.Done? <==> if Has(flags, CREATE) || Has(flags, TRUNC) then Writable(old(fs.root), path)
                           else Fs.ReadResult(old(fs.root), path).Ok?
      ensures r.Failed? ==>
                r.error == OfFs(if Has(flags, CREATE) || Has(flags, TRUNC) then WriteError(old(fs.root), path)
                                else Fs.ReadResult(old(fs.root), path).error)
      ensures r.Done? ==> Opened(old(entries), entries, r.value, OnFile(path, 0, flags))
      ensures r.Done? && Has(flags, TRUNC) ==>
                Fs.Updated(old(fs.root), fs.root, Fs.Locate(old(fs.root), path).value, Some(AFile([])))
      ensures r.Done? && !Has(flags, TRUNC) && Fs.ReadResult(old(fs.root), path).Ok? ==> fs.root == old(fs.root)
      ensures r.Done? && !Has(flags, TRUNC) && !Fs.ReadResult(old(fs.root), path).Ok? ==>
                Fs.Updated(old(fs.root), fs.root, Fs.Locate(old(fs.root), path).value, Some(AFile([])))
    {
      Fs.ReadIsLook(fs.root, path);
      ghost var n0 := fs.root;
      if SplitPath(path).Ok? { LocateByLook(n0, path, SplitPath(path).value); }
      if Has(flags, CREATE) {
        var t := fs.Touch(path);
        if t.Err? {
          return Failed(OfFs(t.error));
        }
        if fs.root != n0 { WrittenStays(n0, fs.root, path, []); }
      }
      ghost var n1 := fs.root;
      if Has(flags, TRUNC) {
        var w := fs.Write(path, []);
        if w.Err? {
          return Failed(OfFs(w.error));
        }
        if n1 != n0 {
          UpdatedTwice(n0, n1, fs.root, Fs.Locate(n0, path).value, Some(AFile([])), Some(AFile([])));
        }
      } else if !Has(flags, CREATE) {
        var d := fs.Read(path);
        if d.Err? {
          return Failed(OfFs(d.error));
        }
      }
      var fd := Insert(OnFile(path, 0, flags));
      return Done(fd);
    }

    method Close(fd: nat) returns (r: FdResult<nat>)
      modifies this
      ensures r == if fd < |old(entries)| && old(entries)[fd].Some? then Done(0) else Failed(BadFd)
      ensures entries == if r.Done? then old(entries)[fd := None] else old(entries)
    {
      if fd >= |entries| || entries[fd].None? {
        return Failed(BadFd);
      }
      entries := entries[fd := None];
      return Done(0);
    }

    /** The new descriptor gets its own copy of the old one, offset included. */
    method Dup2(oldFd: nat, newFd: nat) returns (r: FdResult<nat>)
      modifies this
      ensures r == if oldFd < |old(entries)| && old(entries)[oldFd].Some? then Done(newFd) else Failed(BadFd)
      ensures r.Failed? ==> entries == old(entries)
      ensures r.Done? ==>
                && |entries| == (if newFd < |old(entries)| then |old(entries)| else newFd + 1)
                && entries[newFd] == old(entries)[oldFd]
                && forall i :: 0 <= i < |entries| && i != newFd ==>
                     entries[i] == if i < |old(entries)| then old(entries)[i] else None
    {
      if oldFd >= |entries| || entries[oldFd].None? {
        return Failed(BadFd);
      }
      var file := entries[oldFd];
      while |entries| <= newFd
        invariant |old(entries)| <= |entries| && (|old(entries)| <= newFd ==> |entries| <= newFd + 1)
        invariant newFd < |old(entries)| ==> entries == old(entries)
        invariant forall i :: 0 <= i < |entries| ==> entries[i] == if i < |old(entries)| then old(entries)[i] else None
        decreases newFd + 1 - |entries|
      {
        entries := entries + [None];
      }
      entries := entries[newFd := file];
      return Done(newFd);
    }

    /** Read into `buf` from the descriptor's offset and advance it. Only that descriptor changes. */
    method Read(fs: Fs.RamFs, fd: nat, buf: array<byte>) returns (r: FdResult<nat>)
      modifies this, buf
      ensures fs.root == old(fs.root)
      ensures r.Failed? ==> entries == old(entries) && buf[..] == old(buf[..])
      ensures r == match Source(old(entries), fd, fs.root)
                   case Failed(e) => Failed(e)
                   case Done(s) => Done(|Chunk(s.0, s.1, buf.Length)|)
      ensures r.Done? ==>
                var s := Source(old(entries), fd, fs.root).value;
                && fd < |old(entries)| && old(entries)[fd].Some? && (old(entries)[fd].value.Stdin? || old(entries)[fd].value.OnFile?)
                && buf[..r.value] == Chunk(s.0, s.1, buf.Length) && buf[r.value..] == old(buf[r.value..])
                && entries == old(entries)[fd := Some(old(entries)[fd].value.(offset := s.1 + r.value))]
      ensures !(fd < |old(entries)| && old(entries)[fd].Some?) ==> r == Failed(BadFd)
      ensures fd < |old(entries)| && old(entries)[fd].Some? ==>
                match old(entries)[fd].value
                case Stdin(data, offset) => r.Done? && Delivered(data, offset, old(buf[..]), buf[..], r.value)
                case OnFile(path, offset, flags) =>
                  if !Has(flags, READ) then r == Failed(Permission)
                  else (match Fs.ReadResult(fs.root, path)
                        case Err(e) => r == Failed(OfFs(e))
                        case Ok(data) => r.Done? && Delivered(data, offset, old(buf[..]), buf[..], r.value))
                case Stdout(_) => r == Failed(Permission)
                case Stderr(_) => r == Failed(Permission)
    {
      if fd >= |entries| || entries[fd].None? {
        return Failed(BadFd);
      }
      match entries[fd].value {
        case Stdin(data, offset) =>
          var n := CopyFromOffset(data, offset, buf);
          entries := entries[fd := Some(Stdin(data, offset + n))];
          return Done(n);
        case OnFile(path, offset, flags) =>
          if !Has(flags, READ) {
            return Failed(Permission);
          }
          var data := fs.Read(path);
          if data.Err? {
            return Failed(OfFs(data.error));
          }
          var n := CopyFromOffset(data.value, offset, buf);
          entries := entries[fd := Some(OnFile(path, offset + n, flags))];
          return Done(n);
        case Stdout(_) => return Failed(Permission);
        case Stderr(_) => return Failed(Permission);
      }
    }

    /** Write `buf` at the descriptor's offset, or at the end for append descriptors. */
    method Write(fs: Fs.RamFs, fd: nat, buf: seq<byte>) returns (r: FdResult<nat>)
      requires fs.Valid()
      modifies this, fs
      ensures fs.Valid()
      ensures r.Failed? ==> entries == old(entries) && fs.root == old(fs.root)
      ensures !(fd < |old(entries)| && old(entries)[fd].Some?) ==> r == Failed(BadFd)
      ensures fd < |old(entries)| && old(entries)[fd].Some? ==>
                match old(entries)[fd].value
                case Stdin(_, _) => r == Failed(Permission)
                case Stdout(data) =>
                  r == Done(|buf|) && fs.root == old(fs.root) && entries == old(entries)[fd := Some(Stdout(data + buf))]
                case Stderr(data) =>
                  r == Done(|buf|) && fs.root == old(fs.root) && entries == old(entries)[fd := Some(Stderr(data + buf))]
                case OnFile(path, offset, flags) =>
                  FileWritten(old(fs.root), fs.root, path, offset, flags, buf, r) &&
                  (r.Done? ==> entries == if Has(flags, APPEND) then old(entries)
                                          else old(entries)[fd := Some(OnFile(path, offset + |buf|, flags))])
      ensures r.Done? && old(entries)[fd].value.OnFile? ==>
                var f := old(entries)[fd].value;
                FilePatched(old(fs.root), fs.root, f.path, if Has(f.flags, APPEND) then None else Some(f.offset), buf)
    {
      if fd >= |entries| || entries[fd].None? {
        return Failed(BadFd);
      }
      match entries[fd].value {
        case Stdin(_, _) => return Failed(Permission);
        case Stdout(data) =>
          entries := entries[fd := Some(Stdout(data + buf))];
          return Done(|buf|);
        case Stderr(data) =>
          entries := entries[fd := Some(Stderr(data + buf))];
          return Done(|buf|);
        case OnFile(path, offset, flags) =>
          r := WriteFile(fs, path, offset, flags, buf);
          if r.Done? {
            WrittenIsPatched(old(fs.root), fs.root, path, offset, flags, buf, r);
            if !Has(flags, APPEND) {
              entries := entries[fd := Some(OnFile(path, offset + |buf|, flags))];
            }
          }
      }
    }

    /** The part of a write that concerns the file. */
    method WriteFile(fs: Fs.RamFs, path: string, offset: nat, flags: OpenFlags, buf: seq<byte>) returns (r: FdResult<nat>)
      requires fs.Valid()
      modifies fs
      ensures fs.Valid()
      ensures r.Failed? ==> fs.root == old(fs.root)
      ensures FileWritten(old(fs.root), fs.root, path, offset, flags, buf, r)
    {
      if !Has(flags, WRITE) {
        return Failed(Permission);
      }
      if Has(flags, APPEND) {
        BeforeIsLook(fs.root, path);
        var a := fs.Append(path, buf);
        if a.Err? {
          return Failed(OfFs(a.error));
        }
        return Done(|buf|);
      }
      var read := fs.Read(path);
      var data := Patch(if read.Ok? then read.value else [], offset, buf);
      var w := fs.Write(path, data);
      if w.Err? {
        return Failed(OfFs(w.error));
      }
      return Done(|buf|);
    }

    /** Any run of reads, with any buffer sizes, delivers the source from the starting offset on. */
    method ReadMany(fs: Fs.RamFs, fd: nat, sizes: seq<nat>) returns (out: seq<byte>)
      requires Source(entries, fd, fs.root).Done?
      modifies this
      ensures fs.root == old(fs.root)
      ensures var s := Source(old(entries), fd, fs.root).value;
              out == Chunk(s.0, s.1, Sum(sizes)) && MovedOn(old(entries), entries, fd, |out|)
      ensures var s := Source(old(entries), fd, fs.root).value;
              && |out| == (if s.1 >= |s.0| then 0 else Min(Sum(sizes), |s.0| - s.1))
              && forall i :: 0 <= i < |out| ==> out[i] == s.0[s.1 + i]
    {
      out := [];
      ghost var s := Source(entries, fd, fs.root).value;
      MovedNowhere(entries, fd);
      ghost var total := 0;
      for i := 0 to |sizes|
        invariant fs.root == old(fs.root) && Source(entries, fd, fs.root) == Done((s.0, s.1 + |out|))
        invariant total == Sum(sizes[..i]) && out == Chunk(s.0, s.1, total) && MovedOn(old(entries), entries, fd, |out|)
      {
        SumNext(sizes, i);
        out := ReadNext(fs, fd, sizes[i], out, old(entries), s.0, s.1, total);
        total := total + sizes[i];
      }
      assert sizes[..|sizes|] == sizes;
    }

    /** One more read of a run, after `total` bytes had been asked for. */
    method ReadNext(fs: Fs.RamFs, fd: nat, size: nat, out: seq<byte>, ghost before: seq<Option<OpenFile>>,
                    ghost data: seq<byte>, ghost offset: nat, ghost total: nat)
      returns (more: seq<byte>)
      requires Source(entries, fd, fs.root) == Done((data, offset + |out|)) && MovedOn(before, entries, fd, |out|)
      requires out == Chunk(data, offset, total)
      modifies this
      ensures fs.root == old(fs.root) && Source(entries, fd, fs.root) == Done((data, offset + |more|))
      ensures more == Chunk(data, offset, total + size) && MovedOn(before, entries, fd, |more|)
    {
      ghost var e1 := entries;
      var next := ReadSome(fs, fd, size);
      MovedTwice(before, e1, entries, fd, |out|, |next|);
      MoreRead(data, offset, total, size, out, next);
      more := out + next;
    }

    /** One read into a fresh buffer. */
    method ReadSome(fs: Fs.RamFs, fd: nat, size: nat) returns (out: seq<byte>)
      requires Source(entries, fd, fs.root).Done?
      modifies this
      ensures fs.root == old(fs.root)
      ensures var s := Source(old(entries), fd, fs.root).value;
              && out == Chunk(s.0, s.1, size) && MovedOn(old(entries), entries, fd, |out|)
              && Source(entries, fd, fs.root) == Done((s.0, s.1 + |out|))
    {
      var buf := new byte[size](_ => 0);
      var r := Read(fs, fd, buf);
      out := buf[..r.value];
    }

    /** Any run of writes leaves the zero-filled overlay of all the bytes at the starting offset. */
    method WriteMany(fs: Fs.RamFs, fd: nat, bufs: seq<seq<byte>>)
      requires fs.Valid()
      requires fd < |entries| && entries[fd].Some? && entries[fd].value.OnFile?
      requires Has(entries[fd].value.flags, WRITE) && !Has(entries[fd].value.flags, APPEND)
      requires Writable(fs.root, entries[fd].value.path)
      modifies this, fs
      ensures fs.Valid()
      ensures bufs == [] ==> fs.root == old(fs.root) && entries == old(entries)
      ensures bufs != [] ==>
                var f := old(entries)[fd].value;
                && Overwritten(old(fs.root), fs.root, f.path, Overlay(Before(old(fs.root), f.path), f.offset, Flatten(bufs)))
                && entries == old(entries)[fd := Some(Advanced(f, |Flatten(bufs)|))]
      ensures bufs != [] ==>
                var f := old(entries)[fd].value;
                FilePatched(old(fs.root), fs.root, f.path, Some(f.offset), Flatten(bufs))
    {
      if bufs == [] {
        return;
      }
      ghost var f, n0 := entries[fd].value, fs.root;
      ghost var data := Overlay(Before(n0, f.path), f.offset, bufs[0]);
      WriteSome(fs, fd, bufs[0]);
      WrittenStays(n0, fs.root, f.path, data);
      FlattenFirst(bufs);
      var i := 1;
      while i < |bufs|
        invariant 1 <= i <= |bufs| && fs.Valid()
        invariant entries == old(entries)[fd := Some(Advanced(f, |Flatten(bufs[..i])|))]
        invariant data == Overlay(Before(n0, f.path), f.offset, Flatten(bufs[..i])) && Overwritten(n0, fs.root, f.path, data)
      {
        ghost var f1 := Advanced(f, |Flatten(bufs[..i])|);
        data := WriteNext(fs, fd, bufs[i], n0, f1, data);
        UpdateTwice(old(entries), fd, Some(f1), Some(Advanced(f1, |bufs[i]|)));
        MoreWritten(Before(n0, f.path), f.offset, bufs, i, data);
        i := i + 1;
      }
      assert bufs[..|bufs|] == bufs;
      ManyPatched(n0, fs.root, f.path, f.offset, Flatten(bufs));
    }

    /** One write at the offset of a descriptor that can write. */
    method WriteSome(fs: Fs.RamFs, fd: nat, buf: seq<byte>)
      requires fs.Valid() && fd < |entries| && entries[fd].Some? && entries[fd].value.OnFile?
      requires Has(entries[fd].value.flags, WRITE) && !Has(entries[fd].value.flags, APPEND)
      requires Writable(fs.root, entries[fd].value.path)
      modifies this, fs
      ensures fs.Valid()
      ensures var f := old(entries)[fd].value;
              && entries == old(entries)[fd := Some(Advanced(f, |buf|))]
              && Fs.Updated(old(fs.root), fs.root, Fs.Locate(old(fs.root), f.path).value,
                            Some(AFile(Overlay(Before(old(fs.root), f.path), f.offset, buf))))
    {
      var r := Write(fs, fd, buf);
    }

    /** One more write to a file that now holds `data`. */
    method WriteNext(fs: Fs.RamFs, fd: nat, buf: seq<byte>, ghost n0: Node, ghost f: OpenFile, ghost data: seq<byte>)
      returns (ghost data': seq<byte>)
      requires fs.Valid() && fd < |entries| && f.OnFile? && entries[fd] == Some(f)
      requires Has(f.flags, WRITE) && !Has(f.flags, APPEND) && Overwritten(n0, fs.root, f.path, data)
      modifies this, fs
      ensures fs.Valid() && entries == old(entries)[fd := Some(Advanced(f, |buf|))]
      ensures data' == Overlay(data, f.offset, buf) && Overwritten(n0, fs.root, f.path, data')
    {
      ghost var n1 := fs.root;
      data' := Overlay(data, f.offset, buf);
      WriteSome(fs, fd, buf);
      WrittenAgain(n0, n1, fs.root, f.path, data, data');
    }
  }

  lemma FlattenFirst(bufs: seq<seq<byte>>)
    requires bufs != []
    ensures Flatten(bufs[..1]) == bufs[0]
  {
    assert bufs[..1] == [bufs[0]];
    assert Flatten([bufs[0]]) == bufs[0] + [] == bufs[0];
  }

  lemma FlattenNext(bufs: seq<seq<byte>>, i: nat)
    requires i < |bufs|
    ensures Flatten(bufs[..i + 1]) == Flatten(bufs[..i]) + bufs[i]
  {
    assert bufs[..i + 1] == bufs[..i] + [bufs[i]];
    FlattenSnoc(bufs[..i], bufs[i]);
  }

  /** Only descriptor `fd` changed: its offset is `n` further on. */
  ghost predicate MovedOn(before: seq<Option<OpenFile>>, after: seq<Option<OpenFile>>, fd: nat, n: nat)
  {
    && fd < |before| && before[fd].Some? && (before[fd].value.Stdin? || before[fd].value.OnFile?)
    && after == before[fd := Some(Advanced(before[fd].value, n))]
  }

  lemma MovedNowhere(entries: seq<Option<OpenFile>>, fd: nat)
    requires fd < |entries| && entries[fd].Some? && (entries[fd].value.Stdin? || entries[fd].value.OnFile?)
    ensures MovedOn(entries, entries, fd, 0)
  {
  }

  lemma MovedTwice(e0: seq<Option<OpenFile>>, e1: seq<Option<OpenFile>>, e2: seq<Option<OpenFile>>, fd: nat, a: nat, b: nat)
    requires MovedOn(e0, e1, fd, a) && MovedOn(e1, e2, fd, b)
    ensures MovedOn(e0, e2, fd, a + b)
  {
  }

  lemma UpdateTwice<T>(s: seq<T>, i: nat, a: T, b: T)
    requires i < |s|
    ensures s[i := a][i := b] == s[i := b]
  {
  }

  lemma MoreRead(data: seq<byte>, offset: nat, a: nat, b: nat, out: seq<byte>, next: seq<byte>)
    requires out == Chunk(data, offset, a) && next == Chunk(data, offset + |out|, b)
    ensures out + next == Chunk(data, offset, a + b)
  {
    ChunkThenChunk(data, offset, a, b);
  }

  lemma SumNext(sizes: seq<nat>, i: nat)
    requires i < |sizes|
    ensures Sum(sizes[..i + 1]) == Sum(sizes[..i]) + sizes[i]
  {
    assert sizes[..i + 1] == sizes[..i] + [sizes[i]];
    SumSnoc(sizes[..i], sizes[i]);
  }

  lemma MoreWritten(before: seq<byte>, offset: nat, bufs: seq<seq<byte>>, i: nat, data: seq<byte>)
    requires i < |bufs|
    requires var done := Flatten(bufs[..i]); data == Overlay(Overlay(before, offset, done), offset + |done|, bufs[i])
    ensures data == Overlay(before, offset, Flatten(bufs[..i + 1]))
    ensures |Flatten(bufs[..i + 1])| == |Flatten(bufs[..i])| + |bufs[i]|
  {
    FlattenNext(bufs, i);
    OverlayThenOverlay(before, offset, Flatten(bufs[..i]), bufs[i]);
  }

  /** The file at `path` now holds exactly `data`, and nothing else in the tree changed. */
  ghost predicate Overwritten(n: Node, n': Node, path: string, data: seq<byte>)
  {
    && Writable(n, path) && Writable(n', path) && Fs.Locate(n', path) == Fs.Locate(n, path)
    && Fs.Updated(n, n', Fs.Locate(n, path).value, Some(AFile(data)))
    && Fs.ReadResult(n', path) == Ok(data)
  }

  lemma WrittenAgain(n0: Node, n1: Node, n2: Node, path: string, before: seq<byte>, data: seq<byte>)
    requires Overwritten(n0, n1, path, before) && Fs.Updated(n1, n2, Fs.Locate(n1, path).value, Some(AFile(data)))
    ensures Overwritten(n0, n2, path, data)
  {
    WrittenStays(n1, n2, path, data);
    UpdatedTwice(n0, n1, n2, Fs.Locate(n0, path).value, Some(AFile(before)), Some(AFile(data)));
  }

  /** `fd` is the lowest free slot and holds `file`; every other slot is unchanged. */
  ghost predicate Opened(before: seq<Option<OpenFile>>, after: seq<Option<OpenFile>>, fd: nat, file: OpenFile)
  {
    && fd <= |before| && (forall i :: 0 <= i < fd ==> before[i].Some?)
    && if fd == |before| then after == before + [Some(file)] else before[fd].None? && after == before[fd := Some(file)]
  }

  /** The bytes and the offset a read draws from, or why it cannot. */
  function Source(entries: seq<Option<OpenFile>>, fd: nat, n: Node): (r: FdResult<(seq<byte>, nat)>)
  {
    if fd >= |entries| || entries[fd].None? then Failed(BadFd)
    else match entries[fd].value
      case Stdin(data, offset) => Done((data, offset))
      case OnFile(path, offset, flags) =>
        if !Has(flags, READ) then Failed(Permission)
        else (match Fs.ReadResult(n, path) case Ok(data) => Done((data, offset)) case Err(e) => Failed(OfFs(e)))
      case _ => Failed(Permission)
  }

  lemma BeforeIsLook(n: Node, path: string)
    ensures Writable(n, path) ==>
              var p := Fs.Locate(n, path).value;
              Before(n, path) == if Look(n, p).Some? then Look(n, p).value.data else []
  {
    Fs.ReadIsLook(n, path);
    if Fs.Locate(n, path).Ok? { LocateByLook(n, path, Fs.Locate(n, path).value); }
  }

  function NewContents(n: Node, path: string, offset: nat, flags: OpenFlags, buf: seq<byte>): (r: seq<byte>)
  {
    if Has(flags, APPEND) then Before(n, path) + buf else Overlay(Before(n, path), offset, buf)
  }

  /** What a write through a file descriptor does to the file system. */
  ghost predicate FileWritten(n: Node, n': Node, path: string, offset: nat, flags: OpenFlags, buf: seq<byte>, r: FdResult<nat>)
  {
    && (r.Done? <==> Has(flags, WRITE) && Writable(n, path))
    && (!Has(flags, WRITE) ==> r == Failed(Permission))
    && (Has(flags, WRITE) && r.Failed? ==> r == Failed(OfFs(WriteError(n, path))))
    && (r.Done? ==> r.value == |buf|)
    && (r.Done? ==> Fs.Updated(n, n', Fs.Locate(n, path).value, Some(AFile(NewContents(n, path, offset, flags, buf)))))
  }

  /** The file at `path` received `buf` at an offset, or at its end. */
  ghost predicate FilePatched(n: Node, n': Node, path: string, offset: Option<nat>, buf: seq<byte>)
  {
    && Fs.ReadResult(n', path).Ok?
    && var before := if Fs.ReadResult(n, path).Ok? then Fs.ReadResult(n, path).value else [];
    Patched(before, if offset.Some? then offset.value else |before|, buf, Fs.ReadResult(n', path).value)
  }

  lemma WrittenIsPatched(n: Node, n': Node, path: string, offset: nat, flags: OpenFlags, buf: seq<byte>, r: FdResult<nat>)
    requires FileWritten(n, n', path, offset, flags, buf, r) && r.Done?
    ensures FilePatched(n, n', path, if Has(flags, APPEND) then None else Some(offset), buf)
  {
    WrittenStays(n, n', path, NewContents(n, path, offset, flags, buf));
    OverlayPatches(Before(n, path), offset, buf);
    AppendPatches(Before(n, path), buf);
  }

  lemma ManyPatched(n: Node, n': Node, path: string, offset: nat, buf: seq<byte>)
    requires Overwritten(n, n', path, Overlay(Before(n, path), offset, buf))
    ensures FilePatched(n, n', path, Some(offset), buf)
  {
    OverlayPatches(Before(n, path), offset, buf);
  }
}
