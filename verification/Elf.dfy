/** Reading and building the kernel's ELF64 program images (System V gABI, chapters 4 and 5). */
module Elf {
  import opened Basics

  const ELF_HEADER_SIZE := 64
  const PROGRAM_HEADER_SIZE := 56
  const PT_LOAD := 1
  const ET_EXEC := 2
  const EM_X86_64 := 62
  const EV_CURRENT := 1
  const ENTRY_BASE := 0x40_0000
  const ENTRY_STRIDE := 0x1000
  const PAYLOAD_OFFSET := 120
  const USIZE_LIMIT := 0x1_0000_0000_0000_0000

  datatype ElfError = TooSmall | BadMagic | Unsupported | Truncated | MissingLoadSegment | UnknownProgram

  datatype ElfResult<+T> = Parsed(value: T) | Rejected(error: ElfError)

  datatype ProgramId = Shell | Ls | Rm | Mv | Cp | Touch | Cat | Echo | Sleep | Count

  function IdOf(p: ProgramId): (i: nat)
    ensures 1 <= i <= 10
  {
    match p
    case Shell => 1 case Ls => 2 case Rm => 3 case Mv => 4 case Cp => 5
    case Touch => 6 case Cat => 7 case Echo => 8 case Sleep => 9 case Count => 10
  }

  const ALL := [Shell, Ls, Rm, Mv, Cp, Touch, Cat, Echo, Sleep, Count]

  function EntryAddr(p: ProgramId): (e: nat) { ENTRY_BASE + IdOf(p) * ENTRY_STRIDE }

  function FromEntry(entry: nat): (r: Option<ProgramId>)
  {
    if entry < ENTRY_BASE || (entry - ENTRY_BASE) % ENTRY_STRIDE != 0 then None
    else
      var id := (entry - ENTRY_BASE) / ENTRY_STRIDE;
      if 1 <= id <= 10 then Some(ALL[id - 1]) else None
  }

  /** Entry addresses identify programs, and nothing else is an entry address. */
  lemma EntryRoundTrip(entry: nat, p: ProgramId)
    ensures FromEntry(entry) == Some(p) <==> entry == EntryAddr(p)
  {
    assert EntryAddr(p) - ENTRY_BASE == IdOf(p) * ENTRY_STRIDE;
    assert IdOf(p) * ENTRY_STRIDE / ENTRY_STRIDE == IdOf(p);
    assert forall i :: 0 <= i < 10 ==> IdOf(ALL[i]) == i + 1;
  }

  // ---- little-endian numbers ------------------------------------------------------------

  function LE(v: nat, n: nat): (r: seq<byte>)
    ensures |r| == n
    decreases n
  {
    if n == 0 then [] else [v % 256] + LE(v / 256, n - 1)
  }

  function FromLE(bs: seq<byte>): (v: nat)
  {
    if bs == [] then 0 else bs[0] + 256 * FromLE(bs[1..])
  }

  function Pow256(n: nat): (r: nat) { if n == 0 then 1 else 256 * Pow256(n - 1) }

  lemma {:induction false} LittleEndianRoundTrip(v: nat, n: nat)
    requires v < Pow256(n)
    ensures FromLE(LE(v, n)) == v
    decreases n
  {
    if n > 0 {
      LittleEndianRoundTrip(v / 256, n - 1);
      assert LE(v, n)[1..] == LE(v / 256, n - 1);
    }
  }

  /** Later bytes weigh more: the byte after `n` others counts `256^n` times. */
  lemma {:induction false} FromLEAppend(bs: seq<byte>, b: byte)
    ensures FromLE(bs + [b]) == FromLE(bs) + Pow256(|bs|) * b
  {
    if bs == [] {
      assert bs + [b] == [b] && [b][1..] == [];
    } else {
      assert (bs + [b])[1..] == bs[1..] + [b];
      FromLEAppend(bs[1..], b);
      assert 256 * (Pow256(|bs| - 1) * b) == Pow256(|bs|) * b;
    }
  }

  /** `image.get(offset..offset + n)`, decoded. */
  function ReadUint(image: seq<byte>, offset: nat, n: nat): (r: Option<nat>)
  {
    if offset + n <= |image| then Some(FromLE(image[offset..offset + n])) else None
  }

  // ---- parsing ----------------------------------------------------------------------------

  datatype LoadSegment = LoadSegment(offset: nat, virtAddr: nat, fileSize: nat, memSize: nat, flags: nat)

  datatype ParsedElf = ParsedElf(entry: nat, program: ProgramId, load: LoadSegment)

  predicate FieldIs(s: seq<byte>, offset: nat, n: nat, v: nat)
  {
    ReadUint(s, offset, n) == Some(v)
  }

  /** The checks on the file header, in the order the parser makes them. */
  function HeaderError(image: seq<byte>): (e: Option<ElfError>)
  {
    if |image| < ELF_HEADER_SIZE then Some(TooSmall)
    else if image[0..4] != [0x7f, 0x45, 0x4c, 0x46] then Some(BadMagic)
    else if image[4] != 2 || image[5] != 1 || image[6] != 1 then Some(Unsupported)
    else if !FieldIs(image, 16, 2, ET_EXEC) || !FieldIs(image, 18, 2, EM_X86_64) || !FieldIs(image, 20, 4, EV_CURRENT)
    then Some(Unsupported)
    else if !FieldIs(image, 52, 2, ELF_HEADER_SIZE) || !FieldIs(image, 54, 2, PROGRAM_HEADER_SIZE) || FieldIs(image, 56, 2, 0)
    then Some(Unsupported)
    else if FromEntry(FromLE(image[24..32])).None? then Some(UnknownProgram)
    else None
  }

  lemma Field2(s: seq<byte>, o: nat, v: nat)
    requires o + 2 <= |s|
    ensures var a: int, b: int := s[o], s[o + 1]; FieldIs(s, o, 2, v) <==> a + 256 * b == v
  {
    var bs := s[o..o + 2];
    assert bs == [s[o], s[o + 1]] && bs[1..] == [s[o + 1]];
    assert FromLE([s[o + 1]]) == s[o + 1];
  }

  lemma Field4(s: seq<byte>, o: nat, v: nat)
    requires o + 4 <= |s|
    ensures var a: int, b: int, c: int, d: int := s[o], s[o + 1], s[o + 2], s[o + 3];
            FieldIs(s, o, 4, v) <==> a + 256 * (b + 256 * (c + 256 * d)) == v
  {
    var bs := s[o..o + 4];
    var c: int, d: int := s[o + 2], s[o + 3];
    assert bs[1..][1..] == s[o + 2..o + 4] && bs[0] == s[o] && bs[1..][0] == s[o + 1];
    Field2(s, o + 2, c + 256 * d);
    assert FromLE(bs) == bs[0] + 256 * FromLE(bs[1..]);
  }

  /** The file starts with the ELF magic. */
  predicate HasMagic(image: seq<byte>)
  {
    |image| >= 64 && image[0] == 0x7f && image[1] == 0x45 && image[2] == 0x4c && image[3] == 0x46
  }

  /** 64-bit, little-endian, version 1; executable for x86-64, version 1; 64-byte header, 56-byte program headers, some of them. */
  predicate Supported(image: seq<byte>)
    requires |image| >= 64
  {
    && image[4] == 2 && image[5] == 1 && image[6] == 1
    && image[16] == 2 && image[17] == 0 && image[18] == 62 && image[19] == 0
    && image[20] == 1 && image[21] == 0 && image[22] == 0 && image[23] == 0
    && image[52] == 64 && image[53] == 0 && image[54] == 56 && image[55] == 0
    && (image[56] != 0 || image[57] != 0)
  }

  /** One of the ten entry addresses. */
  predicate KnownEntry(entry: nat)
  {
    0x40_1000 <= entry <= 0x40_A000 && entry % 0x1000 == 0
  }

  /** The header passes all checks. */
  predicate Accepted(image: seq<byte>)
  {
    HasMagic(image) && Supported(image) && KnownEntry(FromLE(image[24..32]))
  }

  /** What the header checks refuse, byte by byte. */
  lemma HeaderErrorIs(image: seq<byte>)
    ensures HeaderError(image) ==
              if |image| < 64 then Some(TooSmall)
              else if !HasMagic(image) then Some(BadMagic)
              else if !Supported(image) then Some(Unsupported)
              else if !KnownEntry(FromLE(image[24..32])) then Some(UnknownProgram)
              else None
  {
    if |image| >= 64 {
      assert image[0..4] == [image[0], image[1], image[2], image[3]];
      HeaderNumbers(image);
      EntriesKnown(FromLE(image[24..32]));
    }
  }

  lemma HeaderNumbers(image: seq<byte>)
    requires |image| >= 64
    ensures FieldIs(image, 16, 2, ET_EXEC) <==> image[16] == 2 && image[17] == 0
    ensures FieldIs(image, 18, 2, EM_X86_64) <==> image[18] == 62 && image[19] == 0
    ensures FieldIs(image, 20, 4, EV_CURRENT) <==> image[20] == 1 && image[21] == 0 && image[22] == 0 && image[23] == 0
    ensures FieldIs(image, 52, 2, ELF_HEADER_SIZE) <==> image[52] == 64 && image[53] == 0
    ensures FieldIs(image, 54, 2, PROGRAM_HEADER_SIZE) <==> image[54] == 56 && image[55] == 0
    ensures FieldIs(image, 56, 2, 0) <==> image[56] == 0 && image[57] == 0
  {
    Field2(image, 16, ET_EXEC);
    Field2(image, 18, EM_X86_64);
    Field4(image, 20, EV_CURRENT);
    Field2(image, 52, ELF_HEADER_SIZE);
    Field2(image, 54, PROGRAM_HEADER_SIZE);
    Field2(image, 56, 0);
  }

  lemma EntriesKnown(entry: nat)
    ensures FromEntry(entry).Some? <==> KnownEntry(entry)
    ensures EntryAddr(Shell) == 0x40_1000 && EntryAddr(Ls) == 0x40_2000 && EntryAddr(Rm) == 0x40_3000 && EntryAddr(Mv) == 0x40_4000
    ensures EntryAddr(Cp) == 0x40_5000 && EntryAddr(Touch) == 0x40_6000 && EntryAddr(Cat) == 0x40_7000 && EntryAddr(Echo) == 0x40_8000
    ensures EntryAddr(Sleep) == 0x40_9000 && EntryAddr(Count) == 0x40_A000
  {
  }

  /** Header `k` is the first that does not fit or describes a load segment; at `h` it starts. */
  ghost predicate StopsAt(image: seq<byte>, k: nat, h: nat)
    requires |image| >= 64
  {
    && k < FromLE(image[56..58]) && h == FromLE(image[32..40]) + 56 * k
    && (h + 56 <= |image| ==> FromLE(image[h..h + 4]) == 1)
    && forall j :: 0 <= j < k ==>
         var g := FromLE(image[32..40]) + 56 * j;
         g + 56 <= |image| && FromLE(image[g..g + 4]) != 1
  }

  /** The search stops at a header that does not fit, or at a segment that reaches past the image. */
  ghost predicate TruncatedAt(image: seq<byte>, k: nat, h: nat)
    requires |image| >= 64
  {
    StopsAt(image, k, h) && (h + 56 <= |image| ==> FromLE(image[h + 8..h + 16]) + FromLE(image[h + 32..h + 40]) > |image|)
  }

  /** The search stops at a segment inside the image whose file size exceeds its memory size. */
  ghost predicate TooBigAt(image: seq<byte>, k: nat, h: nat)
    requires |image| >= 64
  {
    && StopsAt(image, k, h) && h + 56 <= |image|
    && FromLE(image[h + 8..h + 16]) + FromLE(image[h + 32..h + 40]) <= |image|
    && FromLE(image[h + 32..h + 40]) > FromLE(image[h + 40..h + 48])
  }

  /** The search stops at the segment `s`, which lies in the image and fits its memory size. */
  ghost predicate Loads(image: seq<byte>, k: nat, h: nat, s: LoadSegment)
    requires |image| >= 64
  {
    && StopsAt(image, k, h) && h + 56 <= |image|
    && s.flags == FromLE(image[h + 4..h + 8]) && s.offset == FromLE(image[h + 8..h + 16]) && s.virtAddr == FromLE(image[h + 16..h + 24])
    && s.fileSize == FromLE(image[h + 32..h + 40]) && s.memSize == FromLE(image[h + 40..h + 48])
    && s.offset + s.fileSize <= |image| && s.fileSize <= s.memSize
  }

  /** The search stops at most once, so at most one of the outcomes can apply. */
  lemma StopsOnce(image: seq<byte>, j: nat, g: nat, k: nat, h: nat)
    requires |image| >= 64 && StopsAt(image, j, g) && StopsAt(image, k, h)
    ensures j == k && g == h
  {
  }

  /** Some header, or the first load segment, does not lie in the image. */
  ghost predicate IsTruncated(image: seq<byte>)
    requires |image| >= 64
  {
    exists k: nat, h: nat :: TruncatedAt(image, k, h)
  }

  /** The first load segment lies in the image but exceeds its memory size. */
  ghost predicate IsTooBig(image: seq<byte>)
    requires |image| >= 64
  {
    exists k: nat, h: nat :: TooBigAt(image, k, h)
  }

  /** All headers lie in the image, and none describes a load segment. */
  ghost predicate HasNoLoad(image: seq<byte>)
    requires |image| >= 64
  {
    forall k: nat, h: nat :: !StopsAt(image, k, h)
  }

  /** `s` is the first load segment; it lies in the image and fits its memory size. */
  ghost predicate LoadIs(image: seq<byte>, s: LoadSegment)
    requires |image| >= 64
  {
    exists k: nat, h: nat :: Loads(image, k, h, s)
  }

  /** Where the search for a load header ended, and with what. */
  ghost predicate Ended(image: seq<byte>, r: ElfResult<LoadSegment>, k: nat, h: nat)
    requires |image| >= 64
  {
    match r
    case Parsed(s) => Loads(image, k, h, s)
    case Rejected(e) =>
      || (e == Truncated && TruncatedAt(image, k, h))
      || (e == Unsupported && TooBigAt(image, k, h))
      || (e == MissingLoadSegment && HasNoLoad(image))
  }

  /** Each outcome of the search has its exact condition. */
  lemma EndedIff(image: seq<byte>, r: ElfResult<LoadSegment>, k: nat, h: nat)
    requires |image| >= 64 && Ended(image, r, k, h)
    ensures r == Rejected(Truncated) <==> IsTruncated(image)
    ensures r == Rejected(Unsupported) <==> IsTooBig(image)
    ensures r == Rejected(MissingLoadSegment) <==> HasNoLoad(image)
    ensures forall s :: r == Parsed(s) <==> LoadIs(image, s)
  {
    forall j: nat, g: nat | StopsAt(image, j, g)
      ensures StopsAt(image, k, h) ==> j == k && g == h
    {
      if StopsAt(image, k, h) { StopsOnce(image, j, g, k, h); }
    }
  }

  /** There is at most one first load segment. */
  lemma LoadIsOne(image: seq<byte>, s: LoadSegment)
    requires |image| >= 64 && LoadIs(image, s)
    ensures forall t :: LoadIs(image, t) ==> t == s
  {
    var k: nat, h: nat :| Loads(image, k, h, s);
    forall t | LoadIs(image, t) ensures t == s {
      var j: nat, g: nat :| Loads(image, j, g, t);
      StopsOnce(image, j, g, k, h);
    }
  }

  /** The program header loop: the first load header decides, if all headers before it fit. */
  method FirstSegment(image: seq<byte>) returns (r: ElfResult<LoadSegment>, ghost k: nat, ghost h: nat)
    requires |image| >= 64 && FieldIs(image, 54, 2, PROGRAM_HEADER_SIZE)
    ensures Ended(image, r, k, h)
  {
    k, h := 0, 0;
    var phoff, phentsize, phnum := FromLE(image[32..40]), FromLE(image[54..56]), FromLE(image[56..58]);
    for index := 0 to phnum
      invariant forall j :: 0 <= j < index ==>
                  var g := phoff + 56 * j;
                  g + 56 <= |image| && FromLE(image[g..g + 4]) != 1
    {
      var offset := phoff + index * phentsize;
      k, h := index, offset;
      if offset + PROGRAM_HEADER_SIZE > |image| {
        return Rejected(Truncated), k, h;
      }
      if FromLE(image[offset..offset + 4]) == PT_LOAD {
        var s := LoadSegment(FromLE(image[offset + 8..offset + 16]), FromLE(image[offset + 16..offset + 24]),
                             FromLE(image[offset + 32..offset + 40]), FromLE(image[offset + 40..offset + 48]),
                             FromLE(image[offset + 4..offset + 8]));
        if s.offset + s.fileSize > |image| {
          return Rejected(Truncated), k, h;
        }
        if s.memSize < s.fileSize {
          return Rejected(Unsupported), k, h;
        }
        return Parsed(s), k, h;
      }
    }
    return Rejected(MissingLoadSegment), k, h;
  }

  /** The first load header decides, once the file header has passed all checks. */
  method Parse(image: seq<byte>) returns (r: ElfResult<ParsedElf>)
    ensures r == Rejected(TooSmall) <==> |image| < 64
    ensures r == Rejected(BadMagic) <==> |image| >= 64 && !HasMagic(image)
    ensures r == Rejected(UnknownProgram) <==> HasMagic(image) && Supported(image) && !KnownEntry(FromLE(image[24..32]))
    ensures r == Rejected(Unsupported) <==>
              HasMagic(image) && (!Supported(image) || (Accepted(image) && IsTooBig(image)))
    ensures r == Rejected(Truncated) <==> Accepted(image) && IsTruncated(image)
    ensures r == Rejected(MissingLoadSegment) <==> Accepted(image) && HasNoLoad(image)
    ensures r.Parsed? ==> Accepted(image) && r.value.entry == FromLE(image[24..32]) == EntryAddr(r.value.program)
    ensures r.Parsed? ==> LoadIs(image, r.value.load)
    ensures Accepted(image) && (exists s :: LoadIs(image, s)) ==> r.Parsed?
  {
    HeaderErrorIs(image);
    var bad := HeaderError(image);
    if bad.Some? {
      return Rejected(bad.value);
    }
    var entry := FromLE(image[24..32]);
    var program := FromEntry(entry).value;
    EntryRoundTrip(entry, program);
    var load, k, h := FirstSegment(image);
    EndedIff(image, load, k, h);
    match load {
      case Rejected(e) => return Rejected(e);
      case Parsed(s) => return Parsed(ParsedElf(entry, program, s));
    }
  }

  // ---- building ------------------------------------------------------------------------------

  /** Every field that could be read still reads the same. */
  ghost predicate KeepsFields(s: seq<byte>, t: seq<byte>)
  {
    forall o: nat, n: nat, v: nat {:trigger FieldIs(t, o, n, v)} :: FieldIs(s, o, n, v) ==> FieldIs(t, o, n, v)
  }

  lemma AppendKeeps(s: seq<byte>, t: seq<byte>)
    ensures KeepsFields(s, s + t)
  {
    forall o: nat, n: nat, v: nat | FieldIs(s, o, n, v) ensures FieldIs(s + t, o, n, v) {
      assert (s + t)[o..o + n] == s[o..o + n];
    }
  }

  lemma AppendField(s: seq<byte>, v: nat, n: nat)
    requires v < Pow256(n)
    ensures FieldIs(s + LE(v, n), |s|, n, v) && KeepsFields(s, s + LE(v, n))
  {
    assert (s + LE(v, n))[|s|..|s| + n] == LE(v, n);
    LittleEndianRoundTrip(v, n);
    AppendKeeps(s, LE(v, n));
  }

  lemma {:induction false} ZeroIsZeros(n: nat)
    ensures LE(0, n) == Zeros(n)
    decreases n
  {
    if n > 0 { ZeroIsZeros(n - 1); }
  }

  /** `done` written, zeros up to the end of the buffer. */
  ghost predicate Written(image: seq<byte>, done: seq<byte>)
  {
    |done| <= |image| && image == done + Zeros(|image| - |done|)
  }

  /** The little-endian bytes of `v` at `offset`, in place. */
  method WriteLE(image: array<byte>, offset: nat, v: nat, n: nat)
    requires offset + n <= image.Length
    modifies image
    ensures image[..] == old(image[..offset]) + LE(v, n) + old(image[offset + n..])
  {
    var bs := LE(v, n);
    ghost var s := image[..];
    for i := 0 to n
      invariant image[..] == s[..offset] + bs[..i] + s[offset + i..]
    {
      image[offset + i] := bs[i];
    }
  }

  /** Write the next field after `done`. */
  method Emit(image: array<byte>, offset: nat, v: nat, n: nat, ghost done: seq<byte>) returns (ghost done': seq<byte>)
    requires Written(image[..], done) && offset == |done| && offset + n <= image.Length && v < Pow256(n)
    modifies image
    ensures Written(image[..], done') && |done'| == offset + n
    ensures FieldIs(done', offset, n, v) && KeepsFields(done, done') && done <= done'
  {
    done' := done + LE(v, n);
    AppendField(done, v, n);
    WriteLE(image, offset, v, n);
  }

  /** The identification bytes, the rest of the sixteen being zero. */
  predicate IdentFields(s: seq<byte>)
  {
    |s| >= 16 && s[0..16] == [0x7f, 0x45, 0x4c, 0x46, 2, 1, 1, 0, 0, 0, 0, 0, 0, 0, 0, 0]
  }

  /** The fields of the file header before its flags: type, machine, version, entry, program and section header offsets. */
  predicate EarlyFields(s: seq<byte>, entry: nat)
  {
    && FieldIs(s, 16, 2, 2) && FieldIs(s, 18, 2, 62) && FieldIs(s, 20, 4, 1)
    && FieldIs(s, 24, 8, entry) && FieldIs(s, 32, 8, 64) && FieldIs(s, 40, 8, 0)
  }

  /** The fields of the file header: flags, its size, size and number of program headers, no section headers. */
  predicate FileFields(s: seq<byte>, entry: nat)
  {
    && |s| >= 64 && EarlyFields(s, entry)
    && FieldIs(s, 48, 4, 0) && FieldIs(s, 52, 2, 64) && FieldIs(s, 54, 2, 56) && FieldIs(s, 56, 2, 1)
    && FieldIs(s, 58, 2, 0) && FieldIs(s, 60, 2, 0) && FieldIs(s, 62, 2, 0)
  }

  /** The program header: a readable and executable load segment of `len` bytes at 120, loaded at the entry, page-aligned. */
  predicate ProgramFields(s: seq<byte>, entry: nat, len: nat)
  {
    && FieldIs(s, 64, 4, 1) && FieldIs(s, 68, 4, 5) && FieldIs(s, 72, 8, 120) && FieldIs(s, 80, 8, entry)
    && FieldIs(s, 88, 8, entry) && FieldIs(s, 96, 8, len) && FieldIs(s, 104, 8, len) && FieldIs(s, 112, 8, 0x1000)
  }

  /** All that comes before the payload. */
  predicate ImageFields(s: seq<byte>, entry: nat, len: nat)
  {
    |s| == PAYLOAD_OFFSET + len && IdentFields(s) && FileFields(s, entry) && ProgramFields(s, entry, len)
  }

  /** The image of a program around a payload. */
  method BuildImage(program: ProgramId, payload: seq<byte>) returns (image: array<byte>)
    requires |payload| < USIZE_LIMIT
    ensures fresh(image) && ImageFields(image[..], EntryAddr(program), |payload|)
    ensures image[..][PAYLOAD_OFFSET..] == payload
  {
    image := new byte[PAYLOAD_OFFSET + |payload|](_ => 0);
    var entry := EntryAddr(program);
    ghost var ident := WriteIdent(image);
    ghost var head := WriteFileHeader(image, entry, ident);
    head := WriteProgramHeader(image, entry, |payload|, head);
    CopyPayload(image, payload, head);
    AppendKeeps(head, payload);
    IdentStays(ident, head, payload);
  }

  /** The identification bytes; the rest of the first sixteen stay zero. */
  method WriteIdent(image: array<byte>) returns (ghost ident: seq<byte>)
    requires image.Length >= PAYLOAD_OFFSET && image[..] == Zeros(image.Length)
    modifies image
    ensures |ident| == 16 && Written(image[..], ident) && IdentFields(ident)
  {
    image[0], image[1], image[2], image[3] := 0x7f, 0x45, 0x4c, 0x46;
    image[4] := 2;
    image[5] := 1;
    image[6] := 1;
    image[7] := 0;
    ident := image[..16];
    assert ident == [0x7f, 0x45, 0x4c, 0x46, 2, 1, 1, 0, 0, 0, 0, 0, 0, 0, 0, 0];
    assert image[..] == ident + Zeros(image.Length - 16);
  }

  method CopyPayload(image: array<byte>, payload: seq<byte>, ghost head: seq<byte>)
    requires image.Length == PAYLOAD_OFFSET + |payload| && |head| == PAYLOAD_OFFSET && Written(image[..], head)
    modifies image
    ensures image[..] == head + payload
  {
    for i := 0 to |payload|
      invariant image[..PAYLOAD_OFFSET] == head && image[PAYLOAD_OFFSET..PAYLOAD_OFFSET + i] == payload[..i]
    {
      image[PAYLOAD_OFFSET + i] := payload[i];
    }
    assert image[..] == image[..PAYLOAD_OFFSET] + image[PAYLOAD_OFFSET..PAYLOAD_OFFSET + |payload|];
  }

  lemma IdentStays(ident: seq<byte>, head: seq<byte>, payload: seq<byte>)
    requires |ident| == 16 && ident <= head && |head| == PAYLOAD_OFFSET
    ensures var s := head + payload; s[0..16] == ident && s[PAYLOAD_OFFSET..] == payload
  {
    assert head[0..16] == ident;
  }

  method WriteFileHeader(image: array<byte>, entry: nat, ghost done0: seq<byte>) returns (ghost done: seq<byte>)
    requires image.Length >= PAYLOAD_OFFSET && |done0| == 16 && Written(image[..], done0) && entry < 0x1_0000_0000
    modifies image
    ensures Written(image[..], done) && |done| == ELF_HEADER_SIZE && done0 <= done && FileFields(done, entry)
  {
    Widths();
    done := WriteEarlyFields(image, entry, done0);
    done := EmitZeros(image, done);
    done := Emit(image, 52, ELF_HEADER_SIZE, 2, done);
    done := Emit(image, 54, PROGRAM_HEADER_SIZE, 2, done);
    done := Emit(image, 56, 1, 2, done);
    done := Emit(image, 58, 0, 2, done);
    done := Emit(image, 60, 0, 2, done);
    done := Emit(image, 62, 0, 2, done);
  }

  method WriteEarlyFields(image: array<byte>, entry: nat, ghost done0: seq<byte>) returns (ghost done: seq<byte>)
    requires image.Length >= PAYLOAD_OFFSET && |done0| == 16 && Written(image[..], done0) && entry < 0x1_0000_0000
    modifies image
    ensures Written(image[..], done) && |done| == 48 && done0 <= done && EarlyFields(done, entry)
  {
    Widths();
    done := Emit(image, 16, ET_EXEC, 2, done0);
    done := Emit(image, 18, EM_X86_64, 2, done);
    done := Emit(image, 20, EV_CURRENT, 4, done);
    done := Emit(image, 24, entry, 8, done);
    done := Emit(image, 32, ELF_HEADER_SIZE, 8, done);
    done := Emit(image, 40, 0, 8, done);
  }

  /**
    The eight zero bytes at 48 reach over the next two fields; they are still zero
    then, so only the four flag bytes count as written.
  */
  method EmitZeros(image: array<byte>, ghost done: seq<byte>) returns (ghost done': seq<byte>)
    requires image.Length >= PAYLOAD_OFFSET && |done| == 48 && Written(image[..], done)
    modifies image
    ensures Written(image[..], done') && |done'| == 52 && done <= done' && KeepsFields(done, done') && FieldIs(done', 48, 4, 0)
  {
    ZeroIsZeros(8);
    ZeroIsZeros(4);
    Widths();
    done' := done + Zeros(4);
    AppendField(done, 0, 4);
    WriteLE(image, 48, 0, 8);
  }

  method WriteProgramHeader(image: array<byte>, entry: nat, len: nat, ghost done0: seq<byte>) returns (ghost done: seq<byte>)
    requires image.Length >= PAYLOAD_OFFSET && |done0| == ELF_HEADER_SIZE && Written(image[..], done0)
    requires entry < 0x1_0000_0000 && len < USIZE_LIMIT && FileFields(done0, entry)
    modifies image
    ensures Written(image[..], done) && |done| == PAYLOAD_OFFSET && done0 <= done && FileFields(done, entry)
    ensures ProgramFields(done, entry, len)
  {
    Widths();
    done := Emit(image, 64, PT_LOAD, 4, done0);
    done := Emit(image, 68, 5, 4, done);
    done := Emit(image, 72, PAYLOAD_OFFSET, 8, done);
    done := Emit(image, 80, entry, 8, done);
    done := Emit(image, 88, entry, 8, done);
    done := Emit(image, 96, len, 8, done);
    done := Emit(image, 104, len, 8, done);
    done := Emit(image, 112, 0x1000, 8, done);
  }

  lemma Widths()
    ensures Pow256(2) == 0x1_0000 && Pow256(4) == 0x1_0000_0000 && Pow256(8) == USIZE_LIMIT
  {
    assert Pow256(2) == 0x1_0000;
    assert Pow256(4) == 0x1_0000_0000;
    assert Pow256(6) == 0x1_0000_0000_0000;
  }

  /** Parsing a built image recovers the program and exactly its payload. */
  method BuildThenParse(program: ProgramId, payload: seq<byte>) returns (r: ElfResult<ParsedElf>, ghost bytes: seq<byte>)
    requires |payload| < USIZE_LIMIT
    ensures r.Parsed? && r.value.program == program && r.value.entry == EntryAddr(program)
    ensures r.value.load == LoadSegment(PAYLOAD_OFFSET, EntryAddr(program), |payload|, |payload|, 5)
    ensures |bytes| == PAYLOAD_OFFSET + |payload| && bytes[r.value.load.offset..r.value.load.offset + r.value.load.fileSize] == payload
  {
    var image := BuildImage(program, payload);
    bytes := image[..];
    BuiltParses(bytes, program, |payload|);
    ToTheEnd(bytes, PAYLOAD_OFFSET, payload);
    r := ParseKnown(image[..], program, LoadSegment(PAYLOAD_OFFSET, EntryAddr(program), |payload|, |payload|, 5));
  }

  lemma ToTheEnd(bytes: seq<byte>, offset: nat, payload: seq<byte>)
    requires |bytes| == offset + |payload| && bytes[offset..] == payload
    ensures bytes[offset..offset + |payload|] == payload
  {
  }

  /** An accepted image whose load segment is known parses to it. */
  method ParseKnown(image: seq<byte>, ghost program: ProgramId, ghost load: LoadSegment) returns (r: ElfResult<ParsedElf>)
    requires Accepted(image) && FromLE(image[24..32]) == EntryAddr(program) && LoadIs(image, load)
    ensures r == Parsed(ParsedElf(EntryAddr(program), program, load))
  {
    LoadIsOne(image, load);
    r := Parse(image);
    EntryRoundTrip(EntryAddr(program), program);
    EntryRoundTrip(EntryAddr(program), r.value.program);
  }

  /** Every image with the builder's fields passes all checks and describes the payload. */
  lemma BuiltParses(s: seq<byte>, program: ProgramId, len: nat)
    requires ImageFields(s, EntryAddr(program), len)
    ensures Accepted(s) && FromLE(s[24..32]) == EntryAddr(program)
    ensures LoadIs(s, LoadSegment(PAYLOAD_OFFSET, EntryAddr(program), len, len, 5))
  {
    BuiltAccepted(s, program);
    BuiltLoads(s, EntryAddr(program), len);
  }

  lemma BuiltAccepted(s: seq<byte>, program: ProgramId)
    requires IdentFields(s) && FileFields(s, EntryAddr(program))
    ensures Accepted(s) && FromLE(s[24..32]) == EntryAddr(program)
  {
    IdentBytes(s);
    HeaderNumbers(s);
    EntryRoundTrip(EntryAddr(program), program);
    EntriesKnown(EntryAddr(program));
  }

  lemma IdentBytes(s: seq<byte>)
    requires IdentFields(s)
    ensures s[0] == 0x7f && s[1] == 0x45 && s[2] == 0x4c && s[3] == 0x46 && s[4] == 2 && s[5] == 1 && s[6] == 1
  {
    assert forall i :: 0 <= i < 16 ==> s[0..16][i] == s[i];
  }

  lemma BuiltLoads(s: seq<byte>, entry: nat, len: nat)
    requires |s| == PAYLOAD_OFFSET + len && FieldIs(s, 32, 8, 64) && FieldIs(s, 56, 2, 1) && ProgramFields(s, entry, len)
    ensures LoadIs(s, LoadSegment(PAYLOAD_OFFSET, entry, len, len, 5))
  {
    assert Loads(s, 0, 64, LoadSegment(PAYLOAD_OFFSET, entry, len, len, 5));
  }

  // ---- the generated programs --------------------------------------------------------------

  function NameOf(p: ProgramId): (s: string)
    ensures 0 < |s| <= 5
  {
    match p
    case Shell => "shell" case Ls => "ls" case Rm => "rm" case Mv => "mv" case Cp => "cp"
    case Touch => "touch" case Cat => "cat" case Echo => "echo" case Sleep => "sleep" case Count => "count"
  }

  function BytesOf(s: string): (r: seq<byte>)
    ensures |r| == |s|
  {
    seq(|s|, i requires 0 <= i < |s| => (s[i] as int) % 256)
  }

  function Message(p: ProgramId): (r: seq<byte>) { BytesOf("exec /bin/" + NameOf(p) + " ok\r\n") }

  /** The instructions the generated programs are made of. */
  datatype Instruction =
    | MovEax(value: nat)
    | MovEdi(value: nat)
    | MovEdx(value: nat)
    | LeaRsi(displacement: nat)
    | Syscall
    | XorEdi
    | JmpSelf

  function Width(i: Instruction): (n: nat)
  {
    if i.MovEax? || i.MovEdi? || i.MovEdx? then 5 else if i.LeaRsi? then 7 else 2
  }

  /** The instruction at the front of the code. */
  function Decode(code: seq<byte>): (r: Option<Instruction>)
  {
    if |code| >= 5 && code[0] == 0xb8 then Some(MovEax(FromLE(code[1..5])))
    else if |code| >= 5 && code[0] == 0xbf then Some(MovEdi(FromLE(code[1..5])))
    else if |code| >= 5 && code[0] == 0xba then Some(MovEdx(FromLE(code[1..5])))
    else if |code| >= 7 && code[..3] == [0x48, 0x8d, 0x35] then Some(LeaRsi(FromLE(code[3..7])))
    else if |code| >= 2 && code[..2] == [0x0f, 0x05] then Some(Syscall)
    else if |code| >= 2 && code[..2] == [0x31, 0xff] then Some(XorEdi)
    else if |code| >= 2 && code[..2] == [0xeb, 0xfe] then Some(JmpSelf)
    else None
  }

  /** The code is these instructions, one after the other, followed by `data`. */
  predicate Runs(code: seq<byte>, program: seq<Instruction>, data: seq<byte>)
    decreases |program|
  {
    if program == [] then code == data
    else Decode(code) == Some(program[0]) && Width(program[0]) <= |code| && Runs(code[Width(program[0])..], program[1..], data)
  }

  /** Exit, and loop should the exit return. */
  const EXIT_PROGRAM := [MovEax(3)] + ([XorEdi] + ([Syscall] + ([JmpSelf] + [])))

  /** Write the message to standard output and exit. */
  function Program(length: nat, displacement: nat): (r: seq<Instruction>)
  {
    [MovEax(6)] + ([MovEdi(1)] + ([LeaRsi(displacement)] + ([MovEdx(length)] + ([Syscall] + EXIT_PROGRAM))))
  }

  /** The code decodes to the program, and the displacement of its `lea` (which ends at byte 17) leads to the message. */
  predicate CodeWith(code: seq<byte>, message: seq<byte>, displacement: nat)
  {
    && 17 + displacement <= |code| && code[17 + displacement..] == message
    && Runs(code, Program(|message|, displacement), message)
  }

  ghost predicate WritesAndExits(code: seq<byte>, message: seq<byte>)
  {
    exists displacement: nat :: CodeWith(code, message, displacement)
  }

  /** A mov with a 32-bit operand in front of code that runs. */
  lemma RunsMov(opcode: byte, v: nat, i: Instruction, code: seq<byte>, program: seq<Instruction>, data: seq<byte>)
    requires v < Pow256(4) && Runs(code, program, data)
    requires (opcode == 0xb8 && i == MovEax(v)) || (opcode == 0xbf && i == MovEdi(v)) || (opcode == 0xba && i == MovEdx(v))
    ensures Runs([opcode] + LE(v, 4) + code, [i] + program, data)
  {
    var c := [opcode] + LE(v, 4) + code;
    assert c[1..5] == LE(v, 4) && c[5..] == code;
    LittleEndianRoundTrip(v, 4);
    assert ([i] + program)[1..] == program;
  }

  lemma RunsLea(v: nat, code: seq<byte>, program: seq<Instruction>, data: seq<byte>)
    requires v < Pow256(4) && Runs(code, program, data)
    ensures Runs([0x48, 0x8d, 0x35] + LE(v, 4) + code, [LeaRsi(v)] + program, data)
  {
    var c := [0x48, 0x8d, 0x35] + LE(v, 4) + code;
    assert c[..3] == [0x48, 0x8d, 0x35] && c[3..7] == LE(v, 4) && c[7..] == code;
    LittleEndianRoundTrip(v, 4);
    assert ([LeaRsi(v)] + program)[1..] == program;
  }

  lemma RunsPlain(op: seq<byte>, i: Instruction, code: seq<byte>, program: seq<Instruction>, data: seq<byte>)
    requires (op == [0x0f, 0x05] && i == Syscall) || (op == [0x31, 0xff] && i == XorEdi) || (op == [0xeb, 0xfe] && i == JmpSelf)
    requires Runs(code, program, data)
    ensures Runs(op + code, [i] + program, data)
  {
    var c := op + code;
    assert c[..2] == op && c[2..] == code;
    assert ([i] + program)[1..] == program;
  }

  /**
    The machine code: it decodes to the program that writes the message and exits, the displacement
    of the `lea` (relative to its end at byte 17) leads exactly to the message after the code, and
    the length operand is the length of the message.
  */
  method UserProgramCode(p: ProgramId) returns (code: seq<byte>)
    ensures |code| < 100
    ensures WritesAndExits(code, Message(p))
  {
    var message := Message(p);
    var start := LoadArguments();
    var rest := CallsAndExit(|message|);
    code := start + [0, 0, 0, 0] + rest;
    var leaStart, leaNext, messageOffset := 10, 17, |code|;
    var displacement := messageOffset - leaNext;
    PatchedCode(start, rest, LE(displacement, 4));
    code := code[..leaStart + 3] + LE(displacement, 4) + code[leaStart + 7..];
    code := code + message;
    SameCode(start, LE(displacement, 4), rest, displacement, message);
    CodeRuns(displacement, |message|, message);
    assert CodeWith(code, message, displacement);
  }

  /** The code as put together piece by piece is the code as read instruction by instruction. */
  lemma SameCode(start: seq<byte>, disp: seq<byte>, rest: seq<byte>, displacement: nat, message: seq<byte>)
    requires start == [0xb8] + LE(6, 4) + ([0xbf] + LE(1, 4)) + [0x48, 0x8d, 0x35]
    requires disp == LE(displacement, 4) && rest == AfterLea(|message|) && |rest| == 18
    ensures start + disp + rest + message == Assembled(displacement, |message|, message)
    ensures |start + disp + rest| == 35 && (start + disp + rest + message)[35..] == message
  {
    Regroup6([0xba] + LE(|message|, 4), [0x0f, 0x05], [0xb8] + LE(3, 4), [0x31, 0xff], [0x0f, 0x05], [0xeb, 0xfe], message);
    Regroup4([0xb8] + LE(6, 4), [0xbf] + LE(1, 4), [0x48, 0x8d, 0x35], disp, rest, message);
  }

  lemma Regroup4(a: seq<byte>, b: seq<byte>, c: seq<byte>, d: seq<byte>, e: seq<byte>, m: seq<byte>)
    ensures a + b + c + d + e + m == a + (b + (c + d + (e + m)))
    ensures (a + b + c + d + e + m)[|a + b + c + d + e|..] == m
  {
  }

  lemma Regroup6(a: seq<byte>, b: seq<byte>, c: seq<byte>, d: seq<byte>, e: seq<byte>, f: seq<byte>, m: seq<byte>)
    ensures a + b + c + d + e + f + m == a + (b + (c + (d + (e + (f + m)))))
  {
    assert a + b + c + d + e + f + m == a + b + c + d + (e + (f + m));
  }

  /** Up to the operand of the `lea`: the write call number, the standard output, the opcode. */
  method LoadArguments() returns (code: seq<byte>)
    ensures code == [0xb8] + LE(6, 4) + ([0xbf] + LE(1, 4)) + [0x48, 0x8d, 0x35]
  {
    code := [0xb8] + LE(6, 4);
    code := code + ([0xbf] + LE(1, 4));
    code := code + [0x48, 0x8d, 0x35];
  }

  /** The instructions after the `lea`: length operand, write call, exit call, endless loop. */
  method CallsAndExit(len: nat) returns (code: seq<byte>)
    ensures code == AfterLea(len) && |code| == 18
  {
    code := [0xba] + LE(len, 4);
    code := code + [0x0f, 0x05];
    code := code + ([0xb8] + LE(3, 4));
    code := code + [0x31, 0xff];
    code := code + [0x0f, 0x05];
    code := code + [0xeb, 0xfe];
  }

  function AfterLea(len: nat): (r: seq<byte>)
  {
    [0xba] + LE(len, 4) + [0x0f, 0x05] + ([0xb8] + LE(3, 4)) + [0x31, 0xff] + [0x0f, 0x05] + [0xeb, 0xfe]
  }

  lemma PatchedCode(start: seq<byte>, rest: seq<byte>, disp: seq<byte>)
    requires |start| == 13 && |disp| == 4
    ensures var code := start + [0, 0, 0, 0] + rest;
            code[..13] + disp + code[17..] == start + disp + rest
  {
    var code := start + [0, 0, 0, 0] + rest;
    assert code[..13] == start && code[17..] == rest;
  }

  function ExitCode(message: seq<byte>): (r: seq<byte>)
  {
    [0xb8] + LE(3, 4) + ([0x31, 0xff] + ([0x0f, 0x05] + ([0xeb, 0xfe] + message)))
  }

  /** The whole code and the message after it, instruction by instruction. */
  function Assembled(displacement: nat, len: nat, message: seq<byte>): (r: seq<byte>)
  {
    [0xb8] + LE(6, 4) + ([0xbf] + LE(1, 4) + ([0x48, 0x8d, 0x35] + LE(displacement, 4) + TailCode(len, message)))
  }

  function TailCode(len: nat, message: seq<byte>): (r: seq<byte>)
  {
    [0xba] + LE(len, 4) + ([0x0f, 0x05] + ExitCode(message))
  }

  lemma ExitRuns(message: seq<byte>)
    ensures Runs(ExitCode(message), EXIT_PROGRAM, message)
  {
    Widths();
    RunsPlain([0xeb, 0xfe], JmpSelf, message, [], message);
    var c3, p3 := [0xeb, 0xfe] + message, [JmpSelf] + [];
    RunsPlain([0x0f, 0x05], Syscall, c3, p3, message);
    var c2, p2 := [0x0f, 0x05] + c3, [Syscall] + p3;
    RunsPlain([0x31, 0xff], XorEdi, c2, p2, message);
    RunsMov(0xb8, 3, MovEax(3), [0x31, 0xff] + c2, [XorEdi] + p2, message);
  }

  lemma TailRuns(len: nat, message: seq<byte>)
    requires len < 0x1_0000_0000
    ensures Runs(TailCode(len, message), [MovEdx(len)] + ([Syscall] + EXIT_PROGRAM), message)
  {
    Widths();
    ExitRuns(message);
    var c, p := ExitCode(message), EXIT_PROGRAM;
    RunsPlain([0x0f, 0x05], Syscall, c, p, message);
    RunsMov(0xba, len, MovEdx(len), [0x0f, 0x05] + c, [Syscall] + p, message);
  }

  lemma CodeRuns(displacement: nat, len: nat, message: seq<byte>)
    requires displacement < 0x1_0000_0000 && len < 0x1_0000_0000
    ensures Runs(Assembled(displacement, len, message), Program(len, displacement), message)
  {
    TailRuns(len, message);
    HeadRuns(displacement, TailCode(len, message), [MovEdx(len)] + ([Syscall] + EXIT_PROGRAM), message);
  }

  lemma HeadRuns(displacement: nat, c: seq<byte>, p: seq<Instruction>, message: seq<byte>)
    requires displacement < 0x1_0000_0000 && Runs(c, p, message)
    ensures Runs([0xb8] + LE(6, 4) + ([0xbf] + LE(1, 4) + ([0x48, 0x8d, 0x35] + LE(displacement, 4) + c)),
                 [MovEax(6)] + ([MovEdi(1)] + ([LeaRsi(displacement)] + p)), message)
  {
    Widths();
    RunsLea(displacement, c, p, message);
    var c2, p2 := [0x48, 0x8d, 0x35] + LE(displacement, 4) + c, [LeaRsi(displacement)] + p;
    RunsMov(0xbf, 1, MovEdi(1), c2, p2, message);
    RunsMov(0xb8, 6, MovEax(6), [0xbf] + LE(1, 4) + c2, [MovEdi(1)] + p2, message);
  }

  /** The image the kernel installs for a program holds the parser's fields and the program's code. */
  method BuildProgramImage(p: ProgramId) returns (image: array<byte>)
    ensures fresh(image) && image.Length >= PAYLOAD_OFFSET
    ensures ImageFields(image[..], EntryAddr(p), image.Length - PAYLOAD_OFFSET)
    ensures var code := image[..][PAYLOAD_OFFSET..];
            WritesAndExits(code, Message(p))
  {
    var payload := UserProgramCode(p);
    image := BuildImage(p, payload);
  }
}
