/** Whole runs of the page mapper over any number of address spaces. */
module AddressSpaces {
  import opened Basics
  import opened PageTables
  import opened PageUpdates
  import opened PageMapper
  import Elf
  import PowersOfTwo
  import BG = BuddyGeometry
  import BL = BuddyLists
  import BS = BuddySpec
  import BR = BuddyRegion
  import AR = BuddyAreas
  import BA = BuddyAllocator

  /** Map a page in the address space with the given number, or create a new one from the kernel's. */
  datatype SpaceOp = OpMap(index: nat, call: Call) | OpCreate

  // ---- what a run means, without tables -----------------------------------------------

  /** The number of address spaces; the kernel's is number 0. */
  function Spaces(ops: seq<SpaceOp>): (n: nat)
    ensures n > 0
  {
    if ops == [] then 1
    else Spaces(ops[..|ops| - 1]) + if ops[|ops| - 1].OpCreate? then 1 else 0
  }

  /**
    Top-level slot `s` of space `k`: the number of the operation that first mapped something in it.
    A new space takes over the kernel's upper slots as they are, and starts with none of its own.
  */
  function Slot(ops: seq<SpaceOp>, k: nat, s: nat): (r: Option<nat>)
    ensures r.Some? ==> r.value < |ops|
    decreases |ops|
  {
    if ops == [] then None
    else
      var before := ops[..|ops| - 1];
      match ops[|ops| - 1]
      case OpCreate =>
        if k != Spaces(before) then Slot(before, k, s)
        else if s < KERNEL_HALF then None
        else Slot(before, 0, s)
      case OpMap(i, c) =>
        if i == k && i < Spaces(before) && PageOf(c.virt).i4 == s && Slot(before, k, s).None? then Some(|ops| - 1)
        else Slot(before, k, s)
  }

  /** Spaces `j` and `k` see the same tables below slot `s`. */
  predicate SameSlot(ops: seq<SpaceOp>, j: nat, k: nat, s: nat)
  {
    j == k || (Slot(ops, j, s).Some? && Slot(ops, j, s) == Slot(ops, k, s))
  }

  function LeafOf(c: Call): (e: Entry) { SetAddr(c.phys, Union(c.flags, PRESENT)) }

  /** What space `k` sees at page `v`: the last mapping of `v` made through any space sharing the slot. */
  function Seen(ops: seq<SpaceOp>, k: nat, v: VPage): (r: Option<Entry>)
    decreases |ops|
  {
    if ops == [] then None
    else
      var before := ops[..|ops| - 1];
      match ops[|ops| - 1]
      case OpCreate =>
        if k != Spaces(before) then Seen(before, k, v)
        else if v.i4 < KERNEL_HALF then None
        else Seen(before, 0, v)
      case OpMap(i, c) =>
        if i < Spaces(before) && PageOf(c.virt) == v && SameSlot(before, i, k, v.i4) then Some(LeafOf(c))
        else Seen(before, k, v)
  }

  /** The calls made on space `k` itself. */
  function OwnCalls(ops: seq<SpaceOp>, k: nat): (calls: seq<Call>)
  {
    if ops == [] then []
    else
      var before := ops[..|ops| - 1];
      match ops[|ops| - 1]
      case OpCreate => OwnCalls(before, k)
      case OpMap(i, c) => OwnCalls(before, k) + if i == k && i < Spaces(before) then [c] else []
  }

  /** A slot below the kernel half is never shared. */
  lemma {:induction false} LowSlotsPrivate(ops: seq<SpaceOp>, j: nat, k: nat, s: nat)
    requires s < KERNEL_HALF && j != k
    ensures !SameSlot(ops, j, k, s)
    ensures k >= Spaces(ops) ==> Slot(ops, k, s) == None
    decreases |ops|
  {
    if ops != [] { LowSlotsPrivate(ops[..|ops| - 1], j, k, s); LowSlotsPrivate(ops[..|ops| - 1], k, j, s); }
  }

  lemma {:induction false} NoCallsYet(ops: seq<SpaceOp>, k: nat)
    requires k >= Spaces(ops)
    ensures OwnCalls(ops, k) == []
    decreases |ops|
  {
    if ops != [] { NoCallsYet(ops[..|ops| - 1], k); }
  }

  /** Below the kernel half, a space sees exactly the finite map of its own calls. */
  lemma {:induction false} LowerHalfIsOwn(ops: seq<SpaceOp>, k: nat, v: VPage)
    requires v.i4 < KERNEL_HALF
    ensures Seen(ops, k, v) == LastLeaf(OwnCalls(ops, k), v, None)
    decreases |ops|
  {
    if ops != [] {
      var before, op := ops[..|ops| - 1], ops[|ops| - 1];
      LowerHalfIsOwn(before, k, v);
      if op.OpCreate? {
        if k == Spaces(before) { NoCallsYet(before, k); }
      } else {
        if op.index != k { LowSlotsPrivate(before, op.index, k, v.i4); }
        LastLeafSnoc(OwnCalls(before, k), op.call, v);
        assert OwnCalls(before, k) + [] == OwnCalls(before, k);
      }
    }
  }

  lemma LastLeafSnoc(calls: seq<Call>, c: Call, v: VPage)
    ensures LastLeaf(calls + [c], v, None) == if PageOf(c.virt) == v then Some(LeafOf(c)) else LastLeaf(calls, v, None)
  {
    assert (calls + [c])[..|calls|] == calls;
  }

  /** A user leaf comes from a call of the space itself, as long as user pages are only asked for below the kernel half. */
  lemma {:induction false} UserLeafIsOwn(ops: seq<SpaceOp>, k: nat, v: VPage) returns (n: nat)
    requires AllUserLow(ops) && Seen(ops, k, v).Some? && HasUser(Seen(ops, k, v).value)
    ensures n < |ops| && ops[n].OpMap? && ops[n].index == k && PageOf(ops[n].call.virt) == v
    ensures Seen(ops, k, v) == Some(LeafOf(ops[n].call)) && Contains(ops[n].call.flags, USER)
    decreases |ops|
  {
    var before, op := ops[..|ops| - 1], ops[|ops| - 1];
    assert UserLow(op) && AllUserLow(before);
    if op.OpMap? && op.index < Spaces(before) && PageOf(op.call.virt) == v && SameSlot(before, op.index, k, v.i4) {
      LeafFlags(op.call.phys, op.call.flags);
      if op.index != k { LowSlotsPrivate(before, op.index, k, v.i4); }
      n := |ops| - 1;
    } else if op.OpCreate? && k == Spaces(before) {
      n := UserLeafIsOwn(before, 0, v);
      UserPageIsLow(before, n);
    } else {
      n := UserLeafIsOwn(before, k, v);
    }
  }

  lemma UserPageIsLow(ops: seq<SpaceOp>, n: nat)
    requires AllUserLow(ops) && n < |ops| && ops[n].OpMap? && Contains(ops[n].call.flags, USER)
    ensures PageOf(ops[n].call.virt).i4 < KERNEL_HALF
  {
    assert UserLow(ops[n]);
  }

  /** The load address of every program image the kernel builds lies below the kernel half, so spawning it keeps user rights closed. */
  lemma BuiltProgramsAreLow(p: Elf.ProgramId, k: nat, phys: nat, flags: Flags)
    ensures UserLow(OpMap(k, Call(Elf.EntryAddr(p), phys, flags)))
  {
    assert Elf.EntryAddr(p) < 0x80_0000_0000;
  }

  // ---- what the tables must agree with ---------------------------------------------------

  ghost predicate SeenAt(ts: Tables, root: nat, ops: seq<SpaceOp>, k: nat, v: VPage)
  {
    Leaf(ts, root, v) == Seen(ops, k, v)
  }

  /** Every address space translates every page as the run says. */
  ghost predicate SpacesRefine(ts: Tables, roots: seq<nat>, ops: seq<SpaceOp>)
  {
    |roots| == Spaces(ops) &&
    forall k, v {:trigger SeenAt(ts, roots[k], ops, k, v)} :: 0 <= k < |roots| && ValidPage(v) ==> SeenAt(ts, roots[k], ops, k, v)
  }

  function Top(ts: Tables, root: nat, s: nat): (r: Option<nat>) { Down(ts, Some(root), s) }

  ghost predicate SlotAt(ts: Tables, roots: seq<nat>, ops: seq<SpaceOp>, j: nat, k: nat, s: nat)
    requires j < |roots| && k < |roots|
  {
    && (Slot(ops, k, s).None? <==> Top(ts, roots[k], s).None?)
    && (Slot(ops, j, s).Some? && Slot(ops, k, s).Some? ==> (Slot(ops, j, s) == Slot(ops, k, s) <==> Top(ts, roots[j], s) == Top(ts, roots[k], s)))
  }

  /** Two spaces share a slot exactly if their top-level entries lead to the same table. */
  ghost predicate SlotsMatch(ts: Tables, roots: seq<nat>, ops: seq<SpaceOp>)
  {
    forall j: nat, k: nat, s: nat {:trigger SlotAt(ts, roots, ops, j, k, s)} ::
      j < |roots| && k < |roots| && s < ENTRIES ==> SlotAt(ts, roots, ops, j, k, s)
  }

  ghost predicate RootsOk(pos: map<nat, Pos>, roots: seq<nat>)
  {
    && |roots| > 0
    && (forall k :: 0 <= k < |roots| ==> IsRoot(pos, roots[k]))
    && (forall j, k :: 0 <= j < k < |roots| ==> roots[j] != roots[k])
  }

  /** User pages are only asked for below the kernel half. */
  predicate UserLow(op: SpaceOp)
  {
    op.OpMap? && Contains(op.call.flags, USER) ==> PageOf(op.call.virt).i4 < KERNEL_HALF
  }

  ghost predicate AllUserLow(ops: seq<SpaceOp>)
  {
    forall i :: 0 <= i < |ops| ==> UserLow(ops[i])
  }

  // ---- one mapping --------------------------------------------------------------------------

  /** Sharing a slot in the run is sharing the path in the tables. */
  lemma SameSlotIsShares(ts: Tables, roots: seq<nat>, ops: seq<SpaceOp>, i: nat, k: nat, page: VPage)
    requires SlotsMatch(ts, roots, ops) && i < |roots| && k < |roots| && i != k && ValidPage(page)
    ensures SameSlot(ops, i, k, page.i4) <==> Shares(ts, roots[k], roots[i], page)
  {
    assert SlotAt(ts, roots, ops, i, k, page.i4) && SlotAt(ts, roots, ops, k, i, page.i4);
  }

  /** One successful mapping, seen from all address spaces. */
  lemma MapRefines(ts: Tables, pos: map<nat, Pos>, ts': Tables, roots: seq<nat>, ops: seq<SpaceOp>, i: nat, c: Call)
    requires RootsOk(pos, roots) && SpacesRefine(ts, roots, ops) && SlotsMatch(ts, roots, ops) && i < |roots|
    requires SameElsewhere(ts, pos, ts', roots[i], PageOf(c.virt)) && SharersSee(ts, pos, ts', roots[i], PageOf(c.virt))
    requires Leaf(ts', roots[i], PageOf(c.virt)) == Some(LeafOf(c))
    ensures SpacesRefine(ts', roots, ops + [OpMap(i, c)])
  {
    var ops', page := ops + [OpMap(i, c)], PageOf(c.virt);
    assert ops'[..|ops|] == ops;
    forall k, v | 0 <= k < |roots| && ValidPage(v) ensures SeenAt(ts', roots[k], ops', k, v) {
      assert SeenAt(ts, roots[k], ops, k, v);
      if v != page {
        assert SameAt(ts, ts', roots[k], v);
      } else if k != i {
        SameSlotIsShares(ts, roots, ops, i, k, page);
        if !Shares(ts, roots[k], roots[i], page) { assert SameAt(ts, ts', roots[k], v); }
      }
    }
  }

  /** How one mapping changes the top-level entry of space `k` at slot `s`. */
  lemma TopAfterMap(ts: Tables, pos: map<nat, Pos>, ts': Tables, roots: seq<nat>, i: nat, c: Call, k: nat, s: nat)
    requires Forest(ts, pos) && RootsOk(pos, roots) && i < |roots| && k < |roots| && s < ENTRIES
    requires TopsLinked(ts, pos, ts', roots[i], PageOf(c.virt), TableFlags(c.flags))
    ensures Top(ts, roots[k], s).Some? ==> Top(ts, roots[k], s).value in ts
    ensures if k == i && s == PageOf(c.virt).i4 && Top(ts, roots[k], s).None?
            then Top(ts', roots[k], s).Some? && Top(ts', roots[k], s).value !in ts
            else Top(ts', roots[k], s) == Top(ts, roots[k], s)
  {
    DownPos(ts, pos, roots[k], s);
    var page := PageOf(c.virt);
    LeafFlags(c.phys, c.flags);
    if k == i {
      if s != page.i4 {
        assert SlotKept(ts, ts', roots[i], s);
      } else {
        FlagFacts(ts[roots[i]][s], TableFlags(c.flags));
        if !IsPresent(ts[roots[i]][s]) { TableFlagsPresent(ts'[roots[i]][s], TableFlags(c.flags)); }
      }
    }
  }

  lemma TableFlagsPresent(e: Entry, f: Flags)
    requires IsTableFlags(f) && e.flags == f
    ensures IsPresent(e)
  {
  }

  lemma MapSlots(ts: Tables, pos: map<nat, Pos>, ts': Tables, roots: seq<nat>, ops: seq<SpaceOp>, i: nat, c: Call)
    requires Forest(ts, pos) && RootsOk(pos, roots) && |roots| == Spaces(ops) && SlotsMatch(ts, roots, ops) && i < |roots|
    requires TopsLinked(ts, pos, ts', roots[i], PageOf(c.virt), TableFlags(c.flags))
    ensures SlotsMatch(ts', roots, ops + [OpMap(i, c)])
  {
    var ops' := ops + [OpMap(i, c)];
    assert ops'[..|ops|] == ops;
    forall j: nat, k: nat, s: nat | j < |roots| && k < |roots| && s < ENTRIES ensures SlotAt(ts', roots, ops', j, k, s) {
      assert SlotAt(ts, roots, ops, j, k, s) && SlotAt(ts, roots, ops, k, j, s);
      TopAfterMap(ts, pos, ts', roots, i, c, j, s);
      TopAfterMap(ts, pos, ts', roots, i, c, k, s);
    }
  }

  // ---- one creation -------------------------------------------------------------------------

  /** A new space sees the kernel half and nothing else; the others see no change. */
  lemma CreateRefines(ts: Tables, pos: map<nat, Pos>, ts': Tables, roots: seq<nat>, ops: seq<SpaceOp>, u: nat)
    requires RootsOk(pos, roots) && SpacesRefine(ts, roots, ops) && SameTranslations(ts, pos, ts')
    requires SharesKernelHalf(ts, ts', roots[0], u)
    ensures SpacesRefine(ts', roots + [u], ops + [OpCreate])
  {
    var ops', roots' := ops + [OpCreate], roots + [u];
    assert ops'[..|ops|] == ops;
    forall k, v | 0 <= k < |roots'| && ValidPage(v) ensures SeenAt(ts', roots'[k], ops', k, v) {
      if k < |roots| {
        assert SeenAt(ts, roots[k], ops, k, v) && SameAt(ts, ts', roots[k], v);
      } else {
        assert SeenAt(ts, roots[0], ops, 0, v);
      }
    }
  }

  /** The slots after a creation are those before it, the new space's being the kernel's upper ones. */
  lemma SlotAfterCreate(ts: Tables, roots: seq<nat>, ops: seq<SpaceOp>, u: nat, k: nat, s: nat)
    requires |roots| == Spaces(ops) && k <= |roots| && s < ENTRIES && u !in ts && |roots| > 0
    requires roots[0] in ts && |ts[roots[0]]| == ENTRIES && (k < |roots| ==> roots[k] in ts)
    ensures var ts', ops', roots' := WithRoot(ts, roots[0], u), ops + [OpCreate], roots + [u];
            if k == |roots| && s < KERNEL_HALF then Slot(ops', k, s) == None && Top(ts', roots'[k], s) == None
            else var k0 := if k == |roots| then 0 else k;
                 Slot(ops', k, s) == Slot(ops, k0, s) && Top(ts', roots'[k], s) == Top(ts, roots[k0], s)
  {
    var ops' := ops + [OpCreate];
    assert ops'[..|ops|] == ops;
  }

  lemma CreateSlots(ts: Tables, pos: map<nat, Pos>, roots: seq<nat>, ops: seq<SpaceOp>, u: nat)
    requires Forest(ts, pos) && RootsOk(pos, roots) && |roots| == Spaces(ops) && SlotsMatch(ts, roots, ops)
    requires u !in ts && roots[0] in ts && |ts[roots[0]]| == ENTRIES
    ensures SlotsMatch(WithRoot(ts, roots[0], u), roots + [u], ops + [OpCreate])
  {
    var ts', ops', roots' := WithRoot(ts, roots[0], u), ops + [OpCreate], roots + [u];
    forall j: nat, k: nat, s: nat | j < |roots'| && k < |roots'| && s < ENTRIES ensures SlotAt(ts', roots', ops', j, k, s) {
      SlotAfterCreate(ts, roots, ops, u, j, s);
      SlotAfterCreate(ts, roots, ops, u, k, s);
      assert SlotAt(ts, roots, ops, if j == |roots| then 0 else j, if k == |roots| then 0 else k, s);
    }
  }

  // ---- closure of user rights -----------------------------------------------------------------

  /** Nobody else can reach a page below the kernel half, so user rights stay closed. */
  lemma LowPagesNeedNoOne(ts: Tables, pos: map<nat, Pos>, root: nat, page: VPage)
    requires Forest(ts, pos) && IsRoot(pos, root) && ValidPage(page) && page.i4 < KERNEL_HALF
    ensures SharersAllow(ts, pos, root, page)
  {
    forall r | IsRoot(pos, r) && r != root ensures !Shares(ts, r, root, page) {
      LowHalfNotShared(ts, pos, r, root, page);
    }
  }

  lemma SameKeepsClosed(ts: Tables, pos: map<nat, Pos>, ts': Tables, pos': map<nat, Pos>)
    requires AllClosed(ts, pos) && SameTranslations(ts, pos, ts') && SameRoots(pos, pos')
    ensures AllClosed(ts', pos')
  {
    forall r, v | IsRoot(pos', r) && ValidPage(v) ensures UserClosed(ts', r, v) {
      assert UserClosed(ts, r, v) && SameAt(ts, ts', r, v);
    }
  }

  lemma CreateKeepsClosed(ts: Tables, pos: map<nat, Pos>, ts': Tables, pos': map<nat, Pos>, kernel: nat, u: nat)
    requires AllClosed(ts, pos) && SameTranslations(ts, pos, ts') && OneMoreRoot(pos, pos', u)
    requires IsRoot(pos, kernel) && SharesKernelHalf(ts, ts', kernel, u)
    ensures AllClosed(ts', pos')
  {
    forall r, v | IsRoot(pos', r) && ValidPage(v) ensures UserClosed(ts', r, v) {
      if r == u {
        assert UserClosed(ts, kernel, v);
      } else {
        assert UserClosed(ts, r, v) && SameAt(ts, ts', r, v);
      }
    }
  }

  // ---- whole runs -----------------------------------------------------------------------------

  /** The mapper's tables stand for the run `ops` over `roots`. */
  ghost predicate Standing(m: Mapper, roots: seq<nat>, ops: seq<SpaceOp>)
    reads m
  {
    RootsOk(m.pos, roots) && SpacesRefine(m.tables, roots, ops) && SlotsMatch(m.tables, roots, ops)
  }

  /** The first address space, of an otherwise empty mapper. */
  method Boot(m: Mapper) returns (kernel: Option<nat>)
    requires m.Valid() && m.tables == map[]
    modifies m`tables, m`pos, m.buddy`lists, m.buddy.metadata, m.buddy.freeHeads
    ensures m.Valid() && AllClosed(m.tables, m.pos)
    ensures NewTables(old(m.buddy.PageMarks()), m.buddy.PageMarks(), old(m.tables).Keys, m.tables.Keys, 1)
    ensures kernel.None? ==> !FrameLeft(m.buddy.lists)
    ensures kernel.Some? ==> Standing(m, [kernel.value], []) && m.tables == map[kernel.value := ZeroTable()]
  {
    NoRootsYet(m.tables, m.pos);
    kernel := m.CreateKernelPageTable();
    if kernel.Some? {
      BootState(m.tables, m.pos, kernel.value);
    }
  }

  lemma NoRootsYet(ts: Tables, pos: map<nat, Pos>)
    requires Forest(ts, pos) && ts == map[]
    ensures forall r :: !IsRoot(pos, r)
  {
  }

  lemma BootState(ts: Tables, pos: map<nat, Pos>, kernel: nat)
    requires IsRoot(pos, kernel) && NothingMapped(ts, kernel) && ts == map[kernel := ZeroTable()]
    requires forall r :: IsRoot(pos, r) ==> r == kernel
    ensures RootsOk(pos, [kernel]) && SpacesRefine(ts, [kernel], []) && SlotsMatch(ts, [kernel], []) && AllClosed(ts, pos)
  {
    forall k, v | 0 <= k < 1 && ValidPage(v) ensures SeenAt(ts, [kernel][k], [], k, v) {}
    forall j: nat, k: nat, s: nat | j < 1 && k < 1 && s < ENTRIES ensures SlotAt(ts, [kernel], [], j, k, s) {}
  }

  /**
    Any interleaving of mappings and creations, from nothing: each address space sees at each page
    the last mapping made through any space that shares the top-level slot, and as long as user
    pages are only asked for below the kernel half, every user page is reachable through user
    entries only. `done` operations were carried out before the first that ran out of table
    frames; no roots at all if not even the first fitted.
  */
  method Run(m: Mapper, ops: seq<SpaceOp>) returns (roots: seq<nat>, done: nat)
    requires m.Valid() && m.tables == map[]
    modifies m`tables, m`pos, m.buddy`lists, m.buddy.metadata, m.buddy.freeHeads
    ensures m.Valid() && done <= |ops|
    ensures roots == [] || done < |ops| ==> !FrameLeft(m.buddy.lists)
    ensures roots != [] ==> RootsOk(m.pos, roots) && SpacesRefine(m.tables, roots, ops[..done])
    ensures AllUserLow(ops) ==> AllClosed(m.tables, m.pos)
  {
    done := 0;
    var kernel := Boot(m);
    if kernel.None? {
      return [], 0;
    }
    roots := [kernel.value];
    while done < |ops|
      invariant m.Valid() && done <= |ops| && Standing(m, roots, ops[..done])
      invariant AllUserLow(ops) ==> AllClosed(m.tables, m.pos)
    {
      var ok;
      ok, roots := RunOne(m, ops[done], roots, ops[..done]);
      if !ok {
        return;
      }
      assert ops[..done] + [ops[done]] == ops[..done + 1];
      done := done + 1;
    }
  }

  method RunOne(m: Mapper, op: SpaceOp, roots: seq<nat>, ghost ops: seq<SpaceOp>) returns (ok: bool, roots': seq<nat>)
    requires m.Valid() && Standing(m, roots, ops)
    modifies m`tables, m`pos, m.buddy`lists, m.buddy.metadata, m.buddy.freeHeads
    ensures m.Valid() && (!ok ==> !FrameLeft(m.buddy.lists))
    ensures if ok then Standing(m, roots', ops + [op])
            else RootsOk(m.pos, roots') && SpacesRefine(m.tables, roots', ops)
    ensures NewTables(old(m.buddy.PageMarks()), m.buddy.PageMarks(), old(m.tables).Keys, m.tables.Keys, 3)
    ensures UserLow(op) && old(AllClosed(m.tables, m.pos)) ==> AllClosed(m.tables, m.pos)
  {
    match op {
      case OpCreate => ok, roots' := CreateOne(m, roots, ops);
      case OpMap(i, c) =>
        roots' := roots;
        if i < |roots| {
          ok := MapOne(m, i, c, roots, ops);
        } else {
          IgnoredMap(m.tables, roots, ops, op);
          NoNewTable(m.buddy.PageMarks(), m.tables.Keys, 3);
          ok := true;
        }
    }
  }

  /** A mapping in a space that does not exist is not carried out. */
  lemma IgnoredMap(ts: Tables, roots: seq<nat>, ops: seq<SpaceOp>, op: SpaceOp)
    requires SpacesRefine(ts, roots, ops) && SlotsMatch(ts, roots, ops) && op.OpMap? && op.index >= |roots|
    ensures SpacesRefine(ts, roots, ops + [op]) && SlotsMatch(ts, roots, ops + [op])
  {
    var ops' := ops + [op];
    assert ops'[..|ops|] == ops;
    forall k, v | 0 <= k < |roots| && ValidPage(v) ensures SeenAt(ts, roots[k], ops', k, v) {
      assert SeenAt(ts, roots[k], ops, k, v);
    }
    forall j: nat, k: nat, s: nat | j < |roots| && k < |roots| && s < ENTRIES ensures SlotAt(ts, roots, ops', j, k, s) {
      assert SlotAt(ts, roots, ops, j, k, s);
    }
  }

  method MapOne(m: Mapper, i: nat, c: Call, roots: seq<nat>, ghost ops: seq<SpaceOp>) returns (ok: bool)
    requires m.Valid() && Standing(m, roots, ops) && i < |roots|
    modifies m`tables, m`pos, m.buddy`lists, m.buddy.metadata, m.buddy.freeHeads
    ensures m.Valid() && (!ok ==> !FrameLeft(m.buddy.lists))
    ensures if ok then Standing(m, roots, ops + [OpMap(i, c)])
            else RootsOk(m.pos, roots) && SpacesRefine(m.tables, roots, ops)
    ensures NewTables(old(m.buddy.PageMarks()), m.buddy.PageMarks(), old(m.tables).Keys, m.tables.Keys, 3)
    ensures UserLow(OpMap(i, c)) && old(AllClosed(m.tables, m.pos)) ==> AllClosed(m.tables, m.pos)
  {
    ghost var ts, pos := m.tables, m.pos;
    if PageOf(c.virt).i4 < KERNEL_HALF { LowPagesNeedNoOne(ts, pos, roots[i], PageOf(c.virt)); }
    ok := m.Map(roots[i], c.virt, c.phys, c.flags);
    if ok {
      MapRefines(ts, pos, m.tables, roots, ops, i, c);
      MapSlots(ts, pos, m.tables, roots, ops, i, c);
    } else {
      SameRefines(ts, pos, m.tables, roots, ops);
      if AllClosed(ts, pos) { SameKeepsClosed(ts, pos, m.tables, m.pos); }
    }
  }

  lemma SameRefines(ts: Tables, pos: map<nat, Pos>, ts': Tables, roots: seq<nat>, ops: seq<SpaceOp>)
    requires RootsOk(pos, roots) && SpacesRefine(ts, roots, ops) && SameTranslations(ts, pos, ts')
    ensures SpacesRefine(ts', roots, ops)
  {
    forall k, v | 0 <= k < |roots| && ValidPage(v) ensures SeenAt(ts', roots[k], ops, k, v) {
      assert SeenAt(ts, roots[k], ops, k, v) && SameAt(ts, ts', roots[k], v);
    }
  }

  lemma RootsAfterCreate(ts: Tables, pos: map<nat, Pos>, pos': map<nat, Pos>, roots: seq<nat>, u: nat)
    requires ts.Keys == pos.Keys && RootsOk(pos, roots) && KeepsRoots(pos, pos') && IsRoot(pos', u) && u !in ts
    ensures RootsOk(pos', roots + [u])
  {
    var roots' := roots + [u];
    forall k | 0 <= k < |roots'| ensures IsRoot(pos', roots'[k]) && (k < |roots| ==> roots'[k] != u) {
      if k < |roots| { assert IsRoot(pos, roots[k]); }
    }
  }

  method CreateOne(m: Mapper, roots: seq<nat>, ghost ops: seq<SpaceOp>) returns (ok: bool, roots': seq<nat>)
    requires m.Valid() && Standing(m, roots, ops)
    modifies m`tables, m`pos, m.buddy`lists, m.buddy.metadata, m.buddy.freeHeads
    ensures m.Valid() && (!ok ==> !FrameLeft(m.buddy.lists))
    ensures if ok then Standing(m, roots', ops + [OpCreate])
            else RootsOk(m.pos, roots') && SpacesRefine(m.tables, roots', ops)
    ensures NewTables(old(m.buddy.PageMarks()), m.buddy.PageMarks(), old(m.tables).Keys, m.tables.Keys, 3)
    ensures old(AllClosed(m.tables, m.pos)) ==> AllClosed(m.tables, m.pos)
  {
    ghost var ts, pos := m.tables, m.pos;
    var u := m.CreateUserPageTable(roots[0]);
    MoreTables(old(m.buddy.PageMarks()), m.buddy.PageMarks(), ts.Keys, m.tables.Keys, 1, 3);
    if u.None? {
      return false, roots;
    }
    CreateRefines(ts, pos, m.tables, roots, ops, u.value);
    CreateSlots(ts, pos, roots, ops, u.value);
    if AllClosed(ts, pos) { CreateKeepsClosed(ts, pos, m.tables, m.pos, roots[0], u.value); }
    RootsAfterCreate(ts, pos, m.pos, roots, u.value);
    return true, roots + [u.value];
  }

  // ---- how many table frames a run needs ------------------------------------------------------

  /** The free pages that could hold a table. */
  ghost function FreeFrames(ms: seq<BG.Mark>): (r: set<nat>)
  {
    set q | 0 <= q < |ms| && ms[q].isFree && (q + 1) * PAGE_SIZE <= EARLY_PAGE_TABLE_LIMIT
  }

  /** A free page below the limit can be allocated. */
  lemma FrameCanBeTaken(m: seq<BL.PageInfo>, heads: seq<Option<nat>>, lists: BL.Lists, q: nat)
    requires BL.Consistent(m, heads, lists, 0, 0) && q in FreeFrames(BL.Marks(m))
    ensures FrameLeft(lists)
  {
    var ms := BL.Marks(m);
    BG.FreePageInOneBlock(ms, q, 0, 0);
    var p, k := PowersOfTwo.ClearLow(q, ms[q].order), ms[q].order;
    BG.BlockPages(ms, p, k, true);
    assert PowersOfTwo.Pow2(0) == 1;
    assert BA.InFreeBlock(lists, q, 0, p, k);
    assert BA.FreeRunBelow(lists, q, 0, EARLY_PAGE_TABLE_LIMIT);
  }

  lemma {:induction false} ListedAtMost(s: set<nat>, l: seq<nat>)
    requires Lists(l, s)
    ensures |s| <= |l|
    decreases |l|
  {
    if l == [] {
      assert s == {};
    } else {
      var rest := s - {l[0]};
      ListedAtMost(rest, l[1..]);
      assert s <= rest + {l[0]};
      SubsetSize(s, rest + {l[0]});
    }
  }

  lemma {:induction false} SubsetSize(s: set<nat>, t: set<nat>)
    requires s <= t
    ensures |s| <= |t|
    decreases |s|
  {
    if s != {} {
      var x :| x in s;
      SubsetSize(s - {x}, t - {x});
    }
  }

  /** Building at most `n` tables uses up at most `n` frames. */
  lemma FramesSpent(ms: seq<BG.Mark>, ms': seq<BG.Mark>, f: set<nat>, f': set<nat>, n: nat)
    requires NewTables(ms, ms', f, f', n)
    ensures |FreeFrames(ms)| <= |FreeFrames(ms')| + n
  {
    var taken := f' - f;
    var l: seq<nat> :| |l| <= n && Lists(l, taken);
    ListedAtMost(taken, l);
    forall q | q in FreeFrames(ms) ensures q in FreeFrames(ms') + taken { assert BS.TookPage(ms, ms', taken, q); }
    SubsetSize(FreeFrames(ms), FreeFrames(ms') + taken);
  }

  /** A step that stopped for lack of a frame started with no more than it could use. */
  lemma StoppedShort(m: Mapper, ms: seq<BG.Mark>, f: set<nat>, n: nat)
    requires m.Valid() && NewTables(ms, m.buddy.PageMarks(), f, m.tables.Keys, n) && !FrameLeft(m.buddy.lists)
    ensures |FreeFrames(ms)| <= n
  {
    FramesSpent(ms, m.buddy.PageMarks(), f, m.tables.Keys, n);
    forall q | q in FreeFrames(m.buddy.PageMarks()) ensures false {
      FrameCanBeTaken(m.buddy.metadata[..], m.buddy.freeHeads[..], m.buddy.lists, q);
    }
  }

  // ---- where closure fails ----------------------------------------------------------------------

  /** The first page of the kernel's mapping of physical memory. */
  lemma FirstKernelPage()
    ensures PageOf(KERNEL_VMA) == VPage(KERNEL_HALF, 0, 0, 0)
  {
  }

  /**
    The kernel maps a page for itself, a process shares the kernel half, and then the same page is
    mapped for user access through the process: the kernel's address space now has a user leaf
    below a top-level entry that admits no user access. Nine free frames suffice.
  */
  method MapUserPageInKernelHalf(m: Mapper) returns (kernel: nat, user: nat, ok: bool)
    requires m.Valid() && m.tables == map[]
    modifies m`tables, m`pos, m.buddy`lists, m.buddy.metadata, m.buddy.freeHeads
    ensures m.Valid()
    ensures |FreeFrames(old(m.buddy.PageMarks()))| >= 9 ==> ok
    ensures ok ==> IsRoot(m.pos, kernel) && IsRoot(m.pos, user) && !UserClosed(m.tables, kernel, PageOf(KERNEL_VMA))
    ensures ok ==> !AllClosed(m.tables, m.pos)
  {
    kernel, user, ok := 0, 0, false;
    ghost var ms0, f0 := m.buddy.PageMarks(), m.tables.Keys;
    var k := Boot(m);
    ghost var ms1, f1 := m.buddy.PageMarks(), m.tables.Keys;
    FramesSpent(ms0, ms1, f0, f1, 1);
    if k.None? {
      StoppedShort(m, ms0, f0, 1);
      return;
    }
    kernel := k.value;
    assert IsRoot(m.pos, [kernel][0]);
    var mapped := MapForKernel(m, kernel);
    ghost var ms2, f2 := m.buddy.PageMarks(), m.tables.Keys;
    FramesSpent(ms1, ms2, f1, f2, 3);
    if !mapped {
      StoppedShort(m, ms1, f1, 3);
      return;
    }
    var u := ShareWithUser(m, kernel);
    ghost var ms3, f3 := m.buddy.PageMarks(), m.tables.Keys;
    FramesSpent(ms2, ms3, f2, f3, 1);
    if u.None? {
      StoppedShort(m, ms2, f2, 1);
      return;
    }
    user := u.value;
    ok := MapForUser(m, kernel, user);
    if !ok { StoppedShort(m, ms3, f3, 3); }
  }

  /** The kernel's slot for its mapping of physical memory is in use and admits no user access. */
  ghost predicate SupervisorSlot(ts: Tables, kernel: nat)
  {
    && kernel in ts && |ts[kernel]| == ENTRIES
    && IsPresent(ts[kernel][KERNEL_HALF]) && !HasUser(ts[kernel][KERNEL_HALF])
  }

  method MapForKernel(m: Mapper, kernel: nat) returns (ok: bool)
    requires m.Valid() && IsRoot(m.pos, kernel) && AllClosed(m.tables, m.pos) && m.tables == map[kernel := ZeroTable()]
    modifies m`tables, m`pos, m.buddy`lists, m.buddy.metadata, m.buddy.freeHeads
    ensures m.Valid() && IsRoot(m.pos, kernel)
    ensures NewTables(old(m.buddy.PageMarks()), m.buddy.PageMarks(), old(m.tables).Keys, m.tables.Keys, 3)
    ensures !ok ==> !FrameLeft(m.buddy.lists)
    ensures ok ==> AllClosed(m.tables, m.pos) && SupervisorSlot(m.tables, kernel)
  {
    FirstKernelPage();
    SupervisorFlags();
    ok := m.Map(kernel, KERNEL_VMA, 0, WRITABLE);
  }

  lemma SupervisorFlags()
    ensures !Contains(WRITABLE, USER) && !IsPresent(EMPTY)
    ensures forall e: Entry :: e.flags == TableFlags(WRITABLE) ==> IsPresent(e) && !HasUser(e)
  {
  }

  method ShareWithUser(m: Mapper, kernel: nat) returns (u: Option<nat>)
    requires m.Valid() && IsRoot(m.pos, kernel) && AllClosed(m.tables, m.pos) && SupervisorSlot(m.tables, kernel)
    modifies m`tables, m`pos, m.buddy`lists, m.buddy.metadata, m.buddy.freeHeads
    ensures m.Valid() && IsRoot(m.pos, kernel)
    ensures NewTables(old(m.buddy.PageMarks()), m.buddy.PageMarks(), old(m.tables).Keys, m.tables.Keys, 1)
    ensures u.None? ==> !FrameLeft(m.buddy.lists)
    ensures u.Some? ==> AllClosed(m.tables, m.pos) && IsRoot(m.pos, u.value) && u.value != kernel && SupervisorSlot(m.tables, kernel)
    ensures u.Some? ==> Shares(m.tables, kernel, u.value, PageOf(KERNEL_VMA))
  {
    FirstKernelPage();
    ghost var ts, pos := m.tables, m.pos;
    u := m.CreateUserPageTable(kernel);
    if u.Some? { CreateKeepsClosed(ts, pos, m.tables, m.pos, kernel, u.value); }
  }

  method MapForUser(m: Mapper, kernel: nat, user: nat) returns (ok: bool)
    requires m.Valid() && IsRoot(m.pos, kernel) && IsRoot(m.pos, user) && user != kernel
    requires SupervisorSlot(m.tables, kernel) && Shares(m.tables, kernel, user, PageOf(KERNEL_VMA))
    modifies m`tables, m`pos, m.buddy`lists, m.buddy.metadata, m.buddy.freeHeads
    ensures m.Valid() && IsRoot(m.pos, kernel) && IsRoot(m.pos, user)
    ensures NewTables(old(m.buddy.PageMarks()), m.buddy.PageMarks(), old(m.tables).Keys, m.tables.Keys, 3)
    ensures !ok ==> !FrameLeft(m.buddy.lists)
    ensures ok ==> !UserClosed(m.tables, kernel, PageOf(KERNEL_VMA)) && !AllClosed(m.tables, m.pos)
  {
    FirstKernelPage();
    LeafFlags(0, USER);
    ok := m.Map(user, KERNEL_VMA, 0, USER);
  }

  /** From boot on sixteen free pages: a reachable state in which user rights are not closed. */
  method SharedUserPageCounterexample() returns (m: Mapper, kernel: nat, user: nat)
    ensures m.Valid() && IsRoot(m.pos, kernel) && IsRoot(m.pos, user)
    ensures !UserClosed(m.tables, kernel, PageOf(KERNEL_VMA)) && !AllClosed(m.tables, m.pos)
  {
    var areas := [BR.Range(0, 65536)];
    var buddy := new BA.BuddyAllocator(16, areas, []);
    m := new Mapper(buddy);
    NineFrames(buddy.PageMarks(), areas);
    var ok;
    kernel, user, ok := MapUserPageInKernelHalf(m);
  }

  lemma NineFrames(ms: seq<BG.Mark>, areas: seq<BR.Range>)
    requires |ms| == 16 && areas == [BR.Range(0, 65536)]
    requires forall q :: 0 <= q < 16 && AR.InSomeArea(q, areas) && BR.PageClear(q, []) ==> ms[q].isFree
    ensures |FreeFrames(ms)| >= 9
  {
    var nine := {0, 1, 2, 3, 4, 5, 6, 7, 8};
    forall q: nat | q in nine ensures q in FreeFrames(ms) {
      assert AR.InArea(q, areas[0]);
    }
    SubsetSize(nine, FreeFrames(ms));
  }
}
