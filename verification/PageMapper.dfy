/** The page mapper: builds page tables in frames taken from the buddy allocator. */
module PageMapper {
  import opened Basics
  import opened PowersOfTwo
  import BG = BuddyGeometry
  import BL = BuddyLists
  import BS = BuddySpec
  import BA = BuddyAllocator
  import opened PageTables
  import opened PageUpdates

  /** Table frames must lie below this address while the boot mapping is in force. */
  const EARLY_PAGE_TABLE_LIMIT := 0x80_0000

  /** Every table occupies one page held from the buddy allocator, below the boot limit. */
  ghost predicate TablesHeld(ms: seq<BG.Mark>, frames: set<nat>)
  {
    forall t :: t in frames ==> BG.IsBlock(ms, t, 0, false) && (t + 1) * PAGE_SIZE <= EARLY_PAGE_TABLE_LIMIT
  }

  ghost predicate Lists(l: seq<nat>, s: set<nat>)
  {
    forall q :: q in s ==> q in l
  }

  /** The set has at most `n` elements: `n` places suffice to list them. */
  ghost predicate AtMost(s: set<nat>, n: nat)
  {
    exists l: seq<nat> :: |l| <= n && Lists(l, s)
  }

  /** Of the buddy allocator, exactly the pages of the new tables were taken, at most `n` of them. */
  ghost predicate NewTables(ms: seq<BG.Mark>, ms': seq<BG.Mark>, frames: set<nat>, frames': set<nat>, n: nat)
  {
    frames <= frames' && AtMost(frames' - frames, n) && BS.Took(ms, ms', frames' - frames)
  }

  lemma NoNewTable(ms: seq<BG.Mark>, frames: set<nat>, n: nat)
    ensures NewTables(ms, ms, frames, frames, n)
  {
    BS.TookNone(ms);
    assert frames - frames == {} && Lists([], {});
  }

  lemma OneNewTable(ms: seq<BG.Mark>, ms': seq<BG.Mark>, frames: set<nat>, c: nat)
    requires BS.Took(ms, ms', {c}) && c !in frames
    ensures NewTables(ms, ms', frames, frames + {c}, 1)
  {
    assert frames + {c} - frames == {c} && Lists([c], {c});
  }

  lemma LinkedKeys(ts: Tables, t: nat, i: nat, f: Flags, c: nat)
    requires CanLink(ts, t, i, c)
    ensures Linked(ts, t, i, f, c).Keys == if IsPresent(ts[t][i]) then ts.Keys else ts.Keys + {c}
  {
  }

  lemma MoreTables(ms: seq<BG.Mark>, ms': seq<BG.Mark>, f: set<nat>, f': set<nat>, a: nat, b: nat)
    requires NewTables(ms, ms', f, f', a) && a <= b
    ensures NewTables(ms, ms', f, f', b)
  {
  }

  lemma NewTablesThen(ms: seq<BG.Mark>, ms1: seq<BG.Mark>, ms2: seq<BG.Mark>, f: set<nat>, f1: set<nat>, f2: set<nat>, a: nat, b: nat)
    requires NewTables(ms, ms1, f, f1, a) && NewTables(ms1, ms2, f1, f2, b)
    ensures NewTables(ms, ms2, f, f2, a + b)
  {
    var l: seq<nat> :| |l| <= a && Lists(l, f1 - f);
    var k: seq<nat> :| |k| <= b && Lists(k, f2 - f1);
    assert Lists(l + k, f2 - f);
    BS.TookThen(ms, ms1, ms2, f1 - f, f2 - f1);
    assert f1 - f + (f2 - f1) == f2 - f;
  }

  /** Some free page lies below the boot limit. */
  ghost predicate FrameLeft(lists: BL.Lists)
    requires |lists| == BG.MAX_ORDER
  {
    exists q :: BA.FreeRunBelow(lists, q, 0, EARLY_PAGE_TABLE_LIMIT)
  }

  /** The first free page below the boot limit, on the list of the smallest order that has one. */
  ghost predicate FirstFrame(lists: BL.Lists, p: nat, o: nat)
    requires |lists| == BG.MAX_ORDER
  {
    o < BG.MAX_ORDER && p in lists[o] && BA.FirstBelow(lists, 0, EARLY_PAGE_TABLE_LIMIT, p, o)
  }

  ghost predicate KeepsRoots(pos: map<nat, Pos>, pos': map<nat, Pos>)
  {
    forall r :: IsRoot(pos, r) ==> IsRoot(pos', r)
  }

  ghost predicate SameRoots(pos: map<nat, Pos>, pos': map<nat, Pos>)
  {
    forall r :: IsRoot(pos, r) <==> IsRoot(pos', r)
  }

  /** `u` is a root now and the only new one. */
  ghost predicate OneMoreRoot(pos: map<nat, Pos>, pos': map<nat, Pos>, u: nat)
  {
    IsRoot(pos', u) && forall r :: IsRoot(pos', r) && r != u ==> IsRoot(pos, r)
  }

  ghost predicate SameAt(ts: Tables, ts': Tables, r: nat, v: VPage)
  {
    Leaf(ts', r, v) == Leaf(ts, r, v) && (UserClosed(ts, r, v) ==> UserClosed(ts', r, v))
  }

  /** No translation of any address space changed and user rights stay closed. */
  ghost predicate SameTranslations(ts: Tables, pos: map<nat, Pos>, ts': Tables)
  {
    forall r, v {:trigger SameAt(ts, ts', r, v)} :: IsRoot(pos, r) && ValidPage(v) ==> SameAt(ts, ts', r, v)
  }

  /** Roots `r` and `root` meet right below the top level on the way to `page`. */
  predicate Shares(ts: Tables, r: nat, root: nat, page: VPage)
  {
    Level3(ts, r, page).Some? && Level3(ts, r, page) == Level3(ts, root, page)
  }

  /** Below the kernel half two roots never meet. */
  lemma LowHalfNotShared(ts: Tables, pos: map<nat, Pos>, r: nat, root: nat, page: VPage)
    requires Forest(ts, pos) && IsRoot(pos, r) && IsRoot(pos, root) && ValidPage(page) && r != root
    ensures page.i4 < KERNEL_HALF ==> !Shares(ts, r, root, page)
  {
    WalkPos(ts, pos, r, page);
    WalkPos(ts, pos, root, page);
  }

  /** The only translation that may have changed is that of `page`, under `root` and the roots sharing the path. */
  ghost predicate SameElsewhere(ts: Tables, pos: map<nat, Pos>, ts': Tables, root: nat, page: VPage)
  {
    forall r, v {:trigger SameAt(ts, ts', r, v)} ::
      IsRoot(pos, r) && ValidPage(v) && (v != page || (r != root && !Shares(ts, r, root, page))) ==> SameAt(ts, ts', r, v)
  }

  lemma LinkedSame(ts: Tables, pos: map<nat, Pos>, t: nat, i: nat, f: Flags, c: nat)
    requires Forest(ts, pos) && CanLink(ts, t, i, c) && IsTableFlags(f) && |pos[t].prefix| < 3
    ensures SameTranslations(ts, pos, Linked(ts, t, i, f, c))
    ensures SameRoots(pos, LinkedPos(ts, pos, t, i, c))
  {
    var ts' := Linked(ts, t, i, f, c);
    forall r, v | IsRoot(pos, r) && ValidPage(v) ensures SameAt(ts, ts', r, v) {
      LinkedLeaf(ts, pos, t, i, f, c, r, v);
      if UserClosed(ts, r, v) { LinkedUserClosed(ts, pos, t, i, f, c, r, v); }
    }
  }

  lemma SameTablesSame(ts: Tables, pos: map<nat, Pos>)
    ensures SameTranslations(ts, pos, ts)
  {
  }

  lemma SameThen(ts: Tables, pos: map<nat, Pos>, ts1: Tables, pos1: map<nat, Pos>, ts2: Tables)
    requires SameTranslations(ts, pos, ts1) && SameRoots(pos, pos1) && SameTranslations(ts1, pos1, ts2)
    ensures SameTranslations(ts, pos, ts2)
  {
    forall r, v | IsRoot(pos, r) && ValidPage(v) ensures SameAt(ts, ts2, r, v) {
      assert SameAt(ts, ts1, r, v) && SameAt(ts1, ts2, r, v);
    }
  }

  /** What linking the path of `page` under `root` leaves alone. */
  ghost predicate PathLinked(ts0: Tables, pos0: map<nat, Pos>, ts: Tables, root: nat, page: VPage)
  {
    && (forall r :: IsRoot(pos0, r) && r != root ==> r in ts0 && r in ts && ts[r] == ts0[r])
    && (Level3(ts0, root, page).Some? ==> Level3(ts, root, page) == Level3(ts0, root, page))
    && (Level3(ts0, root, page).None? && Level3(ts, root, page).Some? ==> Level3(ts, root, page).value !in ts0)
  }

  /** After linking, another root meets the path exactly if it did before. */
  lemma SharingUnchanged(ts0: Tables, pos0: map<nat, Pos>, ts: Tables, root: nat, page: VPage, r: nat)
    requires Forest(ts0, pos0) && PathLinked(ts0, pos0, ts, root, page)
    requires IsRoot(pos0, r) && IsRoot(pos0, root) && r != root && ValidPage(page)
    ensures Shares(ts, r, root, page) <==> Shares(ts0, r, root, page)
  {
    WalkPos(ts0, pos0, r, page);
    assert Level3(ts, r, page) == Level3(ts0, r, page);
  }

  /** Writing the leaf of `page` leaves every other translation alone. */
  lemma LeafWriteSame(ts0: Tables, pos0: map<nat, Pos>, ts: Tables, pos: map<nat, Pos>, root: nat, page: VPage, t: nat, e: Entry)
    requires Forest(ts0, pos0) && IsRoot(pos0, root) && PathLinked(ts0, pos0, ts, root, page)
    requires SameTranslations(ts0, pos0, ts) && SameRoots(pos0, pos) && Forest(ts, pos)
    requires ValidPage(page) && Level1(ts, root, page) == Some(t) && IsPresent(e)
    ensures t in ts && page.i1 < |ts[t]| && |pos[t].prefix| == 3
    ensures SameElsewhere(ts0, pos0, WithLeaf(ts, t, page.i1, e), root, page)
    ensures Leaf(WithLeaf(ts, t, page.i1, e), root, page) == Some(e)
    ensures PathUser(WithLeaf(ts, t, page.i1, e), root, page) == PathUser(ts, root, page)
  {
    WalkPos(ts, pos, root, page);
    assert TableOk(ts, pos, t);
    var ts' := WithLeaf(ts, t, page.i1, e);
    WithLeafWalk(ts, pos, t, page.i1, e, root, page);
    forall r, v | IsRoot(pos0, r) && ValidPage(v) && (v != page || (r != root && !Shares(ts0, r, root, page)))
      ensures SameAt(ts0, ts', r, v)
    {
      assert SameAt(ts0, ts, r, v) && IsRoot(pos, r);
      WithLeafWalk(ts, pos, t, page.i1, e, r, v);
      if Level1(ts, r, v) == Some(t) && v.i1 == page.i1 {
        LeafIsUnique(ts, pos, root, page, r, v);
        SharingUnchanged(ts0, pos0, ts, root, page, r);
      }
    }
  }

  /** A root that shares the path sees the same new leaf; only its own top-level entry was not promoted. */
  lemma LeafWriteShared(ts0: Tables, pos0: map<nat, Pos>, ts: Tables, pos: map<nat, Pos>, root: nat, page: VPage, t: nat, e: Entry, r: nat)
    requires Forest(ts0, pos0) && IsRoot(pos0, root) && PathLinked(ts0, pos0, ts, root, page)
    requires SameRoots(pos0, pos) && Forest(ts, pos)
    requires ValidPage(page) && Level1(ts, root, page) == Some(t) && IsPresent(e) && t in ts && page.i1 < |ts[t]|
    requires IsRoot(pos0, r) && r != root && Shares(ts0, r, root, page)
    ensures var ts' := WithLeaf(ts, t, page.i1, e);
            && Leaf(ts', r, page) == Some(e) && page.i4 < |ts0[r]|
            && (PathUser(ts', root, page) ==> (PathUser(ts', r, page) <==> HasUser(ts0[r][page.i4])))
  {
    SharingUnchanged(ts0, pos0, ts, root, page, r);
    WalkPos(ts, pos, root, page);
    assert IsRoot(pos, r);
    WithLeafWalk(ts, pos, t, page.i1, e, r, page);
    WithLeafWalk(ts, pos, t, page.i1, e, root, page);
  }

  ghost predicate SlotKept(ts0: Tables, ts: Tables, root: nat, s: nat)
  {
    root in ts0 && root in ts && s < |ts0[root]| == |ts[root]| ==> ts[root][s] == ts0[root][s]
  }

  /** The entry of `root` on the way to `page` has the flags added, or leads to a new table with just these flags. */
  ghost predicate TopLinked(ts0: Tables, ts: Tables, root: nat, page: VPage, flags: Flags)
  {
    && root in ts0 && root in ts && |ts0[root]| == |ts[root]| == ENTRIES && page.i4 < ENTRIES
    && (forall s: nat {:trigger SlotKept(ts0, ts, root, s)} :: s != page.i4 ==> SlotKept(ts0, ts, root, s))
    && var e0, e := ts0[root][page.i4], ts[root][page.i4];
    if IsPresent(e0) then e == AddFlags(e0, flags) else e.frame !in ts0 && e.flags == flags
  }

  /** The same, and the other roots keep their top-level tables. */
  ghost predicate TopsLinked(ts0: Tables, pos0: map<nat, Pos>, ts: Tables, root: nat, page: VPage, flags: Flags)
  {
    && TopLinked(ts0, ts, root, page, flags)
    && (forall r :: IsRoot(pos0, r) && r != root ==> r in ts0 && r in ts && ts[r] == ts0[r])
  }

  /** Roots that share the path see the same leaf. */
  ghost predicate SharersSee(ts0: Tables, pos0: map<nat, Pos>, ts: Tables, root: nat, page: VPage)
  {
    forall r {:trigger Shares(ts0, r, root, page)} ::
      IsRoot(pos0, r) && Shares(ts0, r, root, page) ==> Leaf(ts, r, page) == Leaf(ts, root, page)
  }

  /** A leaf write touches no top-level table and is seen by all who share the path. */
  lemma LeafWriteTops(ts0: Tables, pos0: map<nat, Pos>, ts: Tables, pos: map<nat, Pos>, root: nat, page: VPage, t: nat, e: Entry, flags: Flags)
    requires Forest(ts0, pos0) && IsRoot(pos0, root) && PathLinked(ts0, pos0, ts, root, page)
    requires SameTranslations(ts0, pos0, ts) && SameRoots(pos0, pos) && Forest(ts, pos)
    requires ValidPage(page) && Level1(ts, root, page) == Some(t) && IsPresent(e)
    requires TopLinked(ts0, ts, root, page, flags)
    ensures t in ts && page.i1 < |ts[t]|
    ensures TopsLinked(ts0, pos0, WithLeaf(ts, t, page.i1, e), root, page, flags)
    ensures SharersSee(ts0, pos0, WithLeaf(ts, t, page.i1, e), root, page)
  {
    LeafWriteSame(ts0, pos0, ts, pos, root, page, t, e);
    assert IsRoot(pos, root) && t != root;
    forall r | IsRoot(pos0, r) && r != root ensures r != t { assert IsRoot(pos, r); }
    forall s: nat | s != page.i4 ensures SlotKept(ts0, WithLeaf(ts, t, page.i1, e), root, s) {
      assert SlotKept(ts0, ts, root, s);
    }
    forall r | IsRoot(pos0, r) && r != root && Shares(ts0, r, root, page)
      ensures Leaf(WithLeaf(ts, t, page.i1, e), r, page) == Some(e)
    {
      LeafWriteShared(ts0, pos0, ts, pos, root, page, t, e, r);
    }
  }

  // ---- closure of user rights ------------------------------------------------------

  ghost predicate AllClosed(ts: Tables, pos: map<nat, Pos>)
  {
    forall r, v {:trigger UserClosed(ts, r, v)} :: IsRoot(pos, r) && ValidPage(v) ==> UserClosed(ts, r, v)
  }

  /** Every other root that shares the path to `page` admits user accesses in its own top-level entry. */
  ghost predicate SharersAllow(ts: Tables, pos: map<nat, Pos>, root: nat, page: VPage)
  {
    forall r {:trigger Shares(ts, r, root, page)} ::
      IsRoot(pos, r) && r != root && Shares(ts, r, root, page) ==> HasUser(ts[r][page.i4])
  }

  /** Mapping keeps user rights closed exactly if it adds no user leaf that another root reaches unpromoted. */
  lemma ClosedIff(ts0: Tables, pos0: map<nat, Pos>, ts: Tables, pos: map<nat, Pos>, root: nat, page: VPage, t: nat, e: Entry)
    requires Forest(ts0, pos0) && IsRoot(pos0, root) && PathLinked(ts0, pos0, ts, root, page)
    requires SameTranslations(ts0, pos0, ts) && SameRoots(pos0, pos) && Forest(ts, pos)
    requires ValidPage(page) && Level1(ts, root, page) == Some(t) && IsPresent(e)
    requires HasUser(e) ==> PathUser(ts, root, page)
    requires AllClosed(ts0, pos0)
    ensures t in ts && page.i1 < |ts[t]|
    ensures AllClosed(WithLeaf(ts, t, page.i1, e), pos) <==> !HasUser(e) || SharersAllow(ts0, pos0, root, page)
  {
    LeafWriteSame(ts0, pos0, ts, pos, root, page, t, e);
    var ts' := WithLeaf(ts, t, page.i1, e);
    forall r | IsRoot(pos0, r) && r != root && Shares(ts0, r, root, page)
      ensures UserClosed(ts', r, page) <==> !HasUser(e) || HasUser(ts0[r][page.i4])
    {
      LeafWriteShared(ts0, pos0, ts, pos, root, page, t, e, r);
    }
    forall r, v | IsRoot(pos, r) && ValidPage(v) && !(v == page && r != root && Shares(ts0, r, root, page))
      ensures UserClosed(ts', r, v)
    {
      if v != page || r != root { assert SameAt(ts0, ts', r, v) && UserClosed(ts0, r, v); }
    }
  }

  /** The path to page `v` is linked down to the leaf table `pt`, with the rights asked for, and nothing else changed. */
  ghost predicate PathReady(ts0: Tables, pos0: map<nat, Pos>, ts: Tables, root: nat, v: VPage, flags: Flags, pt: nat)
  {
    && PathLinked(ts0, pos0, ts, root, v) && TopLinked(ts0, ts, root, v, flags)
    && Level1(ts, root, v) == Some(pt) && (Contains(flags, USER) ==> PathUser(ts, root, v))
  }

  /** An entry of a table and the child table it leads to. */
  datatype Link = Link(table: nat, index: nat, child: nat)

  /** Linking the entries one after the other, all with the flags `f`, turns `ts0` into `ts`. */
  ghost predicate Links(ts0: Tables, ts: Tables, links: seq<Link>, f: Flags)
    decreases |links|
  {
    if links == [] then ts == ts0
    else
      var l := links[0];
      CanLink(ts0, l.table, l.index, l.child) && Links(Linked(ts0, l.table, l.index, f, l.child), ts, links[1..], f)
  }

  /** Exactly the three upper entries of the path were written: each linked to the next table, with the flags `f`. */
  ghost predicate PathBuilt(ts0: Tables, ts: Tables, root: nat, v: VPage, f: Flags, pt: nat)
  {
    exists c3: nat, c2: nat :: Links(ts0, ts, [Link(root, v.i4, c3), Link(c3, v.i3, c2), Link(c2, v.i2, pt)], f)
  }

  lemma LinksBuild(ts0: Tables, ts1: Tables, ts2: Tables, ts: Tables, root: nat, v: VPage, f: Flags, c3: nat, c2: nat, pt: nat)
    requires CanLink(ts0, root, v.i4, c3) && ts1 == Linked(ts0, root, v.i4, f, c3)
    requires CanLink(ts1, c3, v.i3, c2) && ts2 == Linked(ts1, c3, v.i3, f, c2)
    requires CanLink(ts2, c2, v.i2, pt) && ts == Linked(ts2, c2, v.i2, f, pt)
    ensures PathBuilt(ts0, ts, root, v, f, pt)
  {
    var links := [Link(root, v.i4, c3), Link(c3, v.i3, c2), Link(c2, v.i2, pt)];
    assert links[1..] == [Link(c3, v.i3, c2), Link(c2, v.i2, pt)] && links[1..][1..] == [Link(c2, v.i2, pt)];
    assert Links(ts2, ts, [Link(c2, v.i2, pt)], f);
    assert Links(ts1, ts, links[1..], f);
  }

  /** What mapping the leaf entry `e` at page `v` of `root` amounts to, in all address spaces. */
  ghost predicate MappedTo(ts0: Tables, pos0: map<nat, Pos>, ts: Tables, pos: map<nat, Pos>, root: nat, v: VPage, e: Entry, tableFlags: Flags)
  {
    && Leaf(ts, root, v) == Some(e) && UserClosed(ts, root, v) && (UserAccessible(ts, root, v) <==> HasUser(e))
    && SameElsewhere(ts0, pos0, ts, root, v) && SharersSee(ts0, pos0, ts, root, v)
    && TopsLinked(ts0, pos0, ts, root, v, tableFlags)
    && (AllClosed(ts0, pos0) ==> (AllClosed(ts, pos) <==> !HasUser(e) || SharersAllow(ts0, pos0, root, v)))
  }

  class Mapper {
    const buddy: BA.BuddyAllocator
    /** The frames in use as page tables, with their entries. */
    var tables: Tables
    ghost var pos: map<nat, Pos>

    ghost predicate Valid()
      reads this, buddy, buddy.metadata, buddy.freeHeads
    {
      buddy.Valid() && Forest(tables, pos) && TablesHeld(buddy.PageMarks(), tables.Keys)
    }

    constructor (buddy: BA.BuddyAllocator)
      requires buddy.Valid()
      ensures Valid() && this.buddy == buddy && tables == map[]
    {
      this.buddy, tables, pos := buddy, map[], map[];
    }

    /** A frame for a new table: below the boot limit and not in use as a table. */
    method AllocateTable() returns (c: Option<nat>)
      requires Valid()
      modifies buddy`lists, buddy.metadata, buddy.freeHeads
      ensures Valid()
      ensures c.None? ==> !FrameLeft(buddy.lists) && buddy.PageMarks() == old(buddy.PageMarks())
      ensures c.Some? ==> c.value !in tables && (c.value + 1) * PAGE_SIZE <= EARLY_PAGE_TABLE_LIMIT
      ensures c.Some? ==> exists o :: FirstFrame(old(buddy.lists), c.value, o)
      ensures c.Some? ==> BS.Took(old(buddy.PageMarks()), buddy.PageMarks(), {c.value})
      ensures c.Some? ==> TablesHeld(buddy.PageMarks(), tables.Keys + {c.value})
    {
      ghost var ms := buddy.PageMarks();
      var phys, o := buddy.AllocateBelow(0, EARLY_PAGE_TABLE_LIMIT);
      if phys.None? {
        return None;
      }
      ghost var p := phys.value / PAGE_SIZE;
      assert FirstFrame(old(buddy.lists), p, o);
      assert Pow2(0) == 1;
      BS.TookOne(ms, buddy.PageMarks(), p);
      forall t | t in tables ensures t != p && BG.IsBlock(buddy.PageMarks(), t, 0, false) {
        assert BG.IsBlock(ms, t, 0, false);
      }
      assert BG.IsBlock(buddy.PageMarks(), p, 0, false);
      return Some(phys.value / PAGE_SIZE);
    }

    /** The table below entry `i` of table `t`, created and zeroed if absent; `None` where the source panics. */
    method GetOrCreateTable(t: nat, i: nat, flags: Flags) returns (c: Option<nat>)
      requires Valid() && t in tables && |pos[t].prefix| < 3 && i < ENTRIES && IsTableFlags(flags)
      modifies this`tables, this`pos, buddy`lists, buddy.metadata, buddy.freeHeads
      ensures Valid() && SameRoots(old(pos), pos)
      ensures SameTranslations(old(tables), old(pos), tables)
      ensures c.None? ==> tables == old(tables) && pos == old(pos) && !FrameLeft(buddy.lists)
      ensures c.Some? ==> CanLink(old(tables), t, i, c.value) && tables == Linked(old(tables), t, i, flags, c.value)
      ensures c.Some? ==> c.value in tables && pos[c.value] == ChildPos(old(pos)[t], t, i)
      ensures NewTables(old(buddy.PageMarks()), buddy.PageMarks(), old(tables).Keys, tables.Keys, 1)
    {
      ghost var ts0, pos0 := tables, pos;
      assert TableOk(tables, pos, t) && LinkOk(tables, pos, t, i);
      if !IsPresent(tables[t][i]) {
        c := CreateTable(t, i, flags);
        return;
      }
      c := Some(tables[t][i].frame);
      LinkedForest(ts0, pos0, t, i, flags, c.value);
      LinkedSame(ts0, pos0, t, i, flags, c.value);
      LinkedKeys(ts0, t, i, flags, c.value);
      tables := tables[t := tables[t][i := AddFlags(tables[t][i], flags)]];
      NoNewTable(buddy.PageMarks(), ts0.Keys, 1);
    }

    /** The branch for an absent entry: a fresh frame, zeroed and linked. */
    method CreateTable(t: nat, i: nat, flags: Flags) returns (c: Option<nat>)
      requires Valid() && t in tables && |pos[t].prefix| < 3 && i < |tables[t]| && IsTableFlags(flags) && !IsPresent(tables[t][i])
      modifies this`tables, this`pos, buddy`lists, buddy.metadata, buddy.freeHeads
      ensures Valid() && SameRoots(old(pos), pos)
      ensures SameTranslations(old(tables), old(pos), tables)
      ensures c.None? ==> tables == old(tables) && pos == old(pos) && !FrameLeft(buddy.lists)
      ensures c.Some? ==> CanLink(old(tables), t, i, c.value) && tables == Linked(old(tables), t, i, flags, c.value)
      ensures c.Some? ==> c.value in tables && pos[c.value] == ChildPos(old(pos)[t], t, i)
      ensures NewTables(old(buddy.PageMarks()), buddy.PageMarks(), old(tables).Keys, tables.Keys, 1)
    {
      ghost var ts0, pos0, ms0 := tables, pos, buddy.PageMarks();
      c := AllocateTable();
      if c.None? {
        SameTablesSame(ts0, pos0);
        NoNewTable(ms0, tables.Keys, 1);
        return;
      }
      LinkedForest(ts0, pos0, t, i, flags, c.value);
      LinkedSame(ts0, pos0, t, i, flags, c.value);
      LinkedKeys(ts0, t, i, flags, c.value);
      OneNewTable(ms0, buddy.PageMarks(), ts0.Keys, c.value);
      pos := LinkedPos(tables, pos, t, i, c.value);
      tables := tables[t := tables[t][i := SetAddr(c.value * PAGE_SIZE, flags)]];
      tables := tables[c.value := ZeroTable()];
    }

    /** The three upper levels of a mapping: the leaf table of `v`, with the rights the flags ask for. */
    method LinkPath(root: nat, v: VPage, flags: Flags) returns (pt: Option<nat>)
      requires Valid() && IsRoot(pos, root) && ValidPage(v) && IsTableFlags(flags)
      modifies this`tables, this`pos, buddy`lists, buddy.metadata, buddy.freeHeads
      ensures Valid() && SameRoots(old(pos), pos) && SameTranslations(old(tables), old(pos), tables)
      ensures pt.None? ==> !FrameLeft(buddy.lists)
      ensures pt.Some? ==> PathReady(old(tables), old(pos), tables, root, v, flags, pt.value)
      ensures pt.Some? ==> PathBuilt(old(tables), tables, root, v, flags, pt.value)
      ensures NewTables(old(buddy.PageMarks()), buddy.PageMarks(), old(tables).Keys, tables.Keys, 3)
    {
      ghost var ts0, pos0, ms0 := tables, pos, buddy.PageMarks();
      assert TableOk(tables, pos, root);
      var pdpt := GetOrCreateTable(root, v.i4, flags);
      if pdpt.None? {
        return None;
      }
      ghost var ts1, pos1, ms1 := tables, pos, buddy.PageMarks();
      LinkedStep(ts0, root, v.i4, flags, pdpt.value);
      FirstLink(ts0, pos0, root, v, flags, pdpt.value);
      var pd := GetOrCreateTable(pdpt.value, v.i3, flags);
      ghost var ts2, pos2, ms2 := tables, pos, buddy.PageMarks();
      NewTablesThen(ms0, ms1, ms2, ts0.Keys, ts1.Keys, ts2.Keys, 1, 1);
      SameThen(ts0, pos0, ts1, pos1, ts2);
      if pd.None? {
        return None;
      }
      TwoSteps(ts1, pos1, root, v, pdpt.value, flags, pd.value);
      LaterLink(ts0, pos0, ts1, pos1, root, v, pdpt.value, v.i3, flags, pd.value);
      pt := GetOrCreateTable(pd.value, v.i2, flags);
      NewTablesThen(ms0, ms2, buddy.PageMarks(), ts0.Keys, ts2.Keys, tables.Keys, 2, 1);
      SameThen(ts0, pos0, ts2, pos2, tables);
      if pt.Some? {
        LinksBuild(ts0, ts1, ts2, tables, root, v, flags, pdpt.value, pd.value, pt.value);
        ThreeSteps(ts2, pos2, root, v, pdpt.value, pd.value, flags, pt.value);
        LaterLink(ts0, pos0, ts2, pos2, root, v, pd.value, v.i2, flags, pt.value);
      }
    }

    /** Map one page. `ok` is false where the source panics for lack of a table frame. */
    method Map(root: nat, virt: nat, phys: nat, flags: Flags) returns (ok: bool)
      requires Valid() && IsRoot(pos, root)
      modifies this`tables, this`pos, buddy`lists, buddy.metadata, buddy.freeHeads
      ensures Valid() && SameRoots(old(pos), pos)
      ensures ok ==> Leaf(tables, root, PageOf(virt)) == Some(SetAddr(phys, Union(flags, PRESENT)))
      ensures ok ==> UserClosed(tables, root, PageOf(virt))
      ensures ok ==> (UserAccessible(tables, root, PageOf(virt)) <==> Contains(flags, USER))
      ensures SameElsewhere(old(tables), old(pos), tables, root, PageOf(virt))
      ensures !ok ==> SameTranslations(old(tables), old(pos), tables) && !FrameLeft(buddy.lists)
      ensures ok && AllClosed(old(tables), old(pos)) ==>
                (AllClosed(tables, pos) <==>
                 !Contains(flags, USER) || SharersAllow(old(tables), old(pos), root, PageOf(virt)))
      ensures ok ==> TopsLinked(old(tables), old(pos), tables, root, PageOf(virt), TableFlags(flags))
      ensures ok ==> SharersSee(old(tables), old(pos), tables, root, PageOf(virt))
      ensures NewTables(old(buddy.PageMarks()), buddy.PageMarks(), old(tables).Keys, tables.Keys, 3)
    {
      LeafFlags(phys, flags);
      ghost var ts0, pos0 := tables, pos;
      ok := MapEntry(root, PageOf(virt), SetAddr(phys, Union(flags, PRESENT)), TableFlags(flags));
      if !ok { SameIsElsewhere(ts0, pos0, tables, root, PageOf(virt)); }
    }

    /** Put the leaf entry `e` at page `v`, below intermediate entries with the given rights. */
    method MapEntry(root: nat, v: VPage, e: Entry, tableFlags: Flags) returns (ok: bool)
      requires Valid() && IsRoot(pos, root) && ValidPage(v) && IsPresent(e) && IsTableFlags(tableFlags)
      requires HasUser(e) <==> Contains(tableFlags, USER)
      modifies this`tables, this`pos, buddy`lists, buddy.metadata, buddy.freeHeads
      ensures Valid() && SameRoots(old(pos), pos)
      ensures ok ==> MappedTo(old(tables), old(pos), tables, pos, root, v, e, tableFlags)
      ensures !ok ==> SameTranslations(old(tables), old(pos), tables) && !FrameLeft(buddy.lists)
      ensures NewTables(old(buddy.PageMarks()), buddy.PageMarks(), old(tables).Keys, tables.Keys, 3)
    {
      ghost var ts0, pos0 := tables, pos;
      var pt := LinkPath(root, v, tableFlags);
      ok := pt.Some?;
      if ok {
        SetLeaf(root, v, pt.value, e, tableFlags, ts0, pos0);
      }
    }

    /** The last step of a mapping: write the leaf entry at the end of the linked path. */
    method SetLeaf(root: nat, v: VPage, pt: nat, e: Entry, ghost tableFlags: Flags, ghost ts0: Tables, ghost pos0: map<nat, Pos>)
      requires Forest(tables, pos) && Forest(ts0, pos0) && IsRoot(pos0, root) && ValidPage(v) && IsPresent(e)
      requires SameTranslations(ts0, pos0, tables) && SameRoots(pos0, pos)
      requires PathReady(ts0, pos0, tables, root, v, tableFlags, pt) && (HasUser(e) ==> Contains(tableFlags, USER))
      modifies this`tables
      ensures Forest(tables, pos) && MappedTo(ts0, pos0, tables, pos, root, v, e, tableFlags)
      ensures tables.Keys == old(tables).Keys
    {
      LeafWriteSame(ts0, pos0, tables, pos, root, v, pt, e);
      WithLeafForest(tables, pos, pt, v.i1, e);
      if AllClosed(ts0, pos0) { ClosedIff(ts0, pos0, tables, pos, root, v, pt, e); }
      LeafWriteTops(ts0, pos0, tables, pos, root, v, pt, e, tableFlags);
      tables := tables[pt := tables[pt][v.i1 := e]];
    }

    /** A new address space sharing the kernel half of `kernel`; `None` where the source panics. */
    method CreateUserPageTable(kernel: nat) returns (u: Option<nat>)
      requires Valid() && IsRoot(pos, kernel)
      modifies this`tables, this`pos, buddy`lists, buddy.metadata, buddy.freeHeads
      ensures Valid() && KeepsRoots(old(pos), pos) && SameTranslations(old(tables), old(pos), tables)
      ensures u.None? ==> tables == old(tables) && pos == old(pos) && !FrameLeft(buddy.lists)
      ensures u.Some? ==> OneMoreRoot(old(pos), pos, u.value)
      ensures u.Some? ==> kernel in old(tables) && |old(tables)[kernel]| == ENTRIES && tables == WithRoot(old(tables), kernel, u.value)
      ensures NewTables(old(buddy.PageMarks()), buddy.PageMarks(), old(tables).Keys, tables.Keys, 1)
      ensures u.Some? ==> u.value !in old(tables) && IsRoot(pos, u.value) && SharesKernelHalf(old(tables), tables, kernel, u.value)
    {
      ghost var ts0, pos0 := tables, pos;
      assert TableOk(tables, pos, kernel);
      var frame := AllocateTable();
      if frame.None? {
        NoNewTable(old(buddy.PageMarks()), tables.Keys, 1);
        return None;
      }
      var table := ZeroTable();
      var index := KERNEL_HALF;
      while index < ENTRIES
        invariant KERNEL_HALF <= index <= ENTRIES && |table| == ENTRIES
        invariant forall i :: 0 <= i < ENTRIES ==> table[i] == if KERNEL_HALF <= i < index then ts0[kernel][i] else EMPTY
      {
        table := table[index := tables[kernel][index]];
        index := index + 1;
      }
      assert table == UserTable(ts0[kernel]);
      WithRootForest(ts0, pos0, kernel, frame.value);
      NewRootSame(ts0, pos0, kernel, frame.value);
      OneNewTable(old(buddy.PageMarks()), buddy.PageMarks(), ts0.Keys, frame.value);
      assert WithRoot(ts0, kernel, frame.value).Keys == ts0.Keys + {frame.value};
      tables := tables[frame.value := table];
      pos := pos[frame.value := RootPos(frame.value)];
      return frame;
    }

    /** The first address space, with nothing mapped; `None` where the source panics. */
    method CreateKernelPageTable() returns (u: Option<nat>)
      requires Valid()
      modifies this`tables, this`pos, buddy`lists, buddy.metadata, buddy.freeHeads
      ensures Valid() && KeepsRoots(old(pos), pos) && SameTranslations(old(tables), old(pos), tables)
      ensures u.None? ==> tables == old(tables) && pos == old(pos) && !FrameLeft(buddy.lists)
      ensures u.Some? ==> u.value !in old(tables) && OneMoreRoot(old(pos), pos, u.value)
      ensures u.Some? ==> tables == old(tables)[u.value := ZeroTable()]
      ensures NewTables(old(buddy.PageMarks()), buddy.PageMarks(), old(tables).Keys, tables.Keys, 1)
      ensures u.Some? ==> NothingMapped(tables, u.value)
    {
      ghost var ts0, pos0 := tables, pos;
      u := AllocateTable();
      if u.None? {
        NoNewTable(old(buddy.PageMarks()), tables.Keys, 1);
        return;
      }
      EmptyRoot(ts0, pos0, u.value);
      EmptyRootSame(ts0, pos0, u.value);
      OneNewTable(old(buddy.PageMarks()), buddy.PageMarks(), ts0.Keys, u.value);
      assert ts0[u.value := ZeroTable()].Keys == ts0.Keys + {u.value};
      tables := tables[u.value := ZeroTable()];
      pos := pos[u.value := RootPos(u.value)];
    }

    /** Any sequence of mappings behaves like updates of a finite map from pages to leaves. */
    method MapAll(root: nat, calls: seq<Call>) returns (done: nat)
      requires Valid() && IsRoot(pos, root)
      modifies this`tables, this`pos, buddy`lists, buddy.metadata, buddy.freeHeads
      ensures Valid() && KeepsRoots(old(pos), pos) && done <= |calls|
      ensures done < |calls| ==> !FrameLeft(buddy.lists)
      ensures NewTables(old(buddy.PageMarks()), buddy.PageMarks(), old(tables).Keys, tables.Keys, 3 * |calls|)
      ensures Refines(old(tables), tables, root, calls[..done]) && OthersKept(old(tables), old(pos), tables, root, calls)
    {
      done := 0;
      NoNewTable(buddy.PageMarks(), tables.Keys, 0);
      while done < |calls|
        invariant NewTables(old(buddy.PageMarks()), buddy.PageMarks(), old(tables).Keys, tables.Keys, 3 * done)
        invariant Valid() && KeepsRoots(old(pos), pos) && done <= |calls|
        invariant Refines(old(tables), tables, root, calls[..done]) && OthersKept(old(tables), old(pos), tables, root, calls)
      {
        ghost var ms, ts := buddy.PageMarks(), tables;
        var ok := MapNext(root, calls, done, old(tables), old(pos));
        NewTablesThen(old(buddy.PageMarks()), ms, buddy.PageMarks(), old(tables).Keys, ts.Keys, tables.Keys, 3 * done, 3);
        if !ok {
          return;
        }
        done := done + 1;
      }
    }

    method MapNext(root: nat, calls: seq<Call>, n: nat, ghost ts0: Tables, ghost pos0: map<nat, Pos>) returns (ok: bool)
      requires Valid() && IsRoot(pos0, root) && KeepsRoots(pos0, pos) && n < |calls|
      requires Refines(ts0, tables, root, calls[..n]) && OthersKept(ts0, pos0, tables, root, calls)
      modifies this`tables, this`pos, buddy`lists, buddy.metadata, buddy.freeHeads
      ensures Valid() && KeepsRoots(pos0, pos) && OthersKept(ts0, pos0, tables, root, calls)
      ensures !ok ==> !FrameLeft(buddy.lists)
      ensures NewTables(old(buddy.PageMarks()), buddy.PageMarks(), old(tables).Keys, tables.Keys, 3)
      ensures Refines(ts0, tables, root, if ok then calls[..n + 1] else calls[..n])
    {
      ghost var ts, ps := tables, pos;
      assert IsRoot(pos, root);
      ok := Map(root, calls[n].virt, calls[n].phys, calls[n].flags);
      OthersStep(ts0, pos0, ts, ps, tables, root, calls, n);
      if ok {
        RefinesStep(ts0, ts, ps, tables, root, calls, n);
      } else {
        RefinesSame(ts0, ts, ps, tables, root, calls[..n]);
      }
    }

    /** Map `start..end`, rounded out to pages, at the offset of the kernel mapping. */
    method SetRange(root: nat, start: nat, end: nat, flags: Flags) returns (ok: bool)
      requires Valid() && IsRoot(pos, root) && KERNEL_VMA <= start && end < 0x1_0000_0000_0000_0000
      modifies this`tables, this`pos, buddy`lists, buddy.metadata, buddy.freeHeads
      ensures Valid() && KeepsRoots(old(pos), pos)
      ensures !ok ==> !FrameLeft(buddy.lists)
      ensures NewTables(old(buddy.PageMarks()), buddy.PageMarks(), old(tables).Keys, tables.Keys, 3 * |CallsFor(start, end, flags)|)
      ensures OthersKept(old(tables), old(pos), tables, root, CallsFor(start, end, flags))
      ensures ok ==> var first := PageFloor(start);
                     RangeMapped(old(tables), tables, root, first, first - KERNEL_VMA, PagesIn(first, end), flags)
    {
      ghost var ts0 := tables;
      var calls := CallsFor(start, end, flags);
      var done := MapAll(root, calls);
      ok := done == |calls|;
      if ok { WholeRange(ts0, tables, root, start, end, flags, calls[..done]); }
    }
  }

  function PageFloor(addr: nat): (p: nat)
    ensures p <= addr < p + PAGE_SIZE && p % PAGE_SIZE == 0
    ensures addr >= KERNEL_VMA ==> p >= KERNEL_VMA
  {
    addr - addr % PAGE_SIZE
  }

  /** Pages from the page boundary `first` up to and including the one that holds the last byte before `end`. */
  function PagesIn(first: nat, end: nat): (n: nat)
    ensures first < end ==> (n - 1) * PAGE_SIZE < end - first <= n * PAGE_SIZE
    ensures end <= first ==> n == 0
    ensures KERNEL_VMA <= first && end < 0x1_0000_0000_0000_0000 ==> n <= 0x10_0000_0000
  {
    if end <= first then 0 else (end - first + PAGE_SIZE - 1) / PAGE_SIZE
  }

  /** The calls made to map the pages of `start..end`. */
  function CallsFor(start: nat, end: nat, flags: Flags): (calls: seq<Call>)
    requires start >= KERNEL_VMA
    ensures |calls| == PagesIn(PageFloor(start), end)
  {
    RangeCalls(PageFloor(start), PageFloor(start) - KERNEL_VMA, PagesIn(PageFloor(start), end), flags)
  }

  ghost predicate RangePage(ts: Tables, root: nat, virt: nat, phys: nat, flags: Flags, k: nat)
  {
    Leaf(ts, root, PageOf(virt + k * PAGE_SIZE)) == Some(SetAddr(phys + k * PAGE_SIZE, Union(flags, PRESENT)))
  }

  ghost predicate InRange(virt: nat, n: nat, v: VPage)
  {
    exists k :: 0 <= k < n && PageOf(virt + k * PAGE_SIZE) == v
  }

  /** Page `k` of the range translates to page `k` of the physical range; no other page changed. */
  ghost predicate RangeMapped(ts0: Tables, ts: Tables, root: nat, virt: nat, phys: nat, n: nat, flags: Flags)
  {
    && (forall k :: 0 <= k < n ==> RangePage(ts, root, virt, phys, flags, k))
    && (forall v {:trigger Kept(ts0, ts, root, v)} :: ValidPage(v) && !InRange(virt, n, v) ==> Kept(ts0, ts, root, v))
  }

  lemma WholeRange(ts0: Tables, ts: Tables, root: nat, start: nat, end: nat, flags: Flags, calls: seq<Call>)
    requires start >= KERNEL_VMA && end < 0x1_0000_0000_0000_0000
    requires calls == CallsFor(start, end, flags) && Refines(ts0, ts, root, calls)
    ensures var first := PageFloor(start);
            RangeMapped(ts0, ts, root, first, first - KERNEL_VMA, PagesIn(first, end), flags)
  {
    CallsMapRange(ts0, ts, root, PageFloor(start), PageFloor(start) - KERNEL_VMA, PagesIn(PageFloor(start), end), flags);
  }

  lemma CallsMapRange(ts0: Tables, ts: Tables, root: nat, virt: nat, phys: nat, n: nat, flags: Flags)
    requires n <= 0x10_0000_0000 && Refines(ts0, ts, root, RangeCalls(virt, phys, n, flags))
    ensures RangeMapped(ts0, ts, root, virt, phys, n, flags)
  {
    var calls := RangeCalls(virt, phys, n, flags);
    forall k | 0 <= k < n ensures RangePage(ts, root, virt, phys, flags, k) {
      var v := PageOf(virt + k * PAGE_SIZE);
      assert CallsGive(ts0, ts, root, calls, v);
      RangeTranslates(virt, phys, n, flags, k, Leaf(ts0, root, v));
    }
    forall v | ValidPage(v) && !InRange(virt, n, v) ensures Kept(ts0, ts, root, v) {
      assert CallsGive(ts0, ts, root, calls, v);
      RangeElsewhere(virt, phys, n, flags, v, Leaf(ts0, root, v));
    }
  }

  ghost predicate CallsGive(ts0: Tables, ts: Tables, root: nat, calls: seq<Call>, v: VPage)
  {
    Leaf(ts, root, v) == LastLeaf(calls, v, Leaf(ts0, root, v))
  }

  /** Under `root`, the tables `ts` are `ts0` updated by the calls, page by page. */
  ghost predicate Refines(ts0: Tables, ts: Tables, root: nat, calls: seq<Call>)
  {
    forall v {:trigger CallsGive(ts0, ts, root, calls, v)} :: ValidPage(v) ==> CallsGive(ts0, ts, root, calls, v)
  }

  ghost predicate Kept(ts0: Tables, ts: Tables, r: nat, v: VPage)
  {
    Leaf(ts, r, v) == Leaf(ts0, r, v)
  }

  ghost predicate Targets(calls: seq<Call>, v: VPage)
  {
    exists i :: 0 <= i < |calls| && PageOf(calls[i].virt) == v
  }

  /** Other address spaces change at most in the kernel half, and there only at pages the calls name. */
  ghost predicate OthersKept(ts0: Tables, pos0: map<nat, Pos>, ts: Tables, root: nat, calls: seq<Call>)
  {
    forall r, v {:trigger Kept(ts0, ts, r, v)} ::
      IsRoot(pos0, r) && r != root && ValidPage(v) && (v.i4 < KERNEL_HALF || !Targets(calls, v)) ==> Kept(ts0, ts, r, v)
  }

  /** Mapping in one process's lower half changes no translation of the kernel or of another process. */
  lemma LowerHalfIsPrivate(ts0: Tables, pos0: map<nat, Pos>, ts: Tables, root: nat, calls: seq<Call>, r: nat, v: VPage)
    requires OthersKept(ts0, pos0, ts, root, calls) && IsRoot(pos0, r) && r != root && ValidPage(v)
    requires forall i :: 0 <= i < |calls| ==> PageOf(calls[i].virt).i4 < KERNEL_HALF
    ensures Leaf(ts, r, v) == Leaf(ts0, r, v)
  {
    assert Kept(ts0, ts, r, v);
  }

  lemma RefinesStep(ts0: Tables, ts: Tables, ps: map<nat, Pos>, ts': Tables, root: nat, calls: seq<Call>, n: nat)
    requires n < |calls| && Refines(ts0, ts, root, calls[..n]) && IsRoot(ps, root)
    requires SameElsewhere(ts, ps, ts', root, PageOf(calls[n].virt))
    requires Leaf(ts', root, PageOf(calls[n].virt)) == Some(SetAddr(calls[n].phys, Union(calls[n].flags, PRESENT)))
    ensures Refines(ts0, ts', root, calls[..n + 1])
  {
    var c := calls[n];
    assert calls[..n + 1][..n] == calls[..n];
    forall v | ValidPage(v) ensures CallsGive(ts0, ts', root, calls[..n + 1], v) {
      if v != PageOf(c.virt) { assert SameAt(ts, ts', root, v) && CallsGive(ts0, ts, root, calls[..n], v); }
    }
  }

  lemma RefinesSame(ts0: Tables, ts: Tables, ps: map<nat, Pos>, ts': Tables, root: nat, calls: seq<Call>)
    requires Refines(ts0, ts, root, calls) && IsRoot(ps, root) && SameTranslations(ts, ps, ts')
    ensures Refines(ts0, ts', root, calls)
  {
    forall v | ValidPage(v) ensures CallsGive(ts0, ts', root, calls, v) {
      assert SameAt(ts, ts', root, v) && CallsGive(ts0, ts, root, calls, v);
    }
  }

  lemma OthersStep(ts0: Tables, pos0: map<nat, Pos>, ts: Tables, ps: map<nat, Pos>, ts': Tables, root: nat, calls: seq<Call>, n: nat)
    requires n < |calls| && OthersKept(ts0, pos0, ts, root, calls) && KeepsRoots(pos0, ps)
    requires SameElsewhere(ts, ps, ts', root, PageOf(calls[n].virt)) && Forest(ts, ps) && IsRoot(ps, root)
    ensures OthersKept(ts0, pos0, ts', root, calls)
  {
    forall r, v | IsRoot(pos0, r) && r != root && ValidPage(v) && (v.i4 < KERNEL_HALF || !Targets(calls, v))
      ensures Kept(ts0, ts', r, v)
    {
      LowHalfNotShared(ts, ps, r, root, v);
      assert Kept(ts0, ts, r, v) && IsRoot(ps, r) && SameAt(ts, ts', r, v);
    }
  }

  /** One call of the mapper. */
  datatype Call = Call(virt: nat, phys: nat, flags: Flags)

  /** The finite map after the calls: the last call for a page wins. */
  function LastLeaf(calls: seq<Call>, v: VPage, before: Option<Entry>): (r: Option<Entry>)
  {
    if calls == [] then before
    else
      var c := calls[|calls| - 1];
      if PageOf(c.virt) == v then Some(SetAddr(c.phys, Union(c.flags, PRESENT)))
      else LastLeaf(calls[..|calls| - 1], v, before)
  }

  // ---- ranges ----------------------------------------------------------------------------

  /** The calls made for `n` consecutive pages. */
  function RangeCalls(virt: nat, phys: nat, n: nat, flags: Flags): (calls: seq<Call>)
    ensures |calls| == n
    ensures forall k :: 0 <= k < n ==> calls[k] == Call(virt + k * PAGE_SIZE, phys + k * PAGE_SIZE, flags)
  {
    seq(n, k requires 0 <= k < n => Call(virt + k * PAGE_SIZE, phys + k * PAGE_SIZE, flags))
  }

  /** Up to 2^36 consecutive pages have different indices. */
  lemma ConsecutivePagesDiffer(virt: nat, j: nat, k: nat)
    requires j < k < j + 0x10_0000_0000
    ensures PageOf(virt + j * PAGE_SIZE) != PageOf(virt + k * PAGE_SIZE)
  {
    PageOfDigits(virt + j * PAGE_SIZE);
    PageOfDigits(virt + k * PAGE_SIZE);
    PageNumberAt(virt, j);
    PageNumberAt(virt, k);
    RemaindersDiffer(virt / PAGE_SIZE + j, k - j, 0x10_0000_0000);
  }

  lemma PageNumberAt(virt: nat, k: nat)
    ensures (virt + k * PAGE_SIZE) / PAGE_SIZE == virt / PAGE_SIZE + k
  {
  }

  lemma RemaindersDiffer(a: nat, d: nat, m: nat)
    requires 0 < d < m
    ensures a % m != (a + d) % m
  {
    var q, r := a / m, a % m;
    if r + d < m {
      RemainderUnique(a + d, m, q, r + d);
    } else {
      assert m * (q + 1) == m * q + m;
      RemainderUnique(a + d, m, q + 1, r + d - m);
    }
  }

  /** After mapping a range, page `k` of it translates to page `k` of the physical range. */
  lemma {:induction false} RangeTranslates(virt: nat, phys: nat, n: nat, flags: Flags, k: nat, before: Option<Entry>)
    requires k < n <= 0x10_0000_0000
    ensures LastLeaf(RangeCalls(virt, phys, n, flags), PageOf(virt + k * PAGE_SIZE), before) ==
              Some(SetAddr(phys + k * PAGE_SIZE, Union(flags, PRESENT)))
    decreases n
  {
    var calls := RangeCalls(virt, phys, n, flags);
    if k < n - 1 {
      assert calls[..n - 1] == RangeCalls(virt, phys, n - 1, flags);
      ConsecutivePagesDiffer(virt, k, n - 1);
      RangeTranslates(virt, phys, n - 1, flags, k, before);
    }
  }

  /** Pages outside the range keep their translation. */
  lemma {:induction false} RangeElsewhere(virt: nat, phys: nat, n: nat, flags: Flags, v: VPage, before: Option<Entry>)
    requires forall k :: 0 <= k < n ==> PageOf(virt + k * PAGE_SIZE) != v
    ensures LastLeaf(RangeCalls(virt, phys, n, flags), v, before) == before
    decreases n
  {
    if n > 0 {
      var calls := RangeCalls(virt, phys, n, flags);
      assert calls[..n - 1] == RangeCalls(virt, phys, n - 1, flags);
      assert calls[n - 1].virt == virt + (n - 1) * PAGE_SIZE;
      RangeElsewhere(virt, phys, n - 1, flags, v, before);
    }
  }

  // ---- address spaces --------------------------------------------------------------------

  /** The new root translates the kernel half like `kernel` and has nothing below it. */
  ghost predicate SharesKernelHalf(ts: Tables, ts': Tables, kernel: nat, u: nat)
  {
    forall v :: ValidPage(v) ==>
      && Leaf(ts', u, v) == (if v.i4 < KERNEL_HALF then None else Leaf(ts, kernel, v))
      && (UserClosed(ts, kernel, v) ==> UserClosed(ts', u, v))
  }

  ghost predicate NothingMapped(ts: Tables, r: nat)
  {
    forall v {:trigger Leaf(ts, r, v)} :: ValidPage(v) ==> Leaf(ts, r, v) == None
  }

  /** A root with nothing mapped changes no translation and is the only new root. */
  lemma EmptyRootSame(ts: Tables, pos: map<nat, Pos>, u: nat)
    requires Forest(ts, pos) && u !in ts
    ensures SameTranslations(ts, pos, ts[u := ZeroTable()]) && NothingMapped(ts[u := ZeroTable()], u)
    ensures KeepsRoots(pos, pos[u := RootPos(u)]) && OneMoreRoot(pos, pos[u := RootPos(u)], u)
  {
    var ts' := ts[u := ZeroTable()];
    forall r, v | ValidPage(v) && IsRoot(pos, r) ensures SameAt(ts, ts', r, v) {
      EmptyRootLeaf(ts, pos, u, r, v);
    }
    forall v | ValidPage(v) ensures Leaf(ts', u, v) == None {
      EmptyRootLeaf(ts, pos, u, u, v);
    }
  }

  lemma NewRootSame(ts: Tables, pos: map<nat, Pos>, kernel: nat, u: nat)
    requires Forest(ts, pos) && IsRoot(pos, kernel) && |ts[kernel]| == ENTRIES && u !in ts
    ensures SameTranslations(ts, pos, WithRoot(ts, kernel, u))
    ensures SharesKernelHalf(ts, WithRoot(ts, kernel, u), kernel, u)
    ensures KeepsRoots(pos, pos[u := RootPos(u)]) && OneMoreRoot(pos, pos[u := RootPos(u)], u)
  {
    forall r, v | IsRoot(pos, r) && ValidPage(v) ensures SameAt(ts, WithRoot(ts, kernel, u), r, v) {
      WithRootLeaf(ts, pos, kernel, u, r, v);
    }
    forall v | ValidPage(v)
      ensures Leaf(WithRoot(ts, kernel, u), u, v) == (if v.i4 < KERNEL_HALF then None else Leaf(ts, kernel, v))
      ensures UserClosed(ts, kernel, v) ==> UserClosed(WithRoot(ts, kernel, u), u, v)
    {
      WithRootLeaf(ts, pos, kernel, u, kernel, v);
    }
  }

  /** Where nothing was mapped, promoting intermediate entries gives no one new user access. */
  lemma RightsUnchanged(ts: Tables, ts': Tables, r: nat, v: VPage)
    requires SameAt(ts, ts', r, v) && UserClosed(ts, r, v)
    ensures UserAccessible(ts', r, v) <==> UserAccessible(ts, r, v)
    ensures UserAccessible(ts', r, v) <==> Leaf(ts, r, v).Some? && HasUser(Leaf(ts, r, v).value)
  {
  }

  lemma SameIsElsewhere(ts: Tables, pos: map<nat, Pos>, ts': Tables, root: nat, page: VPage)
    requires SameTranslations(ts, pos, ts')
    ensures SameElsewhere(ts, pos, ts', root, page)
  {
  }

  lemma LeafFlags(phys: nat, flags: Flags)
    ensures var e := SetAddr(phys, Union(flags, PRESENT)); IsPresent(e) && (HasUser(e) <==> Contains(flags, USER))
    ensures IsTableFlags(TableFlags(flags)) && (Contains(TableFlags(flags), USER) <==> Contains(flags, USER))
  {
  }

  /** The first link writes only the top-level table of `root`. */
  lemma FirstLink(ts: Tables, pos: map<nat, Pos>, root: nat, v: VPage, f: Flags, c: nat)
    requires Forest(ts, pos) && IsRoot(pos, root) && ValidPage(v) && IsTableFlags(f) && CanLink(ts, root, v.i4, c)
    ensures PathLinked(ts, pos, Linked(ts, root, v.i4, f, c), root, v)
    ensures TopLinked(ts, Linked(ts, root, v.i4, f, c), root, v, f)
  {
    LinkedStep(ts, root, v.i4, f, c);
    WalkPos(ts, pos, root, v);
    assert TableOk(ts, pos, root);
    assert c * PAGE_SIZE / PAGE_SIZE == c;
    forall s: nat | s != v.i4 ensures SlotKept(ts, Linked(ts, root, v.i4, f, c), root, s) {}
  }

  /** Later links write only tables below the top level. */
  lemma LaterLink(ts0: Tables, pos0: map<nat, Pos>, ts: Tables, pos: map<nat, Pos>, root: nat, v: VPage,
                  t: nat, i: nat, f: Flags, c: nat)
    requires Forest(ts, pos) && SameRoots(pos0, pos) && IsRoot(pos0, root) && ValidPage(v) && IsTableFlags(f)
    requires PathLinked(ts0, pos0, ts, root, v) && Level3(ts, root, v).Some?
    requires CanLink(ts, t, i, c) && t in pos && pos[t].prefix != [] && TopLinked(ts0, ts, root, v, f)
    ensures PathLinked(ts0, pos0, Linked(ts, t, i, f, c), root, v)
    ensures TopLinked(ts0, Linked(ts, t, i, f, c), root, v, f)
  {
    assert IsRoot(pos, root) && TableOk(ts, pos, root);
    LinkedDown(ts, t, i, f, c, root, v.i4);
    forall r | IsRoot(pos0, r) && r != root ensures r in ts0 && r in Linked(ts, t, i, f, c) && Linked(ts, t, i, f, c)[r] == ts0[r] {
      assert IsRoot(pos, r) && r in ts && ts[r] == ts0[r];
    }
    forall s: nat | s != v.i4 ensures SlotKept(ts0, Linked(ts, t, i, f, c), root, s) {
      assert SlotKept(ts0, ts, root, s);
    }
  }

  lemma TwoSteps(ts: Tables, pos: map<nat, Pos>, root: nat, v: VPage, pdpt: nat, f: Flags, c: nat)
    requires Forest(ts, pos) && IsRoot(pos, root) && ValidPage(v) && IsTableFlags(f)
    requires Level3(ts, root, v) == Some(pdpt) && (Contains(f, USER) ==> HasUser(ts[root][v.i4]))
    requires CanLink(ts, pdpt, v.i3, c)
    ensures var ts' := Linked(ts, pdpt, v.i3, f, c);
            && Level3(ts', root, v) == Some(pdpt) && Level2(ts', root, v) == Some(c)
            && (Contains(f, USER) ==> HasUser(ts'[root][v.i4]) && HasUser(ts'[pdpt][v.i3]))
  {
    assert TableOk(ts, pos, root);
    LinkedDown(ts, pdpt, v.i3, f, c, root, v.i4);
    LinkedStep(ts, pdpt, v.i3, f, c);
  }

  lemma ThreeSteps(ts: Tables, pos: map<nat, Pos>, root: nat, v: VPage, pdpt: nat, pd: nat, f: Flags, c: nat)
    requires Forest(ts, pos) && IsRoot(pos, root) && ValidPage(v) && IsTableFlags(f)
    requires Level3(ts, root, v) == Some(pdpt) && Level2(ts, root, v) == Some(pd)
    requires Contains(f, USER) ==> HasUser(ts[root][v.i4]) && HasUser(ts[pdpt][v.i3])
    requires CanLink(ts, pd, v.i2, c)
    ensures var ts' := Linked(ts, pd, v.i2, f, c);
            Level1(ts', root, v) == Some(c) && (Contains(f, USER) ==> PathUser(ts', root, v))
  {
    WalkPos(ts, pos, root, v);
    assert TableOk(ts, pos, root) && TableOk(ts, pos, pdpt);
    LinkedDown(ts, pd, v.i2, f, c, root, v.i4);
    LinkedDown(ts, pd, v.i2, f, c, pdpt, v.i3);
    LinkedStep(ts, pd, v.i2, f, c);
  }
}
