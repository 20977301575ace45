/** What the mapper's writes do to translations and access rights. */
module PageUpdates {
  import opened Basics
  import opened PageTables

  function ZeroTable(): (t: seq<Entry>)
    ensures |t| == ENTRIES && forall i :: 0 <= i < ENTRIES ==> t[i] == EMPTY
  {
    seq(ENTRIES, _ => EMPTY)
  }

  // ---- linking a child table -------------------------------------------------------

  /** Entry `i` of table `t` leads to `c` already, or `c` is a frame not used as a table yet. */
  predicate CanLink(ts: Tables, t: nat, i: nat, c: nat)
  {
    t in ts && i < |ts[t]| && (if IsPresent(ts[t][i]) then c == ts[t][i].frame else c !in ts && c < FRAME_LIMIT)
  }

  /** The tables after following or creating the child of entry `i` of table `t`. */
  function Linked(ts: Tables, t: nat, i: nat, flags: Flags, c: nat): (r: Tables)
    requires CanLink(ts, t, i, c)
  {
    if IsPresent(ts[t][i]) then ts[t := ts[t][i := AddFlags(ts[t][i], flags)]]
    else ts[t := ts[t][i := SetAddr(c * PAGE_SIZE, flags)]][c := ZeroTable()]
  }

  function LinkedPos(ts: Tables, pos: map<nat, Pos>, t: nat, i: nat, c: nat): (r: map<nat, Pos>)
    requires CanLink(ts, t, i, c) && t in pos
  {
    if IsPresent(ts[t][i]) then pos else pos[c := ChildPos(pos[t], t, i)]
  }

  predicate IsTableFlags(f: Flags)
  {
    f == Union(PRESENT, WRITABLE) || f == Union(Union(PRESENT, WRITABLE), USER)
  }

  lemma FlagFacts(e: Entry, f: Flags)
    requires IsTableFlags(f)
    ensures IsPresent(AddFlags(e, f)) && HasWrite(AddFlags(e, f)) && IsHuge(AddFlags(e, f)) == IsHuge(e)
    ensures HasUser(AddFlags(e, f)) <==> HasUser(e) || Contains(f, USER)
    ensures forall phys: nat :: var d := SetAddr(phys, f); IsPresent(d) && HasWrite(d) && !IsHuge(d) && HasUser(d) == Contains(f, USER)
  {
  }

  lemma LinkedForest(ts: Tables, pos: map<nat, Pos>, t: nat, i: nat, f: Flags, c: nat)
    requires Forest(ts, pos) && CanLink(ts, t, i, c) && IsTableFlags(f) && |pos[t].prefix| < 3
    ensures Forest(Linked(ts, t, i, f, c), LinkedPos(ts, pos, t, i, c))
  {
    var ts', pos' := Linked(ts, t, i, f, c), LinkedPos(ts, pos, t, i, c);
    assert TableOk(ts, pos, t) && LinkOk(ts, pos, t, i);
    FlagFacts(ts[t][i], f);
    forall x | x in ts' ensures TableOk(ts', pos', x) {
      if x in ts {
        assert TableOk(ts, pos, x);
        if |pos'[x].prefix| < 3 {
          forall j | 0 <= j < ENTRIES ensures LinkOk(ts', pos', x, j) {
            assert LinkOk(ts, pos, x, j);
            assert (x, j) != (t, i) ==> ts'[x][j] == ts[x][j];
          }
        }
      } else {
        forall j | 0 <= j < ENTRIES ensures LinkOk(ts', pos', x, j) {
          assert ts'[x][j] == EMPTY;
        }
      }
    }
  }

  /** A step that worked before leads to the same place, with at least the same flags. */
  lemma LinkedDown(ts: Tables, t: nat, i: nat, f: Flags, c: nat, x: nat, j: nat)
    requires CanLink(ts, t, i, c) && IsTableFlags(f) && x in ts && |ts[x]| == ENTRIES && j < ENTRIES
    ensures var ts' := Linked(ts, t, i, f, c);
            && x in ts' && |ts'[x]| == ENTRIES
            && (Down(ts, Some(x), j).Some? ==>
                  Down(ts', Some(x), j) == Down(ts, Some(x), j) && (HasUser(ts[x][j]) ==> HasUser(ts'[x][j])))
            && (Down(ts, Some(x), j).None? ==> Down(ts', Some(x), j).None? || Down(ts', Some(x), j) == Some(c))
            && (Down(ts, Some(x), j).None? && Down(ts', Some(x), j).Some? ==> ts'[c] == ZeroTable() && c !in ts)
            && (x != t || j != i ==> ts'[x][j] == ts[x][j])
  {
    FlagFacts(ts[t][i], f);
  }

  /** After linking, the step through `(t, i)` leads to `c` and carries the table flags. */
  lemma LinkedStep(ts: Tables, t: nat, i: nat, f: Flags, c: nat)
    requires CanLink(ts, t, i, c) && IsTableFlags(f)
    ensures var ts' := Linked(ts, t, i, f, c);
            Down(ts', Some(t), i) == Some(c) && t in ts' && i < |ts'[t]| && (Contains(f, USER) ==> HasUser(ts'[t][i]))
  {
    FlagFacts(ts[t][i], f);
    assert c * PAGE_SIZE / PAGE_SIZE == c;
  }

  /** Old and new walk agree, or the new one has just entered an empty table. */
  predicate Follows(ts: Tables, ts': Tables, a: Option<nat>, b: Option<nat>)
  {
    a == b || (a.None? && b.Some? && b.value in ts' && b.value !in ts && ts'[b.value] == ZeroTable())
  }

  lemma FollowsDown(ts: Tables, pos: map<nat, Pos>, t: nat, i: nat, f: Flags, c: nat, a: Option<nat>, b: Option<nat>, j: nat)
    requires Forest(ts, pos) && CanLink(ts, t, i, c) && IsTableFlags(f) && j < ENTRIES
    requires Follows(ts, Linked(ts, t, i, f, c), a, b) && (a.Some? ==> a.value in ts)
    ensures Follows(ts, Linked(ts, t, i, f, c), Down(ts, a, j), Down(Linked(ts, t, i, f, c), b, j))
  {
    if a.Some? {
      assert TableOk(ts, pos, a.value);
      LinkedDown(ts, t, i, f, c, a.value, j);
    }
  }

  lemma LinkedWalk(ts: Tables, pos: map<nat, Pos>, t: nat, i: nat, f: Flags, c: nat, r: nat, v: VPage)
    requires Forest(ts, pos) && CanLink(ts, t, i, c) && IsTableFlags(f) && IsRoot(pos, r) && ValidPage(v)
    ensures var ts' := Linked(ts, t, i, f, c);
            && Follows(ts, ts', Level3(ts, r, v), Level3(ts', r, v))
            && Follows(ts, ts', Level2(ts, r, v), Level2(ts', r, v))
            && Follows(ts, ts', Level1(ts, r, v), Level1(ts', r, v))
  {
    var ts' := Linked(ts, t, i, f, c);
    WalkPos(ts, pos, r, v);
    FollowsDown(ts, pos, t, i, f, c, Some(r), Some(r), v.i4);
    FollowsDown(ts, pos, t, i, f, c, Level3(ts, r, v), Level3(ts', r, v), v.i3);
    FollowsDown(ts, pos, t, i, f, c, Level2(ts, r, v), Level2(ts', r, v), v.i2);
  }

  /** Linking a child table changes no translation of any address space. */
  lemma LinkedLeaf(ts: Tables, pos: map<nat, Pos>, t: nat, i: nat, f: Flags, c: nat, r: nat, v: VPage)
    requires Forest(ts, pos) && CanLink(ts, t, i, c) && IsTableFlags(f) && |pos[t].prefix| < 3
    requires IsRoot(pos, r) && ValidPage(v)
    ensures Leaf(Linked(ts, t, i, f, c), r, v) == Leaf(ts, r, v)
  {
    LinkedWalk(ts, pos, t, i, f, c, r, v);
    WalkPos(ts, pos, r, v);
    var a := Level1(ts, r, v);
    if a.Some? {
      assert TableOk(ts, pos, a.value);
      LinkedDown(ts, t, i, f, c, a.value, v.i1);
      assert a.value != t;
    }
  }

  // ---- access rights -----------------------------------------------------------------

  /** All three intermediate entries of a complete walk admit user accesses. */
  predicate PathUser(ts: Tables, r: nat, v: VPage)
  {
    && Level1(ts, r, v).Some?
    && HasUser(ts[r][v.i4]) && HasUser(ts[Level3(ts, r, v).value][v.i3]) && HasUser(ts[Level2(ts, r, v).value][v.i2])
  }

  /** User accesses are allowed: the user bit is set at every level of the walk. */
  predicate UserAccessible(ts: Tables, r: nat, v: VPage)
  {
    Leaf(ts, r, v).Some? && HasUser(Leaf(ts, r, v).value) && PathUser(ts, r, v)
  }

  /** A user leaf has the user bit on every level above it. */
  predicate UserClosed(ts: Tables, r: nat, v: VPage)
  {
    Leaf(ts, r, v).Some? && HasUser(Leaf(ts, r, v).value) ==> PathUser(ts, r, v)
  }

  lemma LinkedPathUser(ts: Tables, pos: map<nat, Pos>, t: nat, i: nat, f: Flags, c: nat, r: nat, v: VPage)
    requires Forest(ts, pos) && CanLink(ts, t, i, c) && IsTableFlags(f) && IsRoot(pos, r) && ValidPage(v)
    requires PathUser(ts, r, v)
    ensures PathUser(Linked(ts, t, i, f, c), r, v)
  {
    WalkPos(ts, pos, r, v);
    LinkedWalk(ts, pos, t, i, f, c, r, v);
    assert TableOk(ts, pos, r) && TableOk(ts, pos, Level3(ts, r, v).value) && TableOk(ts, pos, Level2(ts, r, v).value);
    LinkedDown(ts, t, i, f, c, r, v.i4);
    LinkedDown(ts, t, i, f, c, Level3(ts, r, v).value, v.i3);
    LinkedDown(ts, t, i, f, c, Level2(ts, r, v).value, v.i2);
  }

  /** Linking keeps the closure of user rights everywhere. */
  lemma LinkedUserClosed(ts: Tables, pos: map<nat, Pos>, t: nat, i: nat, f: Flags, c: nat, r: nat, v: VPage)
    requires Forest(ts, pos) && CanLink(ts, t, i, c) && IsTableFlags(f) && |pos[t].prefix| < 3
    requires IsRoot(pos, r) && ValidPage(v) && UserClosed(ts, r, v)
    ensures UserClosed(Linked(ts, t, i, f, c), r, v)
  {
    LinkedLeaf(ts, pos, t, i, f, c, r, v);
    if PathUser(ts, r, v) { LinkedPathUser(ts, pos, t, i, f, c, r, v); }
  }

  // ---- writing a leaf ------------------------------------------------------------------

  function WithLeaf(ts: Tables, t: nat, i: nat, e: Entry): (r: Tables)
    requires t in ts && i < |ts[t]|
  {
    ts[t := ts[t][i := e]]
  }

  lemma WithLeafForest(ts: Tables, pos: map<nat, Pos>, t: nat, i: nat, e: Entry)
    requires Forest(ts, pos) && t in ts && i < |ts[t]| && |pos[t].prefix| == 3
    ensures Forest(WithLeaf(ts, t, i, e), pos)
  {
    var ts' := WithLeaf(ts, t, i, e);
    forall x | x in ts' ensures TableOk(ts', pos, x) {
      assert TableOk(ts, pos, x);
      if |pos[x].prefix| < 3 {
        forall j | 0 <= j < ENTRIES ensures LinkOk(ts', pos, x, j) { assert LinkOk(ts, pos, x, j); }
      }
    }
  }

  /** A leaf write changes exactly the walks that end at that leaf. */
  lemma WithLeafWalk(ts: Tables, pos: map<nat, Pos>, t: nat, i: nat, e: Entry, r: nat, v: VPage)
    requires Forest(ts, pos) && t in ts && i < |ts[t]| && |pos[t].prefix| == 3
    requires IsRoot(pos, r) && ValidPage(v)
    ensures var ts' := WithLeaf(ts, t, i, e);
            && Level3(ts', r, v) == Level3(ts, r, v) && Level2(ts', r, v) == Level2(ts, r, v)
            && Level1(ts', r, v) == Level1(ts, r, v) && PathUser(ts', r, v) == PathUser(ts, r, v)
            && (!(Level1(ts, r, v) == Some(t) && v.i1 == i) ==> Leaf(ts', r, v) == Leaf(ts, r, v))
            && (Level1(ts, r, v) == Some(t) && v.i1 == i && IsPresent(e) ==> Leaf(ts', r, v) == Some(e))
  {
    WalkPos(ts, pos, r, v);
  }

  /** Every intermediate entry is writable, so write access is decided by the leaf alone. */
  lemma WriteRightIsLeafs(ts: Tables, pos: map<nat, Pos>, r: nat, v: VPage)
    requires Forest(ts, pos) && IsRoot(pos, r) && ValidPage(v) && Leaf(ts, r, v).Some?
    ensures HasWrite(ts[r][v.i4]) && HasWrite(ts[Level3(ts, r, v).value][v.i3]) && HasWrite(ts[Level2(ts, r, v).value][v.i2])
  {
    WalkPos(ts, pos, r, v);
    assert TableOk(ts, pos, r) && LinkOk(ts, pos, r, v.i4);
    var t3, t2 := Level3(ts, r, v).value, Level2(ts, r, v).value;
    assert TableOk(ts, pos, t3) && LinkOk(ts, pos, t3, v.i3);
    assert TableOk(ts, pos, t2) && LinkOk(ts, pos, t2, v.i2);
  }

  // ---- a new address space ----------------------------------------------------------------

  /** Kernel half copied, lower half empty. */
  function UserTable(kernel: seq<Entry>): (t: seq<Entry>)
    requires |kernel| == ENTRIES
    ensures |t| == ENTRIES
    ensures forall i :: 0 <= i < ENTRIES ==> t[i] == if i < KERNEL_HALF then EMPTY else kernel[i]
  {
    seq(ENTRIES, i requires 0 <= i < ENTRIES => if i < KERNEL_HALF then EMPTY else kernel[i])
  }

  function WithRoot(ts: Tables, kernel: nat, u: nat): (r: Tables)
    requires kernel in ts && |ts[kernel]| == ENTRIES
  {
    ts[u := UserTable(ts[kernel])]
  }

  lemma WithRootForest(ts: Tables, pos: map<nat, Pos>, kernel: nat, u: nat)
    requires Forest(ts, pos) && IsRoot(pos, kernel) && |ts[kernel]| == ENTRIES && u !in ts
    ensures Forest(WithRoot(ts, kernel, u), pos[u := RootPos(u)])
  {
    var ts', pos' := WithRoot(ts, kernel, u), pos[u := RootPos(u)];
    assert TableOk(ts, pos, kernel);
    forall x | x in ts' ensures TableOk(ts', pos', x) {
      if x != u {
        assert TableOk(ts, pos, x);
        if |pos[x].prefix| < 3 {
          forall j | 0 <= j < ENTRIES ensures LinkOk(ts', pos', x, j) { assert LinkOk(ts, pos, x, j); }
        }
      } else {
        forall j | 0 <= j < ENTRIES ensures LinkOk(ts', pos', x, j) {
          assert LinkOk(ts, pos, kernel, j);
        }
      }
    }
  }

  /** Existing address spaces are untouched; the new one sees the kernel half and nothing else. */
  lemma WithRootLeaf(ts: Tables, pos: map<nat, Pos>, kernel: nat, u: nat, r: nat, v: VPage)
    requires Forest(ts, pos) && IsRoot(pos, kernel) && |ts[kernel]| == ENTRIES && u !in ts && ValidPage(v)
    ensures IsRoot(pos, r) ==> var ts' := WithRoot(ts, kernel, u);
              Leaf(ts', r, v) == Leaf(ts, r, v) && PathUser(ts', r, v) == PathUser(ts, r, v)
    ensures var ts' := WithRoot(ts, kernel, u);
            if v.i4 < KERNEL_HALF then Leaf(ts', u, v) == None
            else Leaf(ts', u, v) == Leaf(ts, kernel, v) && PathUser(ts', u, v) == PathUser(ts, kernel, v)
  {
    if IsRoot(pos, r) { WalkPos(ts, pos, r, v); }
    WalkPos(ts, pos, kernel, v);
  }

  /** A root with nothing mapped joins the forest and changes no translation. */
  lemma EmptyRoot(ts: Tables, pos: map<nat, Pos>, u: nat)
    requires Forest(ts, pos) && u !in ts
    ensures Forest(ts[u := ZeroTable()], pos[u := RootPos(u)])
  {
    var ts', pos' := ts[u := ZeroTable()], pos[u := RootPos(u)];
    forall x | x in ts' ensures TableOk(ts', pos', x) {
      if x != u {
        assert TableOk(ts, pos, x);
        if |pos[x].prefix| < 3 {
          forall j | 0 <= j < ENTRIES ensures LinkOk(ts', pos', x, j) { assert LinkOk(ts, pos, x, j); }
        }
      } else {
        forall j | 0 <= j < ENTRIES ensures LinkOk(ts', pos', x, j) { assert ts'[x][j] == EMPTY; }
      }
    }
  }

  lemma EmptyRootLeaf(ts: Tables, pos: map<nat, Pos>, u: nat, r: nat, v: VPage)
    requires Forest(ts, pos) && u !in ts && ValidPage(v)
    ensures Leaf(ts[u := ZeroTable()], u, v) == None
    ensures IsRoot(pos, r) ==> var ts' := ts[u := ZeroTable()];
              Leaf(ts', r, v) == Leaf(ts, r, v) && PathUser(ts', r, v) == PathUser(ts, r, v)
  {
    assert ZeroTable()[v.i4] == EMPTY;
    if IsRoot(pos, r) { WalkPos(ts, pos, r, v); }
  }
}
