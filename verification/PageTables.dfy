/**
  Four-level page tables: entries, the hardware walk, and the shape that every
  table built by the mapper has.
*/
module PageTables {
  import opened Basics
  import opened PowersOfTwo

  const ENTRIES := 512
  /** First entry of the shared kernel half of a top-level table. */
  const KERNEL_HALF := 256
  const FRAME_LIMIT := 0x100_0000_0000

  // ---- entries -----------------------------------------------------------------

  /** The flags of an entry, as named in the source. */
  datatype Flags = Flags(present: bool, writable: bool, user: bool, huge: bool, isGlobal: bool, noExecute: bool)

  const NO_FLAGS := Flags(false, false, false, false, false, false)
  const PRESENT := NO_FLAGS.(present := true)
  const WRITABLE := NO_FLAGS.(writable := true)
  const USER := NO_FLAGS.(user := true)

  function Union(f: Flags, g: Flags): (r: Flags)
  {
    Flags(f.present || g.present, f.writable || g.writable, f.user || g.user,
          f.huge || g.huge, f.isGlobal || g.isGlobal, f.noExecute || g.noExecute)
  }

  predicate Contains(f: Flags, g: Flags)
  {
    Union(f, g) == f
  }

  /** An entry: flags and the frame number (word bits 12..51). */
  datatype Entry = Entry(flags: Flags, frame: nat)

  const EMPTY := Entry(NO_FLAGS, 0)

  /** The masked physical address joined with the flags. */
  function SetAddr(phys: nat, flags: Flags): (e: Entry)
  {
    Entry(flags, phys / PAGE_SIZE % FRAME_LIMIT)
  }

  function AddFlags(e: Entry, flags: Flags): (r: Entry)
  {
    Entry(Union(e.flags, flags), e.frame)
  }

  predicate IsPresent(e: Entry) { e.flags.present }

  predicate IsHuge(e: Entry) { e.flags.huge }

  predicate HasUser(e: Entry) { e.flags.user }

  predicate HasWrite(e: Entry) { e.flags.writable }

  /** Flags of an intermediate entry for a mapping with the given flags. */
  function TableFlags(flags: Flags): (r: Flags)
  {
    if Contains(flags, USER) then Union(Union(PRESENT, WRITABLE), USER) else Union(PRESENT, WRITABLE)
  }

  // ---- the walk ------------------------------------------------------------------

  /** A virtual page as its four table indices. */
  datatype VPage = VPage(i4: nat, i3: nat, i2: nat, i1: nat)

  predicate ValidPage(v: VPage)
  {
    v.i4 < ENTRIES && v.i3 < ENTRIES && v.i2 < ENTRIES && v.i1 < ENTRIES
  }

  /** The indices the mapper computes by shifting and masking a virtual address. */
  function PageOf(virt: nat): (v: VPage)
    ensures ValidPage(v)
  {
    VPage(virt / 0x80_0000_0000 % ENTRIES, virt / 0x4000_0000 % ENTRIES, virt / 0x20_0000 % ENTRIES, virt / PAGE_SIZE % ENTRIES)
  }

  /** The four indices are the base-512 digits of the page number, low 36 bits. */
  lemma PageOfDigits(virt: nat)
    ensures var v := PageOf(virt);
            ((v.i4 * ENTRIES + v.i3) * ENTRIES + v.i2) * ENTRIES + v.i1 == virt / PAGE_SIZE % 0x10_0000_0000
  {
    var n := virt / PAGE_SIZE;
    var a := n / 512;
    var b := a / 512;
    var c := b / 512;
    assert virt / 0x20_0000 == a && virt / 0x4000_0000 == b && virt / 0x80_0000_0000 == c;
    var low := ((c % 512 * 512 + b % 512) * 512 + a % 512) * 512 + n % 512;
    assert n == 0x10_0000_0000 * (c / 512) + low;
    RemainderUnique(n, 0x10_0000_0000, c / 512, low);
  }

  /** The kernel half is the upper half of the 48-bit address space. */
  lemma KernelHalfIsUpper(virt: nat)
    ensures PageOf(virt).i4 >= KERNEL_HALF <==> virt / 0x8000_0000_0000 % 2 == 1
    ensures KERNEL_VMA <= virt < 0x1_0000_0000_0000_0000 ==> PageOf(virt).i4 >= KERNEL_HALF
    ensures virt < 0x8000_0000_0000 ==> PageOf(virt).i4 < KERNEL_HALF
  {
    var n := virt / 0x80_0000_0000;
    assert virt / 0x8000_0000_0000 == n / 256;
    UpperDigit(n / 256, n % 256);
  }

  lemma UpperDigit(a: nat, b: nat)
    requires b < 256
    ensures (256 * a + b) % 512 >= 256 <==> a % 2 == 1
  {
    assert 256 * a + b == 512 * (a / 2) + (256 * (a % 2) + b);
  }

  /** Page tables by frame number. */
  type Tables = map<nat, seq<Entry>>

  /** One step of the walk: through entry `i` of table `t`, if present. */
  function Down(ts: Tables, t: Option<nat>, i: nat): (r: Option<nat>)
  {
    if t.Some? && t.value in ts && i < |ts[t.value]| && IsPresent(ts[t.value][i])
    then Some(ts[t.value][i].frame) else None
  }

  function Level3(ts: Tables, root: nat, v: VPage): (r: Option<nat>) { Down(ts, Some(root), v.i4) }

  function Level2(ts: Tables, root: nat, v: VPage): (r: Option<nat>) { Down(ts, Level3(ts, root, v), v.i3) }

  function Level1(ts: Tables, root: nat, v: VPage): (r: Option<nat>) { Down(ts, Level2(ts, root, v), v.i2) }

  function LeafIn(ts: Tables, t: Option<nat>, i: nat): (r: Option<Entry>)
  {
    if t.Some? && t.value in ts && i < |ts[t.value]| && IsPresent(ts[t.value][i])
    then Some(ts[t.value][i]) else None
  }

  /** The translation of a page: the leaf entry four levels down from the root, if all are present. */
  function Leaf(ts: Tables, root: nat, v: VPage): (r: Option<Entry>)
  {
    LeafIn(ts, Level1(ts, root, v), v.i1)
  }

  // ---- the shape -----------------------------------------------------------------

  /** Whose address space a table serves: one root's lower half, or the shared kernel half. */
  datatype Owner = OfRoot(root: nat) | OfKernel

  /**
    Where a table hangs: its owner, the indices that lead to it, and its parent
    table. Tables right below a root may be shared between roots; no parent is
    recorded for those.
  */
  datatype Pos = Pos(owner: Owner, prefix: seq<nat>, parent: Option<nat>)

  function RootPos(r: nat): (p: Pos) { Pos(OfRoot(r), [], None) }

  function OwnerOf(root: nat, i4: nat): (o: Owner)
  {
    if i4 < KERNEL_HALF then OfRoot(root) else OfKernel
  }

  /** The position of the child at index `i` of table `t`. */
  function ChildPos(pos: Pos, t: nat, i: nat): (p: Pos)
  {
    if pos.prefix == [] then Pos(OwnerOf(t, i), [i], None) else Pos(pos.owner, pos.prefix + [i], Some(t))
  }

  /** An intermediate entry points to a table at the right place, writable and not huge. */
  predicate LinkOk(ts: Tables, pos: map<nat, Pos>, t: nat, i: nat)
    requires t in ts && t in pos && i < |ts[t]|
  {
    var e := ts[t][i];
    IsPresent(e) ==>
      e.frame in ts && e.frame in pos && pos[e.frame] == ChildPos(pos[t], t, i) && HasWrite(e) && !IsHuge(e)
  }

  ghost predicate TableOk(ts: Tables, pos: map<nat, Pos>, t: nat)
    requires t in ts && t in pos
  {
    && |ts[t]| == ENTRIES && |pos[t].prefix| <= 3
    && (pos[t].prefix == [] ==> pos[t] == RootPos(t))
    && (|pos[t].prefix| < 3 ==> forall i {:trigger LinkOk(ts, pos, t, i)} :: 0 <= i < ENTRIES ==> LinkOk(ts, pos, t, i))
  }

  /** Every table hangs at exactly one place: the tables form a forest with a shared kernel half. */
  ghost predicate Forest(ts: Tables, pos: map<nat, Pos>)
  {
    ts.Keys == pos.Keys && forall t {:trigger TableOk(ts, pos, t)} :: t in ts ==> TableOk(ts, pos, t)
  }

  ghost predicate IsRoot(pos: map<nat, Pos>, r: nat)
  {
    r in pos && pos[r] == RootPos(r)
  }

  lemma DownPos(ts: Tables, pos: map<nat, Pos>, t: nat, i: nat)
    requires Forest(ts, pos) && t in ts && |pos[t].prefix| < 3 && i < ENTRIES
    ensures |ts[t]| == ENTRIES
    ensures Down(ts, Some(t), i).Some? ==>
              var c := Down(ts, Some(t), i).value;
              c in ts && c in pos && pos[c] == ChildPos(pos[t], t, i)
  {
    assert TableOk(ts, pos, t) && LinkOk(ts, pos, t, i);
  }

  /** The tables of a walk sit at the positions the indices spell out. */
  lemma WalkPos(ts: Tables, pos: map<nat, Pos>, root: nat, v: VPage)
    requires Forest(ts, pos) && IsRoot(pos, root) && ValidPage(v)
    ensures Level3(ts, root, v).Some? ==>
              var t := Level3(ts, root, v).value; t in ts && pos[t] == Pos(OwnerOf(root, v.i4), [v.i4], None)
    ensures Level2(ts, root, v).Some? ==>
              var t := Level2(ts, root, v).value; t in ts && pos[t] == Pos(OwnerOf(root, v.i4), [v.i4, v.i3], Level3(ts, root, v))
    ensures Level1(ts, root, v).Some? ==>
              var t := Level1(ts, root, v).value; t in ts && pos[t] == Pos(OwnerOf(root, v.i4), [v.i4, v.i3, v.i2], Level2(ts, root, v))
  {
    DownPos(ts, pos, root, v.i4);
    if Level3(ts, root, v).Some? {
      DownPos(ts, pos, Level3(ts, root, v).value, v.i3);
      assert [v.i4] + [v.i3] == [v.i4, v.i3];
    }
    if Level2(ts, root, v).Some? {
      DownPos(ts, pos, Level2(ts, root, v).value, v.i2);
      assert [v.i4, v.i3] + [v.i2] == [v.i4, v.i3, v.i2];
    }
  }

  /**
    Two walks reach the same leaf only for the same page, and only if they already
    met in the table below the top level; below the kernel half that means the same root.
  */
  lemma LeafIsUnique(ts: Tables, pos: map<nat, Pos>, r: nat, v: VPage, r': nat, v': VPage)
    requires Forest(ts, pos) && IsRoot(pos, r) && IsRoot(pos, r') && ValidPage(v) && ValidPage(v')
    requires Level1(ts, r, v).Some? && Level1(ts, r, v) == Level1(ts, r', v') && v.i1 == v'.i1
    ensures v == v' && Level3(ts, r, v) == Level3(ts, r', v) && Level2(ts, r, v) == Level2(ts, r', v)
    ensures v.i4 < KERNEL_HALF ==> r == r'
  {
    WalkPos(ts, pos, r, v);
    WalkPos(ts, pos, r', v');
    var p, q := [v.i4, v.i3, v.i2], [v'.i4, v'.i3, v'.i2];
    assert p == q;
    assert p[0] == q[0] && p[1] == q[1] && p[2] == q[2];
  }
}
