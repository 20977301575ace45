/**
  Page-table entries as the 64-bit words they are stored in, and the proof that the operations on
  entries are the masking and or-ing of those words.
*/
module EntryWords {
  import opened PowersOfTwo
  import opened Basics
  import opened PageTables

  // ---- bitwise operations on numbers -------------------------------------------------------

  function Or(a: nat, b: nat): (r: nat)
    decreases a + b
  {
    if a == 0 && b == 0 then 0
    else 2 * Or(a / 2, b / 2) + (if a % 2 == 1 || b % 2 == 1 then 1 else 0)
  }

  function And(a: nat, b: nat): (r: nat)
    decreases a + b
  {
    if a == 0 && b == 0 then 0
    else 2 * And(a / 2, b / 2) + (if a % 2 == 1 && b % 2 == 1 then 1 else 0)
  }

  lemma {:induction false} WithZero(a: nat)
    ensures Or(a, 0) == a == Or(0, a) && And(a, 0) == 0 == And(0, a)
  {
    if a > 0 { WithZero(a / 2); }
  }

  /** One bit in front of the rest. */
  function Cons(b: bool, x: nat): (r: nat) { 2 * x + if b then 1 else 0 }

  lemma ConsBits(b: bool, x: nat, c: bool, y: nat)
    ensures Or(Cons(b, x), Cons(c, y)) == Cons(b || c, Or(x, y))
    ensures And(Cons(b, x), Cons(c, y)) == Cons(b && c, And(x, y))
  {
    assert Cons(b, x) / 2 == x && Cons(c, y) / 2 == y;
  }

  /** `x` above `k` low bits given by `a`. */
  function Above(k: nat, a: nat, x: nat): (r: nat)
  {
    a + Pow2(k) * x
  }

  lemma AboveStep(k: nat, a: nat, x: nat)
    requires k > 0
    ensures Above(k, a, x) == Cons(a % 2 == 1, Above(k - 1, a / 2, x))
  {
    assert (2 * Pow2(k - 1)) * x == 2 * (Pow2(k - 1) * x);
  }

  /** The low `k` bits and the rest are combined independently. */
  lemma {:induction false} Split(k: nat, a: nat, x: nat, b: nat, y: nat)
    requires a < Pow2(k) && b < Pow2(k)
    ensures Or(Above(k, a, x), Above(k, b, y)) == Above(k, Or(a, b), Or(x, y))
    ensures And(Above(k, a, x), Above(k, b, y)) == Above(k, And(a, b), And(x, y))
    ensures Or(a, b) < Pow2(k) && And(a, b) < Pow2(k)
    decreases k
  {
    if k == 0 {
      assert Pow2(0) == 1;
    } else {
      Split(k - 1, a / 2, x, b / 2, y);
      AboveStep(k, a, x);
      AboveStep(k, b, y);
      ConsBits(a % 2 == 1, Above(k - 1, a / 2, x), b % 2 == 1, Above(k - 1, b / 2, y));
      ConsBits(a % 2 == 1, a / 2, b % 2 == 1, b / 2);
      assert a == Cons(a % 2 == 1, a / 2) && b == Cons(b % 2 == 1, b / 2);
      AboveCons(k, a % 2 == 1 || b % 2 == 1, Or(a / 2, b / 2), Or(x, y));
      AboveCons(k, a % 2 == 1 && b % 2 == 1, And(a / 2, b / 2), And(x, y));
    }
  }

  lemma AboveCons(k: nat, b: bool, a: nat, x: nat)
    requires k > 0
    ensures Above(k, Cons(b, a), x) == Cons(b, Above(k - 1, a, x))
  {
    AboveStep(k, Cons(b, a), x);
  }

  lemma {:induction false} AllOnes(k: nat, a: nat)
    requires a < Pow2(k)
    ensures And(a, Pow2(k) - 1) == a
    decreases k
  {
    if k > 0 {
      AllOnes(k - 1, a / 2);
      assert (Pow2(k) - 1) / 2 == Pow2(k - 1) - 1;
    }
  }

  // ---- entries as words --------------------------------------------------------------------------

  const ADDR_MASK := 0x000F_FFFF_FFFF_F000

  /** Word bits 0..11: present 0, writable 1, user 2, huge 7, global 8. */
  function LowBits(f: Flags): (w: nat)
  {
    Cons(f.present, Cons(f.writable, Cons(f.user, UpperLowBits(f))))
  }

  /** Word bits 3..11. */
  function UpperLowBits(f: Flags): (w: nat)
  {
    Cons(false, Cons(false, Cons(false, Cons(false, Cons(f.huge, Cons(f.isGlobal, 0))))))
  }

  /** Word bits 52..63: no-execute 63. */
  function HighBits(f: Flags): (w: nat)
  {
    if f.noExecute then 0x800 else 0
  }

  /** The bits of a set of flags. */
  function FlagWord(f: Flags): (w: nat)
  {
    LowBits(f) + 0x10_0000_0000_0000 * HighBits(f)
  }

  /** The same, field by field. */
  function FlagFields(f: Flags): (w: nat)
  {
    Above(12, LowBits(f), Above(40, 0, HighBits(f)))
  }

  /** The word an entry is stored as. */
  function ToWord(e: Entry): (w: nat)
  {
    Above(12, LowBits(e.flags), Above(40, e.frame, HighBits(e.flags)))
  }

  lemma Widths()
    ensures Pow2(12) == PAGE_SIZE && Pow2(40) == FRAME_LIMIT
  {
    assert Pow2(8) == 0x100;
    assert Pow2(16) == 0x1_0000;
    assert Pow2(24) == 0x100_0000;
    assert Pow2(32) == 0x1_0000_0000;
  }

  /** The bit positions are those of the source's constants. */
  lemma FlagPositions()
    ensures FlagWord(PRESENT) == 1 && FlagWord(WRITABLE) == 2 && FlagWord(USER) == 4
    ensures FlagWord(NO_FLAGS.(huge := true)) == 0x80 && FlagWord(NO_FLAGS.(isGlobal := true)) == 0x100
    ensures FlagWord(NO_FLAGS.(noExecute := true)) == 0x8000_0000_0000_0000
  {
    assert UpperLowBits(NO_FLAGS) == 0;
    assert UpperLowBits(NO_FLAGS.(huge := true)) == 16;
    assert UpperLowBits(NO_FLAGS.(isGlobal := true)) == 32;
  }

  lemma FlagWordIs(f: Flags)
    ensures FlagWord(f) == FlagFields(f)
  {
    Widths();
  }

  lemma FlagBitsOr(f: Flags, g: Flags)
    ensures Or(LowBits(f), LowBits(g)) == LowBits(Union(f, g)) && LowBits(f) < PAGE_SIZE
    ensures Or(HighBits(f), HighBits(g)) == HighBits(Union(f, g))
  {
    var a3, b3 := UpperLowBits(f), UpperLowBits(g);
    var a2, b2 := Cons(f.user, a3), Cons(g.user, b3);
    var a1, b1 := Cons(f.writable, a2), Cons(g.writable, b2);
    UpperLowBitsOr(f, g);
    ConsBits(f.user, a3, g.user, b3);
    ConsBits(f.writable, a2, g.writable, b2);
    ConsBits(f.present, a1, g.present, b1);
    HighBitsOr(f, g);
  }

  lemma UpperLowBitsOr(f: Flags, g: Flags)
    ensures Or(UpperLowBits(f), UpperLowBits(g)) == UpperLowBits(Union(f, g)) && UpperLowBits(f) < 64
  {
    var a8, b8 := Cons(f.isGlobal, 0), Cons(g.isGlobal, 0);
    var a7, b7 := Cons(f.huge, a8), Cons(g.huge, b8);
    var a6, b6 := Cons(false, a7), Cons(false, b7);
    var a5, b5 := Cons(false, a6), Cons(false, b6);
    var a4, b4 := Cons(false, a5), Cons(false, b5);
    ConsBits(f.isGlobal, 0, g.isGlobal, 0);
    ConsBits(f.huge, a8, g.huge, b8);
    ConsBits(false, a7, false, b7);
    ConsBits(false, a6, false, b6);
    ConsBits(false, a5, false, b5);
    ConsBits(false, a4, false, b4);
  }

  lemma ConsIdentifies(b: bool, x: nat, c: bool, y: nat)
    requires Cons(b, x) == Cons(c, y)
    ensures b == c && x == y
  {
  }

  lemma LowBitsIdentify(f: Flags, g: Flags)
    requires LowBits(f) == LowBits(g) && HighBits(f) == HighBits(g)
    ensures f == g
  {
    ConsIdentifies(f.present, Cons(f.writable, Cons(f.user, UpperLowBits(f))), g.present, Cons(g.writable, Cons(g.user, UpperLowBits(g))));
    ConsIdentifies(f.writable, Cons(f.user, UpperLowBits(f)), g.writable, Cons(g.user, UpperLowBits(g)));
    ConsIdentifies(f.user, UpperLowBits(f), g.user, UpperLowBits(g));
  }

  lemma HighBitsOr(f: Flags, g: Flags)
    ensures Or(HighBits(f), HighBits(g)) == HighBits(Union(f, g))
  {
    WithZero(0x800);
    OrSelf(0x800);
  }

  lemma {:induction false} OrSelf(a: nat)
    ensures Or(a, a) == a
  {
    if a > 0 { OrSelf(a / 2); }
  }

  /** Masking a word with the address mask keeps exactly the frame bits. */
  lemma Masked(low: nat, frame: nat, high: nat)
    requires low < PAGE_SIZE && frame < FRAME_LIMIT
    ensures And(Above(12, low, Above(40, frame, high)), ADDR_MASK) == Above(12, 0, Above(40, frame, 0))
  {
    Widths();
    assert ADDR_MASK == Above(12, 0, Above(40, FRAME_LIMIT - 1, 0));
    Split(12, low, Above(40, frame, high), 0, Above(40, FRAME_LIMIT - 1, 0));
    Split(40, frame, high, FRAME_LIMIT - 1, 0);
    AllOnes(40, frame);
    WithZero(low);
    WithZero(high);
  }

  lemma PhysFields(phys: nat)
    ensures phys == Above(12, phys % PAGE_SIZE, Above(40, phys / PAGE_SIZE % FRAME_LIMIT, phys / PAGE_SIZE / FRAME_LIMIT))
  {
    Widths();
  }

  /** Joining a frame with flags, field by field. */
  lemma FrameWithFlags(frame: nat, low: nat, high: nat)
    requires frame < FRAME_LIMIT && low < PAGE_SIZE
    ensures Or(Above(12, 0, Above(40, frame, 0)), Above(12, low, Above(40, 0, high))) == Above(12, low, Above(40, frame, high))
  {
    Widths();
    Split(12, 0, Above(40, frame, 0), low, Above(40, 0, high));
    Split(40, frame, 0, 0, high);
    WithZero(frame);
    WithZero(low);
    WithZero(high);
  }

  lemma SetAddrFields(phys: nat, flags: Flags)
    ensures ToWord(SetAddr(phys, flags)) == Or(And(phys, ADDR_MASK), FlagFields(flags))
  {
    MaskedPhys(phys);
    FlagBitsOr(flags, flags);
    FrameWithFlags(phys / PAGE_SIZE % FRAME_LIMIT, LowBits(flags), HighBits(flags));
  }

  /** `set_addr` writes the masked address or-ed with the flags. */
  lemma SetAddrWord(phys: nat, flags: Flags)
    ensures ToWord(SetAddr(phys, flags)) == Or(And(phys, ADDR_MASK), FlagWord(flags))
  {
    SetAddrFields(phys, flags);
    FlagWordIs(flags);
  }

  lemma MaskedPhys(phys: nat)
    ensures And(phys, ADDR_MASK) == Above(12, 0, Above(40, phys / PAGE_SIZE % FRAME_LIMIT, 0))
  {
    PhysFields(phys);
    Masked(phys % PAGE_SIZE, phys / PAGE_SIZE % FRAME_LIMIT, phys / PAGE_SIZE / FRAME_LIMIT);
  }

  lemma AddFlagsFields(e: Entry, flags: Flags)
    requires e.frame < FRAME_LIMIT
    ensures ToWord(AddFlags(e, flags)) == Or(ToWord(e), FlagFields(flags))
  {
    Widths();
    FlagBitsOr(e.flags, flags);
    FlagBitsOr(flags, flags);
    Split(12, LowBits(e.flags), Above(40, e.frame, HighBits(e.flags)), LowBits(flags), Above(40, 0, HighBits(flags)));
    Split(40, e.frame, HighBits(e.flags), 0, HighBits(flags));
    WithZero(e.frame);
  }

  /** `add_flags` or-s the flags into the word. */
  lemma AddFlagsWord(e: Entry, flags: Flags)
    requires e.frame < FRAME_LIMIT
    ensures ToWord(AddFlags(e, flags)) == Or(ToWord(e), FlagWord(flags))
  {
    AddFlagsFields(e, flags);
    FlagWordIs(flags);
  }

  /** `addr` reads the frame's address back. */
  lemma AddrWord(e: Entry)
    requires e.frame < FRAME_LIMIT
    ensures And(ToWord(e), ADDR_MASK) == e.frame * PAGE_SIZE
  {
    FlagBitsOr(e.flags, e.flags);
    Masked(LowBits(e.flags), e.frame, HighBits(e.flags));
    Widths();
  }

  /** `is_present` tests bit 0 of the word. */
  lemma PresentWord(e: Entry)
    ensures IsPresent(e) <==> And(ToWord(e), 1) != 0
  {
    AboveFirst(12, e.flags.present, Cons(e.flags.writable, Cons(e.flags.user, UpperLowBits(e.flags))), Above(40, e.frame, HighBits(e.flags)));
    AndOne(ToWord(e));
  }

  lemma AboveFirst(k: nat, b: bool, x: nat, y: nat)
    requires k > 0
    ensures Above(k, Cons(b, x), y) % 2 == if b then 1 else 0
  {
    AboveCons(k, b, x, y);
  }

  lemma AndOne(w: nat)
    ensures And(w, 1) == w % 2
  {
    WithZero(w / 2);
    assert 1 / 2 == 0;
  }

  /** Different entries are stored as different words. */
  lemma WordsIdentify(e: Entry, d: Entry)
    requires e.frame < FRAME_LIMIT && d.frame < FRAME_LIMIT && ToWord(e) == ToWord(d)
    ensures e == d
  {
    Widths();
    FlagBitsOr(e.flags, d.flags);
    FlagBitsOr(d.flags, e.flags);
    RemainderUnique(ToWord(e), PAGE_SIZE, Above(40, e.frame, HighBits(e.flags)), LowBits(e.flags));
    RemainderUnique(ToWord(d), PAGE_SIZE, Above(40, d.frame, HighBits(d.flags)), LowBits(d.flags));
    RemainderUnique(Above(40, e.frame, HighBits(e.flags)), FRAME_LIMIT, HighBits(e.flags), e.frame);
    RemainderUnique(Above(40, d.frame, HighBits(d.flags)), FRAME_LIMIT, HighBits(d.flags), d.frame);
    LowBitsIdentify(e.flags, d.flags);
  }
}
