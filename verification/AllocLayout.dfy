/** Where an allocation lands inside a block: checked 64-bit address arithmetic. */
module AllocLayout {
  import opened Basics
  import opened PowersOfTwo

  const USIZE_MAX := 0xFFFF_FFFF_FFFF_FFFF
  const ISIZE_MAX := 0x7FFF_FFFF_FFFF_FFFF

  /** A size and an alignment of `2^shift` bytes. */
  datatype Layout = Layout(size: nat, shift: nat)

  /** What `Layout::from_size_align` accepts. */
  predicate ValidLayout(l: Layout)
  {
    l.shift < 64 && l.size + Pow2(l.shift) - 1 <= ISIZE_MAX
  }

  datatype Geometry = Geometry(headerSize: nat, blockShift: nat, backPtrSize: nat)

  datatype Placement = Placement(userPtr: nat, usedSize: nat)

  function CheckedAdd(a: nat, b: nat): (r: Option<nat>)
  {
    if a + b <= USIZE_MAX then Some(a + b) else None
  }

  function AlignUp(addr: nat, shift: nat): (r: Option<nat>)
  {
    match CheckedAdd(addr, Pow2(shift) - 1)
    case None => None
    case Some(v) => Some(ClearLow(v, shift))
  }

  /** At least one byte, at least `2^minShift` aligned; `None` where the source panics. */
  function NormalizeLayout(l: Layout, minShift: nat): (r: Option<Layout>)
    ensures r.Some? ==> ValidLayout(r.value) && r.value.size >= 1 && r.value.size >= l.size &&
                        r.value.shift >= minShift && r.value.shift >= l.shift
  {
    var n := Layout(Max(l.size, 1), Max(l.shift, minShift));
    if ValidLayout(n) then Some(n) else None
  }

  function UserPtrForBlock(start: nat, l: Layout, g: Geometry): (r: Option<nat>)
  {
    match CheckedAdd(start, g.headerSize)
    case None => None
    case Some(afterHeader) =>
      match CheckedAdd(afterHeader, g.backPtrSize)
      case None => None
      case Some(afterBackPtr) => AlignUp(afterBackPtr, l.shift)
  }

  /** End of the used part of a block, rounded up to the block alignment. */
  function UsedEnd(userPtr: nat, l: Layout, g: Geometry): (r: Option<nat>)
  {
    match CheckedAdd(userPtr, l.size)
    case None => None
    case Some(end) => AlignUp(end, g.blockShift)
  }

  function CheckedSub(a: nat, b: nat): (r: Option<nat>)
  {
    if a >= b then Some(a - b) else None
  }

  function AllocationForBlock(start: nat, blockSize: nat, l: Layout, g: Geometry): (r: Option<Placement>)
  {
    match UserPtrForBlock(start, l, g)
    case None => None
    case Some(userPtr) =>
      match UsedEnd(userPtr, l, g)
      case None => None
      case Some(usedEnd) =>
        match CheckedSub(usedEnd, start)
        case None => None
        case Some(usedSize) =>
          if usedSize <= blockSize then Some(Placement(userPtr, usedSize)) else None
  }

  function RequiredBlockSize(start: nat, l: Layout, g: Geometry): (r: Option<nat>)
  {
    match UserPtrForBlock(start, l, g)
    case None => None
    case Some(userPtr) =>
      match UsedEnd(userPtr, l, g)
      case None => None
      case Some(usedEnd) => CheckedSub(usedEnd, start)
  }

  // ---- normalising -------------------------------------------------------

  /** Which requests the source accepts, and what it makes of them. */
  lemma NormalizedExactly(l: Layout, minShift: nat)
    ensures NormalizeLayout(l, minShift).Some? <==> Max(l.size, 1) + Pow2(Max(l.shift, minShift)) - 1 <= ISIZE_MAX
    ensures NormalizeLayout(l, minShift).Some? ==>
              NormalizeLayout(l, minShift) == Some(Layout(Max(l.size, 1), Max(l.shift, minShift)))
  {
    var shift := Max(l.shift, minShift);
    if shift >= 64 {
      Pow2Monotone(64, shift);
      WordBits();
    }
  }

  lemma WordBits()
    ensures Pow2(64) == USIZE_MAX + 1
  {
    assert Pow2(8) == 0x100;
    assert Pow2(16) == 0x1_0000;
    assert Pow2(24) == 0x100_0000;
    assert Pow2(32) == 0x1_0000_0000;
    assert Pow2(40) == 0x100_0000_0000;
    assert Pow2(48) == 0x1_0000_0000_0000;
    assert Pow2(56) == 0x100_0000_0000_0000;
  }

  /** If any valid layout is large enough, normalising succeeds and gives the least one. */
  lemma NormalizedIsLeast(l: Layout, minShift: nat, m: Layout)
    requires ValidLayout(m) && m.size >= l.size && m.size >= 1 && m.shift >= l.shift && m.shift >= minShift
    ensures NormalizeLayout(l, minShift).Some?
    ensures NormalizeLayout(l, minShift).value.size <= m.size && NormalizeLayout(l, minShift).value.shift <= m.shift
  {
    Pow2Monotone(Max(l.shift, minShift), m.shift);
  }

  // ---- rounding up -------------------------------------------------------

  /** `AlignUp` rounds up to the alignment, when the result is representable. */
  lemma AlignUpFacts(addr: nat, shift: nat)
    ensures AlignUp(addr, shift).Some? <==> addr + Pow2(shift) - 1 <= USIZE_MAX
    ensures AlignUp(addr, shift).Some? ==>
              var v := AlignUp(addr, shift).value;
              addr <= v < addr + Pow2(shift) && Aligned(v, shift)
  {
    ClearLowFacts(addr + Pow2(shift) - 1, shift);
  }

  /** No aligned address lies between `addr` and its rounding. */
  lemma AlignUpLeast(addr: nat, shift: nat, a: nat)
    requires AlignUp(addr, shift).Some? && Aligned(a, shift) && addr <= a
    ensures AlignUp(addr, shift).value <= a
  {
    AlignUpFacts(addr, shift);
    var v := AlignUp(addr, shift).value;
    if a < v { AlignedGap(a, v, shift); }
  }

  // ---- placement ---------------------------------------------------------

  /**
    A placement is aligned as requested, keeps header, back pointer and user
    bytes apart and inside the used part, and ends on a block boundary with less
    than one block unit of padding.
  */
  predicate PlacedWell(start: nat, blockSize: nat, l: Layout, g: Geometry, p: Placement)
  {
    && Aligned(p.userPtr, l.shift)
    && start + g.headerSize + g.backPtrSize <= p.userPtr
    && p.userPtr < start + g.headerSize + g.backPtrSize + Pow2(l.shift)
    && p.userPtr + l.size <= start + p.usedSize < p.userPtr + l.size + Pow2(g.blockShift)
    && Aligned(start + p.usedSize, g.blockShift)
    && p.usedSize <= blockSize
  }

  /** Every placement handed out is well placed. */
  lemma PlacementFacts(start: nat, blockSize: nat, l: Layout, g: Geometry)
    requires AllocationForBlock(start, blockSize, l, g).Some?
    ensures PlacedWell(start, blockSize, l, g, AllocationForBlock(start, blockSize, l, g).value)
  {
    AlignUpFacts(start + g.headerSize + g.backPtrSize, l.shift);
    var p := AllocationForBlock(start, blockSize, l, g).value;
    AlignUpFacts(p.userPtr + l.size, g.blockShift);
  }

  /** The first aligned user address after header and back pointer is `u`, and the block holds it all up to `e`. */
  predicate Room(start: nat, blockSize: nat, l: Layout, g: Geometry, u: nat, e: nat)
  {
    var at := start + g.headerSize + g.backPtrSize;
    && at + Pow2(l.shift) - 1 <= USIZE_MAX && u + l.size + Pow2(g.blockShift) - 1 <= USIZE_MAX
    && Aligned(u, l.shift) && at <= u < at + Pow2(l.shift)
    && Aligned(e, g.blockShift) && u + l.size <= e < u + l.size + Pow2(g.blockShift)
    && e <= start + blockSize
  }

  /** A block is accepted exactly when it has room, and there is only one place for it. */
  lemma AcceptedIffRoom(start: nat, blockSize: nat, l: Layout, g: Geometry, u: nat, e: nat)
    ensures Room(start, blockSize, l, g, u, e) <==>
              e >= start && AllocationForBlock(start, blockSize, l, g) == Some(Placement(u, e - start))
  {
    var at := start + g.headerSize + g.backPtrSize;
    AlignUpFacts(at, l.shift);
    if AlignUp(at, l.shift).Some? {
      var u0 := AlignUp(at, l.shift).value;
      OneRounding(at, l.shift, u0, u);
      AlignUpFacts(u0 + l.size, g.blockShift);
      if AlignUp(u0 + l.size, g.blockShift).Some? {
        OneRounding(u0 + l.size, g.blockShift, AlignUp(u0 + l.size, g.blockShift).value, e);
      }
    }
  }

  /** Within one alignment of an address there is one aligned address. */
  lemma OneRounding(x: nat, shift: nat, v: nat, w: nat)
    requires Aligned(v, shift) && x <= v < x + Pow2(shift)
    ensures Aligned(w, shift) && x <= w < x + Pow2(shift) <==> w == v
  {
    if Aligned(w, shift) && x <= w < x + Pow2(shift) {
      if w < v { AlignedGap(w, v, shift); }
      if v < w { AlignedGap(v, w, shift); }
    }
  }

  /** A block is accepted exactly when the size required at its address fits it. */
  lemma AcceptedIffRequiredFits(start: nat, blockSize: nat, l: Layout, g: Geometry)
    ensures AllocationForBlock(start, blockSize, l, g).Some? <==>
              RequiredBlockSize(start, l, g).Some? && RequiredBlockSize(start, l, g).value <= blockSize
  {
  }

  /** A layout that fits a chunk of `2^c` bytes at address 0 is aligned to less than a chunk. */
  lemma FitsMeansSmallAlignment(l: Layout, g: Geometry, c: nat)
    requires l.size >= 1 && g.headerSize + g.backPtrSize >= 1
    requires RequiredBlockSize(0, l, g).Some? && RequiredBlockSize(0, l, g).value <= Pow2(c)
    ensures l.shift < c
  {
    var at := g.headerSize + g.backPtrSize;
    AlignUpFacts(at, l.shift);
    var u := AlignUp(at, l.shift).value;
    AlignUpFacts(u + l.size, g.blockShift);
    AlignedZero(l.shift);
    AlignedGap(0, u, l.shift);
    if l.shift >= c { Pow2Monotone(c, l.shift); }
  }

  /** Rounding up is monotone and commutes with adding an aligned offset. */
  lemma AlignUpShifted(y: nat, chunk: nat, x: nat, shift: nat)
    requires Aligned(chunk, shift) && y <= chunk + x && AlignUp(x, shift).Some?
    requires chunk + x + Pow2(shift) <= USIZE_MAX
    ensures AlignUp(y, shift).Some? && AlignUp(y, shift).value <= chunk + AlignUp(x, shift).value
  {
    var mask := Pow2(shift) - 1;
    ClearLowShift(chunk, x + mask, shift);
    ClearLowMonotone(y + mask, chunk + (x + mask), shift);
  }

  /**
    If the size required at address 0 fits a chunk, then any block that contains
    an aligned chunk is accepted, also when it starts below the chunk.
  */
  lemma ChunkAlwaysFits(l: Layout, g: Geometry, c: nat, chunk: nat, start: nat, blockSize: nat)
    requires l.size >= 1 && g.headerSize + g.backPtrSize >= 1 && g.blockShift <= c
    requires RequiredBlockSize(0, l, g).Some? && RequiredBlockSize(0, l, g).value <= Pow2(c)
    requires Aligned(chunk, c) && start <= chunk && chunk + Pow2(c) <= start + blockSize
    requires chunk + g.headerSize + g.backPtrSize + 2 * Pow2(c) <= USIZE_MAX
    ensures AllocationForBlock(start, blockSize, l, g).Some?
  {
    var at := g.headerSize + g.backPtrSize;
    FitsMeansSmallAlignment(l, g, c);
    var u0, u := ChunkUserPtr(l, g, c, chunk, start);
    ChunkUsedEnd(l, g, c, chunk, u0, u);
    AlignUpFacts(u + l.size, g.blockShift);
  }

  lemma ChunkUserPtr(l: Layout, g: Geometry, c: nat, chunk: nat, start: nat) returns (u0: nat, u: nat)
    requires l.shift < c && Aligned(chunk, c) && start <= chunk
    requires chunk + g.headerSize + g.backPtrSize + 2 * Pow2(c) <= USIZE_MAX
    requires UserPtrForBlock(0, l, g).Some?
    ensures UserPtrForBlock(0, l, g) == Some(u0) && UserPtrForBlock(start, l, g) == Some(u)
    ensures start <= u <= chunk + u0
  {
    var at := g.headerSize + g.backPtrSize;
    AlignedWeaken(chunk, c, l.shift);
    Pow2Monotone(l.shift, c);
    AlignUpShifted(start + at, chunk, at, l.shift);
    AlignUpFacts(start + at, l.shift);
    u0, u := AlignUp(at, l.shift).value, AlignUp(start + at, l.shift).value;
  }

  lemma ChunkUsedEnd(l: Layout, g: Geometry, c: nat, chunk: nat, u0: nat, u: nat)
    requires g.blockShift <= c && Aligned(chunk, c) && u <= chunk + u0
    requires UsedEnd(u0, l, g).Some? && UsedEnd(u0, l, g).value <= Pow2(c)
    requires chunk + 2 * Pow2(c) <= USIZE_MAX
    ensures UsedEnd(u, l, g).Some? && UsedEnd(u, l, g).value <= chunk + Pow2(c)
  {
    AlignedWeaken(chunk, c, g.blockShift);
    Pow2Monotone(g.blockShift, c);
    AlignUpFacts(u0 + l.size, g.blockShift);
    AlignUpShifted(u + l.size, chunk, u0 + l.size, g.blockShift);
  }
}
