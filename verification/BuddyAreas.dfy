/** Filling the allocator from several areas: which pages become free, and where free buddies remain. */
module BuddyAreas {
  import opened Basics
  import opened PowersOfTwo
  import opened BuddyGeometry
  import opened BuddyLists
  import opened BuddySpec
  import opened BuddyRegion

  predicate InArea(q: nat, a: Range)
  {
    PageUp(a.start) <= q < PageDown(a.end)
  }

  /** `q` lies in one of the first `n` areas. */
  ghost predicate InFirst(q: nat, areas: seq<Range>, n: nat)
    requires n <= |areas|
  {
    exists i :: 0 <= i < n && InArea(q, areas[i])
  }

  ghost predicate InSomeArea(q: nat, areas: seq<Range>)
  {
    InFirst(q, areas, |areas|)
  }

  ghost predicate AreasDisjoint(areas: seq<Range>)
  {
    forall i, j, q :: 0 <= i < j < |areas| && InArea(q, areas[i]) ==> !InArea(q, areas[j])
  }

  ghost predicate AreasFit(areas: seq<Range>, total: nat)
  {
    forall a :: a in areas ==> PageDown(a.end) <= total
  }

  /** Page `q` is blank, or free, clear and in one of the first `n` areas; it is free if it should be. */
  ghost predicate PageAdded(ms: seq<Mark>, q: nat, areas: seq<Range>, n: nat, reserved: seq<Range>)
    requires q < |ms| && n <= |areas|
  {
    && (ms[q] == BLANK || (ms[q].isFree && PageClear(q, reserved) && InFirst(q, areas, n)))
    && (AreasFit(areas, |ms|) && PageClear(q, reserved) && InFirst(q, areas, n) ==> ms[q].isFree)
  }

  /** Area `i` was carved into blocks that could not have been larger. */
  ghost predicate AreaCut(ms: seq<Mark>, areas: seq<Range>, i: nat, reserved: seq<Range>)
    requires i < |areas|
  {
    Maximal(ms, PageUp(areas[i].start), PageDown(areas[i].end), reserved)
  }

  /** The first `n` areas are in, nothing else is. */
  ghost predicate AreasAdded(ms: seq<Mark>, areas: seq<Range>, n: nat, reserved: seq<Range>)
    requires n <= |areas|
  {
    && (forall q {:trigger PageAdded(ms, q, areas, n, reserved)} :: 0 <= q < |ms| ==> PageAdded(ms, q, areas, n, reserved))
    && (forall i {:trigger AreaCut(ms, areas, i, reserved)} :: 0 <= i < n ==> AreaCut(ms, areas, i, reserved))
  }

  lemma NoAreaYet(ms: seq<Mark>, areas: seq<Range>, reserved: seq<Range>)
    requires forall q :: 0 <= q < |ms| ==> ms[q] == BLANK
    ensures AreasAdded(ms, areas, 0, reserved)
  {
  }

  lemma AreaStillBlank(ms: seq<Mark>, areas: seq<Range>, n: nat, reserved: seq<Range>)
    requires n < |areas| && AreasDisjoint(areas) && AreasAdded(ms, areas, n, reserved)
    ensures StillBlank(ms, PageUp(areas[n].start), PageDown(areas[n].end))
  {
    forall q | PageUp(areas[n].start) <= q < PageDown(areas[n].end) && q < |ms| ensures ms[q] == BLANK {
      assert PageAdded(ms, q, areas, n, reserved) && InArea(q, areas[n]);
    }
  }

  lemma AreaAdded(ms0: seq<Mark>, ms: seq<Mark>, areas: seq<Range>, n: nat, reserved: seq<Range>, cut: nat)
    requires n < |areas| && AreasDisjoint(areas) && AreasAdded(ms0, areas, n, reserved)
    requires Carved(ms0, ms, PageUp(areas[n].start), cut, PageDown(areas[n].end), reserved)
    requires Maximal(ms, PageUp(areas[n].start), PageDown(areas[n].end), reserved)
    requires PageDown(areas[n].end) <= |ms| ==> PageDown(areas[n].end) <= cut
    ensures AreasAdded(ms, areas, n + 1, reserved)
  {
    var n' := n + 1;
    forall q | 0 <= q < |ms| ensures PageAdded(ms, q, areas, n', reserved) {
      assert PageAdded(ms0, q, areas, n, reserved);
      assert InArea(q, areas[n]) ==> InFirst(q, areas, n');
    }
    forall i | 0 <= i < n' ensures AreaCut(ms, areas, i, reserved) {
      if i < n { OtherAreaKept(ms0, ms, areas, i, n, reserved, cut); }
    }
  }

  lemma OtherAreaKept(ms0: seq<Mark>, ms: seq<Mark>, areas: seq<Range>, i: nat, n: nat, reserved: seq<Range>, cut: nat)
    requires i < n < |areas| && AreasDisjoint(areas) && AreaCut(ms0, areas, i, reserved)
    requires Carved(ms0, ms, PageUp(areas[n].start), cut, PageDown(areas[n].end), reserved)
    ensures AreaCut(ms, areas, i, reserved)
  {
    var s, e := PageUp(areas[i].start), PageDown(areas[i].end);
    forall p | s <= p < e && p < |ms| && ms[p].isHead ensures CutWell(ms, p, e, reserved) {
      assert InArea(p, areas[i]) && ms[p] == ms0[p];
      assert CutWell(ms0, p, e, reserved);
    }
  }

  /** What the finished areas mean, page by page. */
  lemma AddedPages(ms: seq<Mark>, areas: seq<Range>, reserved: seq<Range>)
    requires AreasAdded(ms, areas, |areas|, reserved)
    ensures forall p: nat, k: nat :: !IsBlock(ms, p, k, false)
    ensures forall q :: 0 <= q < |ms| && ms[q].isFree ==> InSomeArea(q, areas) && PageClear(q, reserved)
    ensures AreasFit(areas, |ms|) ==>
              forall q :: 0 <= q < |ms| && InSomeArea(q, areas) && PageClear(q, reserved) ==> ms[q].isFree
  {
    forall q | 0 <= q < |ms|
      ensures ms[q].isHead ==> ms[q].isFree
      ensures ms[q].isFree ==> InSomeArea(q, areas) && PageClear(q, reserved)
      ensures AreasFit(areas, |ms|) && InSomeArea(q, areas) && PageClear(q, reserved) ==> ms[q].isFree
    {
      assert PageAdded(ms, q, areas, |areas|, reserved);
    }
  }

  // ---- where two areas meet ------------------------------------------------

  /** The pages `p..p+2^k` are clear pages of area `a`. */
  ghost predicate HalfIn(p: nat, k: nat, a: Range, reserved: seq<Range>)
  {
    forall q: nat :: p <= q < p + Pow2(k) ==> InArea(q, a) && PageClear(q, reserved)
  }

  /** Areas `i` and `j` meet in the middle of the aligned run `p..p+2^(k+1)` of clear pages. */
  ghost predicate SeamAt(areas: seq<Range>, reserved: seq<Range>, i: nat, j: nat, p: nat, k: nat)
  {
    && i < |areas| && j < |areas| && i != j && k + 1 < MAX_ORDER && Aligned(p, k + 1)
    && HalfIn(p, k, areas[i], reserved) && HalfIn(p + Pow2(k), k, areas[j], reserved)
  }

  ghost predicate Seam(areas: seq<Range>, reserved: seq<Range>)
  {
    exists i: nat, j: nat, p: nat, k: nat :: SeamAt(areas, reserved, i, j, p, k)
  }

  /** Only areas that touch can have a seam. */
  lemma SeamIsAdjacent(areas: seq<Range>, reserved: seq<Range>, i: nat, j: nat, p: nat, k: nat)
    requires AreasDisjoint(areas) && SeamAt(areas, reserved, i, j, p, k)
    ensures PageDown(areas[i].end) == p + Pow2(k) == PageUp(areas[j].start)
  {
    var b := p + Pow2(k);
    assert InArea(b - 1, areas[i]) && InArea(b, areas[j]);
    assert !InArea(b, areas[i]) && !InArea(b - 1, areas[j]);
  }

  /** A free block lies in one area, all of it clear. */
  lemma BlockInArea(ms: seq<Mark>, areas: seq<Range>, reserved: seq<Range>, p: nat, k: nat) returns (i: nat)
    requires Geometry(ms) && AreasAdded(ms, areas, |areas|, reserved) && IsBlock(ms, p, k, true)
    ensures i < |areas| && HalfIn(p, k, areas[i], reserved) && CutWell(ms, p, PageDown(areas[i].end), reserved)
  {
    BlockPages(ms, p, k, true);
    assert PageAdded(ms, p, areas, |areas|, reserved);
    i :| 0 <= i < |areas| && InArea(p, areas[i]);
    assert AreaCut(ms, areas, i, reserved) && CutWell(ms, p, PageDown(areas[i].end), reserved);
    forall q | p <= q < p + Pow2(k) ensures InArea(q, areas[i]) && PageClear(q, reserved) {
      assert PageAdded(ms, q, areas, |areas|, reserved);
    }
  }

  /** If the upper half lies in the area and is clear, the lower block could have been larger. */
  lemma NotBlocked(p: nat, k: nat, a: Range, reserved: seq<Range>)
    requires HalfIn(p + Pow2(k), k, a, reserved)
    ensures !HalfBlocked(p, k, PageDown(a.end), reserved)
  {
    forall q | p + Pow2(k) <= q < p + Pow2(k + 1) ensures Available(q, PageDown(a.end), reserved) {
      assert InArea(q, a);
    }
  }

  /** Two free buddies come from two areas: inside one, the lower block would have been larger. */
  lemma PairIsSeam(ms: seq<Mark>, areas: seq<Range>, reserved: seq<Range>, p: nat, k: nat)
    requires Geometry(ms) && AreasAdded(ms, areas, |areas|, reserved)
    requires k + 1 < MAX_ORDER && Aligned(p, k + 1) && IsBlock(ms, p, k, true) && IsBlock(ms, p + Pow2(k), k, true)
    ensures Seam(areas, reserved)
  {
    var i := BlockInArea(ms, areas, reserved, p, k);
    var j := BlockInArea(ms, areas, reserved, p + Pow2(k), k);
    NotBlocked(p, k, areas[j], reserved);
    assert SeamAt(areas, reserved, i, j, p, k);
  }

  /** A clear aligned run of one area that cannot be extended to the next order is one free block. */
  lemma RunIsBlock(ms: seq<Mark>, areas: seq<Range>, reserved: seq<Range>, i: nat, p: nat, k: nat, other: nat)
    requires Geometry(ms) && AreasAdded(ms, areas, |areas|, reserved) && AreasFit(areas, |ms|) && AreasDisjoint(areas)
    requires i < |areas| && k + 1 < MAX_ORDER && Aligned(p, k) && HalfIn(p, k, areas[i], reserved)
    requires ClearLow(p, k + 1) <= other < ClearLow(p, k + 1) + Pow2(k + 1) && !InArea(other, areas[i])
    ensures IsBlock(ms, p, k, true)
  {
    assert InArea(p, areas[i]) && areas[i] in areas && PageAdded(ms, p, areas, |areas|, reserved);
    FreePageInOneBlock(ms, p, 0, 0);
    var o := ms[p].order;
    var b := ClearLow(p, o);
    var h := BlockInArea(ms, areas, reserved, b, o);
    assert h == i;
    if o > k {
      LargerBlockHolds(p, k, o, other);
    } else if o < k {
      AlignedWeaken(p, k, o + 1);
      AlignedWeaken(p, k, o);
      Pow2Monotone(o + 1, k);
      NotBlocked(p, o, areas[i], reserved);
      ClearLowGreatest(p, p, o);
    } else {
      ClearLowGreatest(p, p, k);
    }
  }

  /** An aligned block of a higher order that holds `p` holds the whole run of the next order around `p`. */
  lemma LargerBlockHolds(p: nat, k: nat, o: nat, x: nat)
    requires k < o && ClearLow(p, k + 1) <= x < ClearLow(p, k + 1) + Pow2(k + 1)
    ensures ClearLow(p, o) <= x < ClearLow(p, o) + Pow2(o)
  {
    var low, big := ClearLow(p, k + 1), ClearLow(p, o);
    ClearLowFacts(p, k + 1);
    ClearLowFacts(p, o);
    AlignedWeaken(big, o, k + 1);
    ClearLowGreatest(big, p, k + 1);
    AlignedTop(big, o, k + 1);
    if low + Pow2(k + 1) > big + Pow2(o) { AlignedGap(low, big + Pow2(o), k + 1); }
  }

  /** From the pieces of a seam to the pair of free buddies. */
  lemma SeamIsPair(ms: seq<Mark>, areas: seq<Range>, reserved: seq<Range>, i: nat, j: nat, p: nat, k: nat)
    requires Geometry(ms) && AreasAdded(ms, areas, |areas|, reserved) && AreasFit(areas, |ms|) && AreasDisjoint(areas)
    requires SeamAt(areas, reserved, i, j, p, k)
    ensures IsBlock(ms, p, k, true) && IsBlock(ms, p + Pow2(k), k, true) && Buddy(p, k) == p + Pow2(k)
  {
    var b := p + Pow2(k);
    AlignedWeaken(p, k + 1, k);
    BuddyFacts(p, k);
    ClearLowGreatest(p, p, k + 1);
    ClearLowGreatest(p, b, k + 1);
    assert InArea(p, areas[i]) && InArea(b, areas[j]);
    RunIsBlock(ms, areas, reserved, i, p, k, b);
    RunIsBlock(ms, areas, reserved, j, b, k, p);
  }

  /** The filled allocator has free buddies only at a seam, and at every seam if the areas fit. */
  lemma CoalescedIffNoSeam(m: seq<PageInfo>, heads: seq<Option<nat>>, lists: Lists, areas: seq<Range>, reserved: seq<Range>)
    requires Consistent(m, heads, lists, 0, 0) && AreasDisjoint(areas) && AreasAdded(Marks(m), areas, |areas|, reserved)
    ensures !Seam(areas, reserved) ==> Coalesced(lists)
    ensures AreasFit(areas, |m|) ==> (Coalesced(lists) <==> !Seam(areas, reserved))
  {
    forall k, p | 0 <= k < MAX_ORDER - 1 && p in lists[k] && Buddy(p, k) in lists[k] ensures Seam(areas, reserved) {
      ListedPair(m, heads, lists, areas, reserved, p, k);
    }
    if AreasFit(areas, |m|) && Seam(areas, reserved) {
      var i: nat, j: nat, p: nat, k: nat :| SeamAt(areas, reserved, i, j, p, k);
      SeamIsPair(Marks(m), areas, reserved, i, j, p, k);
      assert p in lists[k] && Buddy(p, k) in lists[k];
    }
  }

  lemma ListedPair(m: seq<PageInfo>, heads: seq<Option<nat>>, lists: Lists, areas: seq<Range>, reserved: seq<Range>, p: nat, k: nat)
    requires Consistent(m, heads, lists, 0, 0) && AreasAdded(Marks(m), areas, |areas|, reserved)
    requires k + 1 < MAX_ORDER && p in lists[k] && Buddy(p, k) in lists[k]
    ensures Seam(areas, reserved)
  {
    var b := Buddy(p, k);
    ListedIsFreeHead(m, heads, lists, k, p);
    ListedIsFreeHead(m, heads, lists, k, b);
    BlockPages(Marks(m), p, k, true);
    BuddyFacts(p, k);
    PairIsSeam(Marks(m), areas, reserved, if p < b then p else b, k);
  }

  /** Two one-page areas that meet at page 1 have a seam. */
  lemma SeamExample()
    ensures var areas := [Range(0, 4096), Range(4096, 8192)];
            AreasDisjoint(areas) && AreasFit(areas, 2) && Seam(areas, [])
  {
    var areas := [Range(0, 4096), Range(4096, 8192)];
    assert Pow2(0) == 1 && Aligned(0, 1);
    assert HalfIn(0, 0, areas[0], []) && HalfIn(1, 0, areas[1], []);
    assert SeamAt(areas, [], 0, 1, 0, 0);
  }
}
