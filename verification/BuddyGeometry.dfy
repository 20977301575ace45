/**
  Which pages belong to which block, as recorded by the `order`, head and free
  marks of the page metadata.

  A state between two steps of an operation is described by a hole: a run of
  pages whose marks are in flux while everything outside it is well formed.
*/
module BuddyGeometry {
  import opened PowersOfTwo

  const MAX_ORDER := 11
  /** The `order` of a page that belongs to no block. */
  const NO_ORDER := 255

  /** The part of a page's metadata that says what block it is in. */
  datatype Mark = Mark(order: nat, isHead: bool, isFree: bool)

  const BLANK := Mark(NO_ORDER, false, false)

  /** `p` heads a block of the recorded order: aligned, in range, uniform, with no second head. */
  ghost predicate BlockOk(ms: seq<Mark>, p: nat)
    requires p < |ms|
  {
    var k := ms[p].order;
    && k < MAX_ORDER
    && Aligned(p, k)
    && p + Pow2(k) <= |ms|
    && forall q :: p < q < p + Pow2(k) ==> ms[q] == Mark(k, false, ms[p].isFree)
  }

  /** `q` is blank, or lies in the block headed by the aligned page below it. */
  ghost predicate PageOk(ms: seq<Mark>, q: nat)
    requires q < |ms|
  {
    ms[q] == BLANK ||
    (ms[q].order < MAX_ORDER &&
     var p := ClearLow(q, ms[q].order);
     p < |ms| && ms[p] == Mark(ms[q].order, true, ms[q].isFree))
  }

  /** A head outside the hole `lo..hi` has a well-formed block that stays outside. */
  ghost predicate HeadOk(ms: seq<Mark>, lo: nat, hi: nat, p: nat)
    requires p < |ms|
  {
    !(lo <= p < hi) && ms[p].isHead ==>
      BlockOk(ms, p) && (p + Pow2(ms[p].order) <= lo || hi <= p)
  }

  /** A page outside the hole is blank or in a block headed outside the hole. */
  ghost predicate OutsideOk(ms: seq<Mark>, lo: nat, hi: nat, q: nat)
    requires q < |ms|
  {
    !(lo <= q < hi) ==>
      PageOk(ms, q) && (hi <= q && ms[q] != BLANK ==> hi <= ClearLow(q, ms[q].order))
  }

  /** Everything outside pages `lo..hi` is well formed and no outside block reaches in. */
  ghost predicate GeometryExcept(ms: seq<Mark>, lo: nat, hi: nat)
  {
    && lo <= hi <= |ms|
    && (forall p :: 0 <= p < |ms| ==> HeadOk(ms, lo, hi, p))
    && (forall q :: 0 <= q < |ms| ==> OutsideOk(ms, lo, hi, q))
  }

  ghost predicate Geometry(ms: seq<Mark>)
  {
    GeometryExcept(ms, 0, 0)
  }

  /** The metadata after the marking loops of the allocator. */
  ghost function Marked(ms: seq<Mark>, b: nat, k: nat, free: bool): (r: seq<Mark>)
    requires b + Pow2(k) <= |ms|
    ensures |r| == |ms|
  {
    seq(|ms|, i requires 0 <= i < |ms| =>
      if b <= i < b + Pow2(k) then Mark(k, i == b, free) else ms[i])
  }

  predicate IsBlock(ms: seq<Mark>, p: nat, k: nat, free: bool)
  {
    p < |ms| && ms[p] == Mark(k, true, free)
  }

  // ---- what a well-formed state means ----------------------------------

  /** Blocks are in range, aligned and pairwise disjoint. */
  lemma BlocksDisjoint(ms: seq<Mark>, p: nat, k: nat, f: bool, q: nat, j: nat, g: bool)
    requires Geometry(ms) && IsBlock(ms, p, k, f) && IsBlock(ms, q, j, g)
    ensures k < MAX_ORDER && Aligned(p, k) && p + Pow2(k) <= |ms|
    ensures p != q ==> p + Pow2(k) <= q || q + Pow2(j) <= p
  {
    assert HeadOk(ms, 0, 0, p) && HeadOk(ms, 0, 0, q);
  }

  /** A page marked free lies inside exactly one free block, the one its own order names. */
  lemma FreePageInOneBlock(ms: seq<Mark>, q: nat, p: nat, k: nat)
    requires Geometry(ms) && q < |ms| && ms[q].isFree
    ensures IsBlock(ms, ClearLow(q, ms[q].order), ms[q].order, true)
    ensures ClearLow(q, ms[q].order) <= q < ClearLow(q, ms[q].order) + Pow2(ms[q].order)
    ensures IsBlock(ms, p, k, true) && p <= q < p + Pow2(k) ==>
              p == ClearLow(q, ms[q].order) && k == ms[q].order
  {
    assert OutsideOk(ms, 0, 0, q);
    ClearLowFacts(q, ms[q].order);
    if IsBlock(ms, p, k, true) && p <= q < p + Pow2(k) {
      BlocksDisjoint(ms, p, k, true, ClearLow(q, ms[q].order), ms[q].order, true);
    }
  }

  /** Every page of a block carries the block's marks. */
  lemma BlockPages(ms: seq<Mark>, p: nat, k: nat, f: bool)
    requires Geometry(ms) && IsBlock(ms, p, k, f)
    ensures k < MAX_ORDER && Aligned(p, k) && p + Pow2(k) <= |ms|
    ensures forall q :: p <= q < p + Pow2(k) ==> ms[q] == Mark(k, q == p, f)
  {
    assert HeadOk(ms, 0, 0, p);
  }

  // ---- hole algebra ----------------------------------------------------

  /** Taking a block out for modification leaves a hole of exactly its pages. */
  lemma OpenHole(ms: seq<Mark>, p: nat)
    requires Geometry(ms) && p < |ms| && ms[p].isHead
    ensures BlockOk(ms, p) && GeometryExcept(ms, p, p + Pow2(ms[p].order))
  {
    assert HeadOk(ms, 0, 0, p);
    var hi := p + Pow2(ms[p].order);
    forall q | 0 <= q < |ms| ensures HeadOk(ms, p, hi, q) {
      assert HeadOk(ms, 0, 0, q);
    }
    forall q | 0 <= q < |ms| ensures OutsideOk(ms, p, hi, q) {
      OpenHolePage(ms, p, q);
    }
  }

  lemma OpenHolePage(ms: seq<Mark>, p: nat, q: nat)
    requires Geometry(ms) && p < |ms| && ms[p].isHead && BlockOk(ms, p) && q < |ms|
    ensures OutsideOk(ms, p, p + Pow2(ms[p].order), q)
  {
    assert OutsideOk(ms, 0, 0, q);
    if p + Pow2(ms[p].order) <= q && ms[q] != BLANK {
      var h := ClearLow(q, ms[q].order);
      ClearLowFacts(q, ms[q].order);
      assert HeadOk(ms, 0, 0, h);
    }
  }

  /** Blank pages form a hole: no block covers them. */
  lemma BlankHole(ms: seq<Mark>, lo: nat, hi: nat)
    requires Geometry(ms) && lo < hi <= |ms|
    requires forall q :: lo <= q < hi ==> ms[q] == BLANK
    ensures GeometryExcept(ms, lo, hi)
  {
    forall p | 0 <= p < |ms| ensures HeadOk(ms, lo, hi, p) {
      assert HeadOk(ms, 0, 0, p);
      assert ms[lo] == BLANK;
    }
    forall q | 0 <= q < |ms| ensures OutsideOk(ms, lo, hi, q) {
      assert OutsideOk(ms, 0, 0, q);
      if hi <= q && ms[q] != BLANK {
        var h := ClearLow(q, ms[q].order);
        ClearLowFacts(q, ms[q].order);
        assert HeadOk(ms, 0, 0, h);
        assert ms[hi - 1] == BLANK;
      }
    }
  }

  /** A neighbouring block joins the hole. */
  lemma WidenHole(ms: seq<Mark>, lo: nat, hi: nat, p: nat)
    requires GeometryExcept(ms, lo, hi) && lo < hi
    requires p < |ms| && !(lo <= p < hi) && ms[p].isHead
    requires p == hi || p + Pow2(ms[p].order) == lo
    ensures BlockOk(ms, p)
    ensures p == hi ==> GeometryExcept(ms, lo, hi + Pow2(ms[p].order))
    ensures p < lo ==> GeometryExcept(ms, p, hi)
  {
    assert HeadOk(ms, lo, hi, p);
    var lo' := if p < lo then p else lo;
    var hi' := if p < lo then hi else hi + Pow2(ms[p].order);
    forall q | 0 <= q < |ms| ensures HeadOk(ms, lo', hi', q) {
      assert HeadOk(ms, lo, hi, q);
    }
    forall q | 0 <= q < |ms| ensures OutsideOk(ms, lo', hi', q) {
      assert OutsideOk(ms, lo, hi, q);
      if hi' <= q && ms[q] != BLANK {
        ClearLowFacts(q, ms[q].order);
        assert HeadOk(ms, lo, hi, ClearLow(q, ms[q].order));
      }
    }
  }

  /** Changing marks only inside the hole keeps everything outside well formed. */
  lemma HoleIgnoresInside(ms: seq<Mark>, ms': seq<Mark>, lo: nat, hi: nat)
    requires GeometryExcept(ms, lo, hi) && |ms'| == |ms|
    requires forall q :: 0 <= q < |ms| && !(lo <= q < hi) ==> ms'[q] == ms[q]
    ensures GeometryExcept(ms', lo, hi)
  {
    forall p | 0 <= p < |ms'| ensures HeadOk(ms', lo, hi, p) {
      assert HeadOk(ms, lo, hi, p);
    }
    forall q | 0 <= q < |ms'| ensures OutsideOk(ms', lo, hi, q) {
      assert OutsideOk(ms, lo, hi, q);
      if ms[q] != BLANK { ClearLowFacts(q, ms[q].order); }
    }
  }

  /** Marking the upper end of the hole as a block shrinks the hole by that block. */
  lemma MarkShrinksHole(ms: seq<Mark>, lo: nat, hi: nat, b: nat, k: nat, free: bool)
    requires GeometryExcept(ms, lo, hi)
    requires k < MAX_ORDER && Aligned(b, k) && lo <= b && b + Pow2(k) == hi
    ensures GeometryExcept(Marked(ms, b, k, free), lo, b)
  {
    var ms' := Marked(ms, b, k, free);
    forall p | 0 <= p < |ms'| ensures HeadOk(ms', lo, b, p) {
      assert HeadOk(ms, lo, hi, p);
    }
    forall q | 0 <= q < |ms'| ensures OutsideOk(ms', lo, b, q) {
      assert OutsideOk(ms, lo, hi, q);
      if b <= q < hi {
        ClearLowGreatest(b, q, k);
      } else if ms[q] != BLANK {
        ClearLowFacts(q, ms[q].order);
      }
    }
  }

  /** An empty hole is no hole. */
  lemma CloseHole(ms: seq<Mark>, lo: nat)
    requires GeometryExcept(ms, lo, lo)
    ensures Geometry(ms)
  {
    forall p | 0 <= p < |ms| ensures HeadOk(ms, 0, 0, p) {
      assert HeadOk(ms, lo, lo, p);
    }
    forall q | 0 <= q < |ms| ensures OutsideOk(ms, 0, 0, q) {
      assert OutsideOk(ms, lo, lo, q);
    }
  }
}
