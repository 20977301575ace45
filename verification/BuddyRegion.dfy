/** Carving a memory-map region into blocks around reserved ranges. */
module BuddyRegion {
  import opened Basics
  import opened PowersOfTwo
  import opened BuddyGeometry
  import opened BuddyLists
  import opened BuddySpec

  /** Bytes `start..end`. */
  datatype Range = Range(start: nat, end: nat)

  ghost predicate NonEmpty(reserved: seq<Range>)
  {
    forall r :: r in reserved ==> r.start < r.end
  }

  function PageUp(addr: nat): (p: nat)
    ensures (p - 1) * PAGE_SIZE < addr <= p * PAGE_SIZE
  {
    (addr + PAGE_SIZE - 1) / PAGE_SIZE
  }

  function PageDown(addr: nat): (p: nat)
    ensures p * PAGE_SIZE <= addr < (p + 1) * PAGE_SIZE
  {
    addr / PAGE_SIZE
  }

  /** Page `q` contains no reserved byte. */
  ghost predicate PageClear(q: nat, reserved: seq<Range>)
  {
    forall r :: r in reserved ==> r.end <= q * PAGE_SIZE || (q + 1) * PAGE_SIZE <= r.start
  }

  /** The first reserved start above `start`, capped at `end`. */
  function NextBoundary(reserved: seq<Range>, start: nat, end: nat): (b: nat)
    requires start < end
    ensures start < b <= end
    ensures forall r :: r in reserved && r.start > start ==> b <= r.start
    ensures b == end || exists r :: r in reserved && r.start == b
  {
    if reserved == [] then end
    else
      var b := NextBoundary(reserved[1..], start, end);
      assert reserved == [reserved[0]] + reserved[1..];
      if start < reserved[0].start < b then reserved[0].start else b
  }

  /** The whole pages from page `cur` to the next boundary. */
  function PagesAt(cur: nat, e: nat, reserved: seq<Range>): (n: nat)
    requires cur < e
  {
    (NextBoundary(reserved, cur * PAGE_SIZE, e * PAGE_SIZE) - cur * PAGE_SIZE) / PAGE_SIZE
  }

  /** The order chosen for a block at address `start` with `pages` pages available. */
  function PickOrder(start: nat, pages: nat): (order: nat)
    requires pages > 0
    ensures order < MAX_ORDER
  {
    var alignOrder := TrailingZeros(start);
    var orderByAlign := if alignOrder >= 12 then alignOrder - 12 else 0;
    var orderBySize := Min(FloorLog2(pages), MAX_ORDER - 1);
    Min(Min(orderByAlign, orderBySize), MAX_ORDER - 1)
  }

  /** The chosen order fits, is aligned, and cannot be raised. */
  lemma PickOrderFacts(pfn: nat, pages: nat)
    requires pages > 0
    ensures var k := PickOrder(pfn * PAGE_SIZE, pages);
            && Pow2(k) <= pages && Aligned(pfn, k)
            && (k + 1 < MAX_ORDER && Aligned(pfn, k + 1) ==> pages < Pow2(k + 1))
  {
    var k := PickOrder(pfn * PAGE_SIZE, pages);
    FloorLog2Facts(pages);
    Pow2Monotone(k, FloorLog2(pages));
    if pfn == 0 {
      AlignedZero(k);
      if FloorLog2(pages) > k { Pow2Monotone(k + 1, FloorLog2(pages)); }
    } else {
      TrailingZerosOfPage(pfn);
      TrailingZerosIsAlignment(pfn, k);
      TrailingZerosIsAlignment(pfn, k + 1);
    }
  }

  /** Pages `s..e` are processed up to `cur`: the clear ones are free, the rest still blank. */
  ghost predicate Carved(ms0: seq<Mark>, ms: seq<Mark>, s: nat, cur: nat, e: nat, reserved: seq<Range>)
  {
    && |ms| == |ms0|
    && (forall q :: 0 <= q < |ms| && !(s <= q < e) ==> ms[q] == ms0[q])
    && (forall q :: s <= q < e && q < |ms| ==>
          if q < cur && PageClear(q, reserved) then ms[q].isFree else ms[q] == BLANK)
  }

  /** Page `q` lies before the end of the region and is clear. */
  ghost predicate Available(q: nat, e: nat, reserved: seq<Range>)
  {
    q < e && PageClear(q, reserved)
  }

  /** The upper buddy of `(p, k)` has a page that is reserved or past the region. */
  ghost predicate HalfBlocked(p: nat, k: nat, e: nat, reserved: seq<Range>)
  {
    exists q :: p + Pow2(k) <= q < p + Pow2(k + 1) && !Available(q, e, reserved)
  }

  /** The block headed by `p` stays below `e` and could not have been larger. */
  ghost predicate CutWell(ms: seq<Mark>, p: nat, e: nat, reserved: seq<Range>)
    requires p < |ms|
  {
    var k := ms[p].order;
    && p + Pow2(k) <= e
    && (k + 1 < MAX_ORDER && Aligned(p, k + 1) ==> HalfBlocked(p, k, e, reserved))
  }

  /** The blocks carved from the region stay in it and could not have been larger. */
  ghost predicate Maximal(ms: seq<Mark>, s: nat, e: nat, reserved: seq<Range>)
  {
    forall p {:trigger CutWell(ms, p, e, reserved)} :: s <= p < e && p < |ms| && ms[p].isHead ==> CutWell(ms, p, e, reserved)
  }

  /** No page of `s..e` belongs to a block. */
  ghost predicate StillBlank(ms: seq<Mark>, s: nat, e: nat)
  {
    forall q :: s <= q < e && q < |ms| ==> ms[q] == BLANK
  }

  ghost predicate NothingFree(ms: seq<Mark>)
  {
    forall q :: 0 <= q < |ms| ==> !ms[q].isFree
  }

  /** Pages skipped by jumping over a reserved range all touch it. */
  lemma SkippedPages(cur: nat, r: Range, reserved: seq<Range>)
    requires r in reserved && r.start <= cur * PAGE_SIZE < r.end
    ensures cur < PageUp(r.end)
    ensures forall q :: cur <= q < PageUp(r.end) ==> !PageClear(q, reserved)
  {
  }

  /** A page cut by the next boundary holds the first byte of a reserved range. */
  lemma CutPage(cur: nat, e: nat, reserved: seq<Range>)
    requires NonEmpty(reserved) && cur < e && PagesAt(cur, e, reserved) == 0
    ensures !PageClear(cur, reserved)
  {
    var b := NextBoundary(reserved, cur * PAGE_SIZE, e * PAGE_SIZE);
    var r :| r in reserved && r.start == b;
  }

  /** Pages up to the next boundary are clear when the first byte is. */
  lemma OpenPages(cur: nat, e: nat, reserved: seq<Range>, n: nat)
    requires cur < e && n * PAGE_SIZE <= NextBoundary(reserved, cur * PAGE_SIZE, e * PAGE_SIZE) - cur * PAGE_SIZE
    requires forall r :: r in reserved ==> !(r.start <= cur * PAGE_SIZE < r.end)
    ensures cur + n <= e
    ensures forall q :: cur <= q < cur + n ==> PageClear(q, reserved)
  {
  }

  /** The block that was carved is as large as the region allows. */
  lemma CarvedIsMaximal(cur: nat, e: nat, reserved: seq<Range>, k: nat)
    requires NonEmpty(reserved) && cur < e
    requires var pages := (NextBoundary(reserved, cur * PAGE_SIZE, e * PAGE_SIZE) - cur * PAGE_SIZE) / PAGE_SIZE;
             Pow2(k) <= pages < Pow2(k + 1)
    ensures HalfBlocked(cur, k, e, reserved)
  {
    var b := NextBoundary(reserved, cur * PAGE_SIZE, e * PAGE_SIZE);
    var q := b / PAGE_SIZE;
    assert cur + Pow2(k) <= q < cur + Pow2(k + 1);
    if q < e {
      var r :| r in reserved && r.start == b;
      assert !PageClear(q, reserved);
    }
    assert !Available(q, e, reserved);
  }

  /** The block `(cur, k)` is aligned, clear, inside the region, and not extensible. */
  ghost predicate GoodBlock(cur: nat, k: nat, e: nat, reserved: seq<Range>)
  {
    && k < MAX_ORDER && Aligned(cur, k) && cur + Pow2(k) <= e
    && (forall q :: cur <= q < cur + Pow2(k) ==> PageClear(q, reserved))
    && (k + 1 < MAX_ORDER && Aligned(cur, k + 1) ==> HalfBlocked(cur, k, e, reserved))
  }

  /** The block chosen at a clear page: aligned, clear, inside the region, and not extensible. */
  lemma NextBlock(cur: nat, e: nat, reserved: seq<Range>)
    requires NonEmpty(reserved) && cur < e && PagesAt(cur, e, reserved) > 0
    requires forall r :: r in reserved ==> !(r.start <= cur * PAGE_SIZE < r.end)
    ensures GoodBlock(cur, PickOrder(cur * PAGE_SIZE, PagesAt(cur, e, reserved)), e, reserved)
  {
    var pages := PagesAt(cur, e, reserved);
    var k := PickOrder(cur * PAGE_SIZE, pages);
    PickOrderFacts(cur, pages);
    OpenPages(cur, e, reserved, Pow2(k));
    if k + 1 < MAX_ORDER && Aligned(cur, k + 1) {
      CarvedIsMaximal(cur, e, reserved, k);
    }
  }

  /** Marking the next clear block carries the carved part forward. */
  lemma CarveStep(ms0: seq<Mark>, ms: seq<Mark>, s: nat, cur: nat, e: nat, reserved: seq<Range>, k: nat)
    requires Carved(ms0, ms, s, cur, e, reserved)
    requires s <= cur && cur + Pow2(k) <= |ms| && cur + Pow2(k) <= e
    requires forall q :: cur <= q < cur + Pow2(k) ==> PageClear(q, reserved)
    ensures Carved(ms0, Marked(ms, cur, k, true), s, cur + Pow2(k), e, reserved)
  {
    var n := Pow2(k);
    var ms' := Marked(ms, cur, k, true);
    forall q | s <= q < e && q < |ms'|
      ensures if q < cur + n && PageClear(q, reserved) then ms'[q].isFree else ms'[q] == BLANK
    {
      if !(cur <= q < cur + n) { assert ms'[q] == ms[q]; }
    }
  }

  /** Marking a block that cannot be extended keeps the carved blocks maximal. */
  lemma MaximalStep(ms: seq<Mark>, s: nat, cur: nat, e: nat, reserved: seq<Range>, k: nat)
    requires Maximal(ms, s, e, reserved)
    requires cur + Pow2(k) <= |ms| && cur + Pow2(k) <= e
    requires k + 1 < MAX_ORDER && Aligned(cur, k + 1) ==> HalfBlocked(cur, k, e, reserved)
    ensures Maximal(Marked(ms, cur, k, true), s, e, reserved)
  {
    var ms' := Marked(ms, cur, k, true);
    forall p | s <= p < e && p < |ms'| && ms'[p].isHead ensures CutWell(ms', p, e, reserved) {
      if p != cur {
        assert ms'[p] == ms[p];
        assert CutWell(ms, p, e, reserved);
      }
    }
  }

  /** A region carved into an allocator with no free block leaves no mergeable buddies. */
  lemma CarvedIsCoalesced(m: seq<PageInfo>, heads: seq<Option<nat>>, lists: Lists,
                          ms0: seq<Mark>, s: nat, cur: nat, e: nat, reserved: seq<Range>)
    requires Consistent(m, heads, lists, 0, 0)
    requires NothingFree(ms0)
    requires Carved(ms0, Marks(m), s, cur, e, reserved) && Maximal(Marks(m), s, e, reserved)
    ensures Coalesced(lists)
  {
    forall k, p | 0 <= k < MAX_ORDER - 1 && p in lists[k] ensures Buddy(p, k) !in lists[k] {
      ListedIsFreeHead(m, heads, lists, k, p);
      BlockPages(Marks(m), p, k, true);
      BuddyFacts(p, k);
      var b := Buddy(p, k);
      UpperBuddyNotFree(Marks(m), ms0, if p < b then p else b, k, s, cur, e, reserved);
      if b in lists[k] {
        ListedIsFreeHead(m, heads, lists, k, b);
      }
    }
  }

  lemma UpperBuddyNotFree(ms: seq<Mark>, ms0: seq<Mark>, p: nat, k: nat, s: nat, cur: nat, e: nat, reserved: seq<Range>)
    requires Geometry(ms) && Carved(ms0, ms, s, cur, e, reserved) && Maximal(ms, s, e, reserved)
    requires NothingFree(ms0)
    requires k + 1 < MAX_ORDER && Aligned(p, k + 1)
    ensures !(IsBlock(ms, p, k, true) && IsBlock(ms, p + Pow2(k), k, true))
  {
    if IsBlock(ms, p, k, true) && IsBlock(ms, p + Pow2(k), k, true) {
      BlockPages(ms, p + Pow2(k), k, true);
      assert CutWell(ms, p, e, reserved);
      forall q | p + Pow2(k) <= q < p + Pow2(k + 1) ensures Available(q, e, reserved) {
        assert ms[q].isFree;
      }
    }
  }
}
