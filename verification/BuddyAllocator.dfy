/** The buddy page allocator: page metadata and free-list heads updated in place. */
module BuddyAllocator {
  import opened Basics
  import opened PowersOfTwo
  import opened BuddyGeometry
  import opened BuddyLists
  import opened BuddySpec
  import opened BuddyRegion
  import opened BuddyAreas

  class BuddyAllocator {
    const metadata: array<PageInfo>
    const freeHeads: array<Option<nat>>
    /** The contents of the free lists, first node first. */
    ghost var lists: Lists

    ghost predicate ValidExcept(lo: nat, hi: nat)
      reads this, metadata, freeHeads
    {
      Consistent(metadata[..], freeHeads[..], lists, lo, hi)
    }

    /** Lists, marks and block geometry agree. */
    ghost predicate Valid()
      reads this, metadata, freeHeads
    {
      ValidExcept(0, 0)
    }

    ghost function PageMarks(): (ms: seq<Mark>)
      reads this, metadata
    {
      Marks(metadata[..])
    }

    /**
      An allocator over `total` pages, filled from the usable areas of the memory map. If the areas
      fit the metadata, it has no two free buddies exactly when no two areas meet in the middle of
      an aligned run of clear pages.
    */
    constructor (total: nat, areas: seq<Range>, reserved: seq<Range>)
      requires total + 1 < CODE_LIMIT && NonEmpty(reserved) && AreasDisjoint(areas)
      ensures Valid() && metadata.Length == total
      ensures fresh(metadata) && fresh(freeHeads)
      ensures forall p: nat, k: nat :: !IsBlock(PageMarks(), p, k, false)
      ensures forall q :: 0 <= q < total && PageMarks()[q].isFree ==> InSomeArea(q, areas) && PageClear(q, reserved)
      ensures AreasFit(areas, total) ==>
                forall q :: 0 <= q < total && InSomeArea(q, areas) && PageClear(q, reserved) ==> PageMarks()[q].isFree
      ensures !Seam(areas, reserved) ==> Coalesced(lists)
      ensures AreasFit(areas, total) ==> (Coalesced(lists) <==> !Seam(areas, reserved))
    {
      metadata := new PageInfo[total](_ => PageInfo(NO_ORDER, false, false, 0, 0));
      freeHeads := new Option<nat>[MAX_ORDER](_ => None);
      lists := seq(MAX_ORDER, _ => []);
      new;
      EmptyIsConsistent(metadata[..], freeHeads[..], lists);
      NoAreaYet(PageMarks(), areas, reserved);
      AddAreas(areas, reserved);
      CoalescedIffNoSeam(metadata[..], freeHeads[..], lists, areas, reserved);
      AddedPages(PageMarks(), areas, reserved);
    }

    /** The loop of the constructor over the usable areas. */
    method AddAreas(areas: seq<Range>, reserved: seq<Range>)
      requires Valid() && NonEmpty(reserved) && AreasDisjoint(areas) && AreasAdded(PageMarks(), areas, 0, reserved)
      modifies metadata, freeHeads, this`lists
      ensures Valid() && AreasAdded(PageMarks(), areas, |areas|, reserved)
    {
      for i := 0 to |areas|
        invariant Valid() && AreasAdded(PageMarks(), areas, i, reserved)
      {
        AddArea(areas, i, reserved);
      }
    }

    method AddArea(areas: seq<Range>, i: nat, reserved: seq<Range>)
      requires Valid() && NonEmpty(reserved) && AreasDisjoint(areas) && i < |areas| && AreasAdded(PageMarks(), areas, i, reserved)
      modifies metadata, freeHeads, this`lists
      ensures Valid() && AreasAdded(PageMarks(), areas, i + 1, reserved)
    {
      ghost var ms0 := PageMarks();
      AreaStillBlank(ms0, areas, i, reserved);
      ghost var cut := AddRegion(areas[i].start, areas[i].end, reserved);
      AreaAdded(ms0, PageMarks(), areas, i, reserved, cut);
    }

    /**
      Carve the whole clear pages of `start..end` into free blocks. `cut` is the
      page carving reached: the end of the region unless a block would not fit
      below the metadata, where the source gives up.
    */
    method AddRegion(start: nat, end: nat, reserved: seq<Range>) returns (ghost cut: nat)
      requires Valid() && NonEmpty(reserved)
      requires StillBlank(PageMarks(), PageUp(start), PageDown(end))
      modifies metadata, freeHeads, this`lists
      ensures Valid()
      ensures Carved(old(PageMarks()), PageMarks(), PageUp(start), cut, PageDown(end), reserved)
      ensures Maximal(PageMarks(), PageUp(start), PageDown(end), reserved)
      ensures PageDown(end) <= metadata.Length ==> PageDown(end) <= cut
      ensures NothingFree(old(PageMarks())) ==> Coalesced(lists)
    {
      ghost var ms0 := PageMarks();
      ghost var s := PageUp(start);
      var e := PageDown(end);
      var cur := PageUp(start);
      var stop := false;
      while cur < e && !stop
        invariant s <= cur && Valid()
        invariant Carved(ms0, PageMarks(), s, cur, e, reserved) && Maximal(PageMarks(), s, e, reserved)
        invariant stop ==> metadata.Length < e
        decreases if cur < e then e - cur else 0, !stop
      {
        stop, cur := CarveRound(cur, e, reserved, s, ms0);
      }
      cut := cur;
      if NothingFree(ms0) {
        CarvedIsCoalesced(metadata[..], freeHeads[..], lists, ms0, s, cur, e, reserved);
      }
    }

    /** One round of the carving loop at page `cur`; `stop` where the source breaks out. */
    method CarveRound(cur: nat, e: nat, reserved: seq<Range>, ghost s: nat, ghost ms0: seq<Mark>)
      returns (stop: bool, next: nat)
      requires Valid() && NonEmpty(reserved) && s <= cur < e
      requires Carved(ms0, PageMarks(), s, cur, e, reserved) && Maximal(PageMarks(), s, e, reserved)
      modifies metadata, freeHeads, this`lists
      ensures Valid()
      ensures if stop then next == cur && metadata.Length < e else cur < next
      ensures Carved(ms0, PageMarks(), s, next, e, reserved) && Maximal(PageMarks(), s, e, reserved)
    {
      var inside, after := SkipReserved(cur, reserved);
      if inside {
        return false, after;
      }
      var order := ChooseOrder(cur, e, reserved);
      if order.None? {
        return false, cur + 1;
      }
      if cur + Pow2(order.value) > metadata.Length {
        return true, cur;
      }
      CarveNext(cur, order.value, e, reserved, s, ms0);
      return false, cur + Pow2(order.value);
    }

    /** Carve the chosen block and record what that does to the region. */
    method CarveNext(cur: nat, order: nat, ghost e: nat, ghost reserved: seq<Range>, ghost s: nat, ghost ms0: seq<Mark>)
      requires Valid() && s <= cur && cur + Pow2(order) <= metadata.Length && GoodBlock(cur, order, e, reserved)
      requires Carved(ms0, PageMarks(), s, cur, e, reserved) && Maximal(PageMarks(), s, e, reserved)
      modifies metadata, freeHeads, this`lists
      ensures Valid()
      ensures Carved(ms0, PageMarks(), s, cur + Pow2(order), e, reserved) && Maximal(PageMarks(), s, e, reserved)
    {
      CarveStep(ms0, PageMarks(), s, cur, e, reserved, order);
      MaximalStep(PageMarks(), s, cur, e, reserved, order);
      Carve(cur, order);
    }

    /** Turn `2^order` blank pages into one free block. */
    method Carve(pfn: nat, order: nat)
      requires Valid() && order < MAX_ORDER && Aligned(pfn, order) && pfn + Pow2(order) <= metadata.Length
      requires forall q :: pfn <= q < pfn + Pow2(order) ==> PageMarks()[q] == BLANK
      modifies metadata, freeHeads, this`lists
      ensures Valid()
      ensures lists == old(lists)[order := [pfn] + old(lists)[order]]
      ensures PageMarks() == Marked(old(PageMarks()), pfn, order, true)
    {
      BlankHole(PageMarks(), pfn, pfn + Pow2(order));
      BlankUnlisted(metadata[..], freeHeads[..], lists, pfn, pfn + Pow2(order));
      MarkAndPush(pfn, order, true, pfn);
      CloseHole(PageMarks(), pfn);
    }

    // ---- list operations -------------------------------------------------

    method PushFree(pfn: nat, order: nat)
      requires AllLists(metadata[..], freeHeads[..], lists)
      requires order < MAX_ORDER && pfn < metadata.Length && pfn !in lists[order]
      requires MarkOf(metadata[pfn]) == Mark(order, true, true)
      modifies metadata, freeHeads, this`lists
      ensures AllLists(metadata[..], freeHeads[..], lists)
      ensures lists == old(lists)[order := [pfn] + old(lists)[order]]
      ensures PageMarks() == old(PageMarks())
    {
      ghost var m0, h0 := metadata[..], freeHeads[..];
      assert ListOk(m0, h0[order], lists[order], order);
      var head := freeHeads[order];
      assert head.Some? ==> lists[order] != [] && head.value == lists[order][0] && NodeOk(m0, lists[order], order, 0);
      metadata[pfn] := metadata[pfn].(isFree := true, next := Encode(head), prev := Encode(None));
      if head.Some? {
        metadata[head.value] := metadata[head.value].(prev := Encode(Some(pfn)));
      }
      freeHeads[order] := Some(pfn);
      ListPush(m0, metadata[..], h0[order], lists[order], order, pfn);
      lists := lists[order := [pfn] + lists[order]];
      OtherListsKeep(m0, metadata[..], h0, freeHeads[..], old(lists), lists, order);
      assert PageMarks() == Marks(m0);
    }

    method RemoveFromFree(pfn: nat, order: nat)
      requires AllLists(metadata[..], freeHeads[..], lists)
      requires order < MAX_ORDER && pfn in lists[order]
      modifies metadata, freeHeads, this`lists
      ensures AllLists(metadata[..], freeHeads[..], lists)
      ensures lists == old(lists)[order := Without(old(lists)[order], pfn)]
      ensures PageMarks() == old(PageMarks())
    {
      ghost var m0, h0 := metadata[..], freeHeads[..];
      NeighboursOk(m0, h0, lists, order, pfn);
      UnlinkOk(m0, h0, lists, order, pfn);
      UnlinkedMarks(m0, pfn);
      Bypass(pfn, order);
      lists := lists[order := Without(lists[order], pfn)];
    }

    /** Point the list neighbours of a page at each other. */
    method Bypass(pfn: nat, order: nat)
      requires pfn < metadata.Length && order < freeHeads.Length && CanUnlink(metadata[..], pfn)
      modifies metadata, freeHeads
      ensures metadata[..] == UnlinkedInfo(old(metadata[..]), pfn)
      ensures freeHeads[..] == if Decode(old(metadata[pfn].prev)).Some? then old(freeHeads[..])
                               else old(freeHeads[..])[order := Decode(old(metadata[pfn].next))]
    {
      var prev := Decode(metadata[pfn].prev);
      var next := Decode(metadata[pfn].next);
      if prev.Some? {
        metadata[prev.value] := metadata[prev.value].(next := Encode(next));
      } else {
        freeHeads[order] := next;
      }
      if next.Some? {
        metadata[next.value] := metadata[next.value].(prev := Encode(prev));
      }
    }

    /** The first block on the list of `order` whose frame number satisfies `pred`. */
    method FindFree(order: nat, pred: nat -> bool) returns (r: Option<nat>)
      requires AllLists(metadata[..], freeHeads[..], lists) && order < MAX_ORDER
      ensures r.None? ==> forall x :: x in lists[order] ==> !pred(x)
      ensures r.Some? ==> r.value in lists[order] && pred(r.value) &&
                          forall i :: 0 <= i < IndexOf(lists[order], r.value) ==> !pred(lists[order][i])
    {
      ghost var l := lists[order];
      assert ListOk(metadata[..], freeHeads[..][order], l, order);
      var current := freeHeads[order];
      ghost var i := 0;
      while current.Some?
        invariant 0 <= i <= |l| && current == At(l, i)
        invariant forall j :: 0 <= j < i ==> !pred(l[j])
        decreases |l| - i
      {
        if pred(current.value) {
          assert IndexOf(l, current.value) == i;
          return current;
        }
        assert NodeOk(metadata[..], l, order, i);
        current := Decode(metadata[current.value].next);
        i := i + 1;
      }
      return None;
    }

    // ---- marking ---------------------------------------------------------

    /** The marking loop: `2^k` pages from `b` become one block. */
    method MarkBlock(b: nat, k: nat, free: bool, clearLinks: bool)
      requires AllLists(metadata[..], freeHeads[..], lists)
      requires k < MAX_ORDER && b + Pow2(k) <= metadata.Length
      requires forall j, x :: 0 <= j < MAX_ORDER && x in lists[j] ==> !(b <= x < b + Pow2(k))
      modifies metadata
      ensures AllLists(metadata[..], freeHeads[..], lists)
      ensures PageMarks() == Marked(old(PageMarks()), b, k, free)
    {
      ghost var m0 := metadata[..];
      var n := Pow2(k);
      for i := 0 to n
        invariant forall q :: 0 <= q < metadata.Length && !(b <= q < b + i) ==> metadata[q] == m0[q]
        invariant forall q :: b <= q < b + i ==> MarkOf(metadata[q]) == Mark(k, q == b, free)
      {
        metadata[b + i] := metadata[b + i].(order := k, isHead := i == 0, isFree := free);
        if clearLinks {
          metadata[b + i] := metadata[b + i].(next := Encode(None), prev := Encode(None));
        }
      }
      UnlistedMayChange(m0, metadata[..], freeHeads[..], lists);
      assert PageMarks() == Marked(Marks(m0), b, k, free);
    }

    /** Turn the top of the hole `lo..b+2^k` into a free block and list it. */
    method MarkAndPush(b: nat, k: nat, clearLinks: bool, ghost lo: nat)
      requires k < MAX_ORDER && lo <= b && Aligned(b, k)
      requires ValidExcept(lo, b + Pow2(k))
      modifies metadata, freeHeads, this`lists
      ensures ValidExcept(lo, b)
      ensures lists == old(lists)[k := [b] + old(lists)[k]]
      ensures b + Pow2(k) <= |old(PageMarks())|
      ensures PageMarks() == Marked(old(PageMarks()), b, k, true)
    {
      ghost var ms0 := PageMarks();
      MarkShrinksHole(ms0, lo, b + Pow2(k), b, k, true);
      MatchAfterPush(ms0, lists, lo, b + Pow2(k), b, k);
      MarkBlock(b, k, true, clearLinks);
      assert MarkOf(metadata[b]) == PageMarks()[b];
      PushFree(b, k);
    }

    // ---- allocation ------------------------------------------------------

    /** Unlist the block `(pfn, o)` and clear its head: its pages become a hole. */
    method Detach(pfn: nat, o: nat)
      requires Valid() && o < MAX_ORDER && pfn in lists[o]
      modifies metadata, freeHeads, this`lists
      ensures ValidExcept(pfn, pfn + Pow2(o)) && Aligned(pfn, o)
      ensures lists == old(lists)[o := Without(old(lists)[o], pfn)]
      ensures SplitMarks(old(PageMarks()), PageMarks(), pfn, o, o)
      ensures IsBlock(old(PageMarks()), pfn, o, true)
    {
      ghost var ms0 := PageMarks();
      MatchAfterUnlist(metadata[..], freeHeads[..], lists, pfn, o);
      RemoveFromFree(pfn, o);
      ghost var m1 := metadata[..];
      metadata[pfn] := metadata[pfn].(isFree := false, next := Encode(None), prev := Encode(None));
      UnlistedMayChange(m1, metadata[..], freeHeads[..], lists);
      HoleIgnoresInside(ms0, PageMarks(), pfn, pfn + Pow2(o));
    }

    /** The split loop: list the upper halves of the hole `(pfn, o)` down to `order`. */
    method SplitDown(pfn: nat, order: nat, o: nat, ghost ms0: seq<Mark>)
      requires order <= o < MAX_ORDER && Aligned(pfn, o)
      requires ValidExcept(pfn, pfn + Pow2(o)) && SplitMarks(ms0, PageMarks(), pfn, o, o)
      modifies metadata, freeHeads, this`lists
      ensures ValidExcept(pfn, pfn + Pow2(order)) && SplitMarks(ms0, PageMarks(), pfn, order, o)
      ensures lists == SplitLists(old(lists), pfn, order, o)
    {
      var split := o;
      while split > order
        invariant order <= split <= o
        invariant ValidExcept(pfn, pfn + Pow2(split)) && SplitMarks(ms0, PageMarks(), pfn, split, o)
        invariant SplitLists(lists, pfn, order, split) == SplitLists(old(lists), pfn, order, o)
      {
        split := split - 1;
        SplitOnce(pfn, split, o, ms0);
      }
    }

    /** One round of the split loop: the upper half of the hole becomes a free block. */
    method SplitOnce(pfn: nat, split: nat, ghost o: nat, ghost ms0: seq<Mark>)
      requires split < o < MAX_ORDER && Aligned(pfn, o)
      requires ValidExcept(pfn, pfn + Pow2(split + 1)) && SplitMarks(ms0, PageMarks(), pfn, split + 1, o)
      modifies metadata, freeHeads, this`lists
      ensures ValidExcept(pfn, pfn + Pow2(split)) && SplitMarks(ms0, PageMarks(), pfn, split, o)
      ensures lists == old(lists)[split := [pfn + Pow2(split)] + old(lists)[split]]
    {
      XorUpperHalf(pfn, split, o);
      SplitMarksStep(ms0, PageMarks(), pfn, split, o);
      var buddyPfn := Xor(pfn, Pow2(split));
      MarkAndPush(buddyPfn, split, false, pfn);
    }

    /** Take the listed block `(pfn, o)`, list its upper halves, mark the rest allocated. */
    method TakeBlock(pfn: nat, order: nat, o: nat)
      requires Valid() && order <= o < MAX_ORDER && pfn in lists[o]
      modifies metadata, freeHeads, this`lists
      ensures Valid()
      ensures lists == AllocLists(old(lists), pfn, order, o)
      ensures Aligned(pfn, order) && Allocated(old(PageMarks()), PageMarks(), pfn, order)
    {
      ghost var ms0 := PageMarks();
      Detach(pfn, o);
      SplitDown(pfn, order, o, ms0);
      AlignedWeaken(pfn, o, order);
      SplitIsAllocation(ms0, PageMarks(), pfn, order, o);
      Claim(pfn, order);
    }

    /** The last step of an allocation: the hole becomes one live block. */
    method Claim(pfn: nat, order: nat)
      requires order < MAX_ORDER && Aligned(pfn, order) && ValidExcept(pfn, pfn + Pow2(order))
      modifies metadata
      ensures Valid() && pfn + Pow2(order) <= |old(PageMarks())|
      ensures PageMarks() == Marked(old(PageMarks()), pfn, order, false)
    {
      MarkShrinksHole(PageMarks(), pfn, pfn + Pow2(order), pfn, order, false);
      MarkBlock(pfn, order, false, false);
      CloseHole(PageMarks(), pfn);
    }

    /** First fit from the requested order upwards. `o` is the order of the block that was taken. */
    method AllocateWhere(order: nat, pred: nat -> bool) returns (r: Option<nat>, ghost o: nat)
      requires Valid()
      modifies metadata, freeHeads, this`lists
      ensures Valid()
      ensures r.None? ==> metadata[..] == old(metadata[..]) && lists == old(lists)
      ensures r.None? ==> forall k, x :: order <= k < MAX_ORDER && x in lists[k] ==> !pred(x)
      ensures r.Some? ==>
                var p := r.value / PAGE_SIZE;
                && r.value == p * PAGE_SIZE && order <= o < MAX_ORDER
                && p in old(lists)[o] && pred(p)
                && (forall k, x :: order <= k < o && x in old(lists)[k] ==> !pred(x))
                && (forall i :: 0 <= i < IndexOf(old(lists)[o], p) ==> !pred(old(lists)[o][i]))
                && lists == AllocLists(old(lists), p, order, o)
                && Aligned(p, order) && Allocated(old(PageMarks()), PageMarks(), p, order)
    {
      o := order;
      if order >= MAX_ORDER {
        return None, o;
      }
      var k := order;
      while k < MAX_ORDER
        invariant order <= k <= MAX_ORDER
        invariant Valid() && metadata[..] == old(metadata[..]) && lists == old(lists)
        invariant forall j, x :: order <= j < k && x in lists[j] ==> !pred(x)
      {
        var found := FindFree(k, pred);
        if found.Some? {
          TakeBlock(found.value, order, k);
          assert found.value * PAGE_SIZE / PAGE_SIZE == found.value;
          return Some(found.value * PAGE_SIZE), k;
        }
        k := k + 1;
      }
      return None, o;
    }

    /** Allocate `2^order` pages anywhere. */
    method Allocate(order: nat) returns (r: Option<nat>, ghost o: nat)
      requires Valid()
      modifies metadata, freeHeads, this`lists
      ensures Valid()
      ensures r.None? ==> metadata[..] == old(metadata[..]) && lists == old(lists)
      ensures r.None? <==> forall k :: order <= k < MAX_ORDER ==> old(lists)[k] == []
      ensures r.Some? ==>
                var p := r.value / PAGE_SIZE;
                && r.value == p * PAGE_SIZE && order <= o < MAX_ORDER && p in old(lists)[o]
                && (forall k :: order <= k < o ==> old(lists)[k] == []) && p == old(lists)[o][0]
                && lists == AllocLists(old(lists), p, order, o)
                && Aligned(p, order) && Allocated(old(PageMarks()), PageMarks(), p, order)
    {
      var any := (_: nat) => true;
      r, o := AllocateWhere(order, any);
      if r.Some? {
        NothingBelow(old(lists), order, o, any);
        assert any(old(lists)[o][0]);
      }
      if r.None? { NothingBelow(lists, order, MAX_ORDER, any); }
    }

    /** Allocate `2^order` pages that end at or below `limit`; fails only if no free run does. */
    method AllocateBelow(order: nat, limit: nat) returns (r: Option<nat>, ghost o: nat)
      requires Valid()
      modifies metadata, freeHeads, this`lists
      ensures Valid()
      ensures r.None? ==> metadata[..] == old(metadata[..]) && lists == old(lists)
      ensures r.None? ==> forall k, x :: order <= k < MAX_ORDER && x in lists[k] ==> EndsAbove(x, order, limit)
      ensures r.Some? ==> r.value + Pow2(order) * PAGE_SIZE <= limit
      ensures r.Some? <==> exists q :: FreeRunBelow(old(lists), q, order, limit)
      ensures r.Some? ==>
                var p := r.value / PAGE_SIZE;
                && r.value == p * PAGE_SIZE && order <= o < MAX_ORDER && p in old(lists)[o]
                && FirstBelow(old(lists), order, limit, p, o)
                && lists == AllocLists(old(lists), p, order, o)
                && Aligned(p, order) && Allocated(old(PageMarks()), PageMarks(), p, order)
    {
      var fits := (pfn: nat) => pfn * PAGE_SIZE + Pow2(order) * PAGE_SIZE <= limit;
      r, o := AllocateWhere(order, fits);
      if r.Some? {
        FirstIsBelow(old(lists), order, limit, r.value / PAGE_SIZE, o, fits);
        Pow2Monotone(order, o);
        assert InFreeBlock(old(lists), r.value / PAGE_SIZE, order, r.value / PAGE_SIZE, o);
        assert FreeRunBelow(old(lists), r.value / PAGE_SIZE, order, limit);
      } else {
        forall k, x | order <= k < MAX_ORDER && x in lists[k]
          ensures EndsAbove(x, order, limit)
        {
          assert !fits(x);
        }
        forall q: nat ensures !FreeRunBelow(lists, q, order, limit) {
          NoStartNoRun(metadata[..], freeHeads[..], lists, q, order, limit);
        }
      }
    }

    /** Allocating and freeing the result leaves the same free blocks, whatever the split depth. */
    method AllocateThenFree(order: nat) returns (r: Option<nat>)
      requires Valid() && Coalesced(lists)
      modifies metadata, freeHeads, this`lists
      ensures Valid() && Coalesced(lists) && FreeSet(lists) == old(FreeSet(lists))
      ensures forall p: nat, k: nat :: IsBlock(PageMarks(), p, k, false) <==> IsBlock(old(PageMarks()), p, k, false)
    {
      ghost var l0 := lists;
      ConsistentIsWellPlaced(metadata[..], freeHeads[..], lists);
      ghost var o;
      r, o := Allocate(order);
      if r.Some? {
        ghost var p := r.value / PAGE_SIZE;
        assert IsBlock(PageMarks(), p, order, false);
        ConsistentIsWellPlaced(metadata[..], freeHeads[..], lists);
        AllocKeepsCoalesced(l0, p, order, o);
        FreeKeepsCoalesced(lists, p, order);
        AllocThenFree(l0, p, order, o);
        var ok := Deallocate(r.value);
      }
    }

    // ---- release ---------------------------------------------------------

    /** The merge loop: absorb free buddies, starting from the hole `(pfn, k)`. */
    method MergeUp(pfn: nat, k: nat, ghost goal: Lists) returns (currentPfn: nat, order: nat)
      requires k < MAX_ORDER && Aligned(pfn, k) && Geometry(PageMarks()) && |lists| == MAX_ORDER && goal == FreeLists(lists, pfn, k)
      requires ValidExcept(pfn, pfn + Pow2(k))
      modifies metadata, freeHeads, this`lists
      ensures order < MAX_ORDER && Aligned(currentPfn, order)
      ensures ValidExcept(currentPfn, currentPfn + Pow2(order))
      ensures PageMarks() == old(PageMarks()) && MergeMarks(PageMarks(), pfn, k, currentPfn, order)
      ensures lists[order := [currentPfn] + lists[order]] == goal
    {
      currentPfn, order := pfn, k;
      var merged := true;
      while merged
        invariant order < MAX_ORDER && Aligned(currentPfn, order)
        invariant ValidExcept(currentPfn, currentPfn + Pow2(order))
        invariant PageMarks() == old(PageMarks()) && MergeMarks(PageMarks(), pfn, k, currentPfn, order)
        invariant goal == if merged then FreeLists(lists, currentPfn, order)
                          else lists[order := [currentPfn] + lists[order]]
        decreases MAX_ORDER - order, merged
      {
        ghost var l0, p0, k0 := lists, currentPfn, order;
        merged, currentPfn, order := MergeStep(currentPfn, order, pfn, k);
        FreeListsRound(l0, p0, k0, merged, lists, currentPfn, order);
      }
    }

    /** One round of the merge loop; `merged` is false where the source breaks out. */
    method MergeStep(cur: nat, ord: nat, ghost pfn: nat, ghost k: nat) returns (merged: bool, cur': nat, ord': nat)
      requires ord < MAX_ORDER && Aligned(cur, ord) && Geometry(PageMarks())
      requires ValidExcept(cur, cur + Pow2(ord)) && MergeMarks(PageMarks(), pfn, k, cur, ord)
      modifies metadata, freeHeads, this`lists
      ensures ord' < MAX_ORDER && Aligned(cur', ord')
      ensures ValidExcept(cur', cur' + Pow2(ord'))
      ensures PageMarks() == old(PageMarks()) && MergeMarks(PageMarks(), pfn, k, cur', ord')
      ensures MergedRound(old(lists), cur, ord, merged, lists, cur', ord')
    {
      var buddyPfn := FreeBuddy(cur, ord);
      if buddyPfn.None? {
        return false, cur, ord;
      }
      var low := Absorb(cur, ord, buddyPfn.value, pfn, k);
      return true, low, ord + 1;
    }

    /** The buddy to merge with, unless the loop ends here: top order, no such page, or not free at this order. */
    method FreeBuddy(cur: nat, ord: nat) returns (r: Option<nat>)
      requires ord < MAX_ORDER && Aligned(cur, ord) && AllLists(metadata[..], freeHeads[..], lists)
      ensures r.Some? ==> ord + 1 < MAX_ORDER && r.value == Buddy(cur, ord) && r.value < metadata.Length && IsFreeHead(r.value, ord)
      ensures r.None? ==> ord + 1 >= MAX_ORDER || Buddy(cur, ord) !in lists[ord]
    {
      if ord + 1 >= MAX_ORDER {
        return None;
      }
      XorCompletes(cur, ord);
      var buddyPfn := Xor(cur, Pow2(ord));
      if buddyPfn >= metadata.Length || !IsFreeHead(buddyPfn, ord) {
        BuddyNotListed(metadata[..], freeHeads[..], lists, buddyPfn, ord);
        return None;
      }
      return Some(buddyPfn);
    }

    /** Unlist a free buddy: the hole doubles. */
    method Absorb(currentPfn: nat, order: nat, buddyPfn: nat, ghost pfn: nat, ghost k: nat) returns (low: nat)
      requires order + 1 < MAX_ORDER && Aligned(currentPfn, order) && buddyPfn == Buddy(currentPfn, order)
      requires ValidExcept(currentPfn, currentPfn + Pow2(order)) && Geometry(PageMarks())
      requires buddyPfn < metadata.Length && IsFreeHead(buddyPfn, order) && MergeMarks(PageMarks(), pfn, k, currentPfn, order)
      modifies metadata, freeHeads, this`lists
      ensures buddyPfn in old(lists)[order]
      ensures lists == old(lists)[order := Without(old(lists)[order], buddyPfn)]
      ensures low == (if currentPfn < buddyPfn then currentPfn else buddyPfn) && Aligned(low, order + 1)
      ensures ValidExcept(low, low + Pow2(order + 1))
      ensures PageMarks() == old(PageMarks()) && MergeMarks(PageMarks(), pfn, k, low, order + 1)
    {
      low := if currentPfn < buddyPfn then currentPfn else buddyPfn;
      AbsorbStep(metadata[..], freeHeads[..], lists, currentPfn, order, buddyPfn, low);
      MergeMarksStep(PageMarks(), pfn, k, currentPfn, order, buddyPfn);
      RemoveFromFree(buddyPfn, order);
    }

    predicate IsFreeHead(pfn: nat, order: nat)
      requires pfn < metadata.Length
      reads metadata
    {
      metadata[pfn].isFree && metadata[pfn].order == order && metadata[pfn].isHead
    }

    /** Release the block at `addr`. `ok` is false where the source's assertions stop the kernel. */
    method Deallocate(addr: nat) returns (ok: bool)
      requires Valid()
      modifies metadata, freeHeads, this`lists
      ensures Valid()
      ensures ok <==> exists k :: IsBlock(old(PageMarks()), addr / PAGE_SIZE, k, false)
      ensures !ok ==> metadata[..] == old(metadata[..]) && lists == old(lists)
      ensures ok ==> var p := addr / PAGE_SIZE;
                     var k := old(PageMarks())[p].order;
                     && k < MAX_ORDER && Aligned(p, k)
                     && lists == FreeLists(old(lists), p, k)
                     && Allocated(PageMarks(), old(PageMarks()), p, k)
    {
      var pfn := addr / PAGE_SIZE;
      ghost var ms0 := PageMarks();
      if pfn >= metadata.Length || !metadata[pfn].isHead || metadata[pfn].isFree {
        return false;
      }
      var k := metadata[pfn].order;
      assert IsBlock(ms0, pfn, k, false);
      MatchAfterOpen(metadata[..], freeHeads[..], lists, pfn, k);
      var currentPfn, order := MergeUp(pfn, k, FreeLists(lists, pfn, k));
      MarkAndPush(currentPfn, order, false, currentPfn);
      CloseHole(PageMarks(), currentPfn);
      MergeIsRelease(ms0, pfn, k, currentPfn, order);
      return true;
    }
  }

  /** A page that is not a free head of this order is on no list of this order. */
  lemma BuddyNotListed(m: seq<PageInfo>, heads: seq<Option<nat>>, lists: Lists, b: nat, k: nat)
    requires AllLists(m, heads, lists) && k < MAX_ORDER
    requires b < |m| ==> MarkOf(m[b]) != Mark(k, true, true)
    ensures b !in lists[k]
  {
    if b in lists[k] { ListedIsFreeHead(m, heads, lists, k, b); }
  }

  /** If the first byte of page `cur` is reserved, the page after the first range that says so. */
  method SkipReserved(cur: nat, reserved: seq<Range>) returns (inside: bool, after: nat)
    ensures inside ==> cur < after && forall q :: cur <= q < after ==> !PageClear(q, reserved)
    ensures !inside ==> forall r :: r in reserved ==> !(r.start <= cur * PAGE_SIZE < r.end)
  {
    for i := 0 to |reserved|
      invariant forall j :: 0 <= j < i ==> !(reserved[j].start <= cur * PAGE_SIZE < reserved[j].end)
    {
      if reserved[i].start <= cur * PAGE_SIZE < reserved[i].end {
        SkippedPages(cur, reserved[i], reserved);
        return true, PageUp(reserved[i].end);
      }
    }
    return false, cur;
  }

  /** The order of the block to carve at an unreserved page, or none if a reserved range begins in the page. */
  method ChooseOrder(cur: nat, e: nat, reserved: seq<Range>) returns (r: Option<nat>)
    requires NonEmpty(reserved) && cur < e
    requires forall x :: x in reserved ==> !(x.start <= cur * PAGE_SIZE < x.end)
    ensures r.None? ==> !PageClear(cur, reserved)
    ensures r.Some? ==> GoodBlock(cur, r.value, e, reserved)
  {
    var pages := PagesAt(cur, e, reserved);
    if pages == 0 {
      CutPage(cur, e, reserved);
      return None;
    }
    NextBlock(cur, e, reserved);
    return Some(PickOrder(cur * PAGE_SIZE, pages));
  }

  lemma BlankUnlisted(m: seq<PageInfo>, heads: seq<Option<nat>>, lists: Lists, lo: nat, hi: nat)
    requires Consistent(m, heads, lists, 0, 0) && lo <= hi <= |m|
    requires forall q :: lo <= q < hi ==> Marks(m)[q] == BLANK
    ensures ListsMatch(Marks(m), lists, lo, hi)
  {
    forall k, x | 0 <= k < MAX_ORDER && x in lists[k] ensures !(lo <= x < hi) {
      ListedIsFreeHead(m, heads, lists, k, x);
    }
  }

  lemma EmptyIsConsistent(m: seq<PageInfo>, heads: seq<Option<nat>>, lists: Lists)
    requires |m| + 1 < CODE_LIMIT && |heads| == |lists| == MAX_ORDER
    requires forall i :: 0 <= i < |m| ==> MarkOf(m[i]) == BLANK
    requires forall k :: 0 <= k < MAX_ORDER ==> heads[k] == None && lists[k] == []
    ensures Consistent(m, heads, lists, 0, 0)
  {
    var ms := Marks(m);
    assert forall p :: 0 <= p < |ms| ==> HeadOk(ms, 0, 0, p);
    assert forall q :: 0 <= q < |ms| ==> OutsideOk(ms, 0, 0, q);
  }

  /** Filling an allocator from these two areas leaves two free buddies. */
  method FillTwoTouchingAreas() returns (a: BuddyAllocator)
    ensures a.Valid() && !Coalesced(a.lists)
  {
    SeamExample();
    a := new BuddyAllocator(2, [Range(0, 4096), Range(4096, 8192)], []);
  }

  // ---- completeness of allocation below a limit ---------------------------

  /** Where every block is acceptable, a list without acceptable blocks is empty. */
  lemma NothingBelow(lists: Lists, order: nat, o: nat, any: nat -> bool)
    requires o <= MAX_ORDER && |lists| == MAX_ORDER && (forall x :: any(x))
    requires forall k, x :: order <= k < o && x in lists[k] ==> !any(x)
    ensures forall k :: order <= k < o ==> lists[k] == []
  {
    forall k | order <= k < o ensures lists[k] == [] {
      forall x: nat ensures x !in lists[k] { assert any(x); }
      FirstMember(lists[k]);
    }
  }

  lemma FirstMember(l: seq<nat>)
    ensures l == [] || l[0] in l
  {
  }

  /** The first `2^order` pages of the block at `x` end above the limit. */
  predicate EndsAbove(x: nat, order: nat, limit: nat)
  {
    x * PAGE_SIZE + Pow2(order) * PAGE_SIZE > limit
  }

  /** No block of a smaller order, and none earlier on the list of order `o`, could have been taken instead. */
  ghost predicate FirstBelow(lists: Lists, order: nat, limit: nat, p: nat, o: nat)
    requires o < MAX_ORDER && |lists| == MAX_ORDER && p in lists[o]
  {
    && !EndsAbove(p, order, limit)
    && (forall k, x :: order <= k < o && x in lists[k] ==> EndsAbove(x, order, limit))
    && (forall i :: 0 <= i < IndexOf(lists[o], p) ==> EndsAbove(lists[o][i], order, limit))
  }

  lemma FirstIsBelow(lists: Lists, order: nat, limit: nat, p: nat, o: nat, fits: nat -> bool)
    requires o < MAX_ORDER && |lists| == MAX_ORDER && p in lists[o] && fits(p)
    requires forall x :: fits(x) <==> !EndsAbove(x, order, limit)
    requires forall k, x :: order <= k < o && x in lists[k] ==> !fits(x)
    requires forall i :: 0 <= i < IndexOf(lists[o], p) ==> !fits(lists[o][i])
    ensures FirstBelow(lists, order, limit, p, o)
  {
  }

  /** Pages `q..q+2^order` lie inside the free block `(b, k)`. */
  ghost predicate InFreeBlock(lists: Lists, q: nat, order: nat, b: nat, k: nat)
    requires |lists| == MAX_ORDER
  {
    k < MAX_ORDER && b in lists[k] && b <= q && q + Pow2(order) <= b + Pow2(k)
  }

  /** Some aligned run of `2^order` pages at `q`, inside one free block, ends at or below `limit`. */
  ghost predicate FreeRunBelow(lists: Lists, q: nat, order: nat, limit: nat)
    requires |lists| == MAX_ORDER
  {
    && Aligned(q, order) && q * PAGE_SIZE + Pow2(order) * PAGE_SIZE <= limit
    && exists b, k :: InFreeBlock(lists, q, order, b, k)
  }

  /** Testing only the start of each large-enough free block misses no run. */
  lemma NoStartNoRun(m: seq<PageInfo>, heads: seq<Option<nat>>, lists: Lists, q: nat, order: nat, limit: nat)
    requires Consistent(m, heads, lists, 0, 0)
    requires forall k, x :: order <= k < MAX_ORDER && x in lists[k] ==> EndsAbove(x, order, limit)
    ensures !FreeRunBelow(lists, q, order, limit)
  {
    forall b: nat, k: nat | InFreeBlock(lists, q, order, b, k)
      ensures q * PAGE_SIZE + Pow2(order) * PAGE_SIZE > limit
    {
      if k < order { Pow2Monotone(k + 1, order); } else { assert EndsAbove(b, order, limit); }
    }
  }
}
