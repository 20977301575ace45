/**
  What allocation and release do to the free lists, as functions, and the laws
  that tie the two together.
*/
module BuddySpec {
  import opened Basics
  import opened PowersOfTwo
  import opened BuddyGeometry
  import opened BuddyLists

  datatype Block = Block(pfn: nat, order: nat)

  /** Splitting the order-`o` block at `p` down to `order`: each upper half is pushed on its list. */
  ghost function SplitLists(lists: Lists, p: nat, order: nat, o: nat): (r: Lists)
    requires |lists| == MAX_ORDER && order <= o < MAX_ORDER
    ensures |r| == MAX_ORDER
    decreases o
  {
    if o == order then lists
    else SplitLists(lists[o - 1 := [p + Pow2(o - 1)] + lists[o - 1]], p, order, o - 1)
  }

  /** The free lists after taking the order-`o` block at `p` and keeping its first `2^order` pages. */
  ghost function AllocLists(lists: Lists, p: nat, order: nat, o: nat): (r: Lists)
    requires |lists| == MAX_ORDER && order <= o < MAX_ORDER && p in lists[o]
    ensures |r| == MAX_ORDER
  {
    SplitLists(lists[o := Without(lists[o], p)], p, order, o)
  }

  /** The block that releasing `(p, k)` finally puts on a free list. */
  ghost function MergedBlock(lists: Lists, p: nat, k: nat): (r: Block)
    requires |lists| == MAX_ORDER && k < MAX_ORDER
    decreases MAX_ORDER - k
  {
    var b := Buddy(p, k);
    if k + 1 >= MAX_ORDER || b !in lists[k] then Block(p, k)
    else MergedBlock(lists[k := Without(lists[k], b)], if p < b then p else b, k + 1)
  }

  /** The free lists after releasing the block `(p, k)`. */
  ghost function FreeLists(lists: Lists, p: nat, k: nat): (r: Lists)
    requires |lists| == MAX_ORDER && k < MAX_ORDER
    ensures |r| == MAX_ORDER
    decreases MAX_ORDER - k
  {
    var b := Buddy(p, k);
    if k + 1 >= MAX_ORDER || b !in lists[k] then lists[k := [p] + lists[k]]
    else FreeLists(lists[k := Without(lists[k], b)], if p < b then p else b, k + 1)
  }

  /** One round of a release: the buddy is taken off its list and joined, or there is none to join. */
  ghost predicate MergedRound(lists: Lists, p: nat, k: nat, merged: bool, lists': Lists, p': nat, k': nat)
    requires |lists| == MAX_ORDER && k < MAX_ORDER
  {
    var b := Buddy(p, k);
    if merged then
      && k + 1 < MAX_ORDER && b in lists[k]
      && lists' == lists[k := Without(lists[k], b)] && p' == (if p < b then p else b) && k' == k + 1
    else lists' == lists && p' == p && k' == k && (k + 1 >= MAX_ORDER || b !in lists[k])
  }

  lemma FreeListsRound(lists: Lists, p: nat, k: nat, merged: bool, lists': Lists, p': nat, k': nat)
    requires |lists| == MAX_ORDER && k < MAX_ORDER && MergedRound(lists, p, k, merged, lists', p', k')
    ensures FreeLists(lists, p, k) == if merged then FreeLists(lists', p', k') else lists'[k' := [p'] + lists'[k']]
  {
  }

  /** The free blocks, forgetting list order. */
  ghost function FreeSet(lists: Lists): (r: set<Block>)
    requires |lists| == MAX_ORDER
    ensures forall b: Block :: b in r <==> b.order < MAX_ORDER && b.pfn in lists[b.order]
  {
    var r := set k, p | 0 <= k < MAX_ORDER && p in lists[k] :: Block(p, k);
    assert forall b: Block :: b.order < MAX_ORDER && b.pfn in lists[b.order] ==> Block(b.pfn, b.order) in r;
    r
  }

  /** The upper halves split off the order-`o` block at `p` on the way down to `order`. */
  ghost function UpperHalves(p: nat, order: nat, o: nat): (r: set<Block>)
    ensures forall b: Block :: b in r <==> order <= b.order < o && b.pfn == p + Pow2(b.order)
  {
    set s | order <= s < o :: Block(p + Pow2(s), s)
  }

  /** No two free blocks of one order below the top are buddies. */
  ghost predicate Coalesced(lists: Lists)
    requires |lists| == MAX_ORDER
  {
    forall k, p :: 0 <= k < MAX_ORDER - 1 && p in lists[k] ==> Buddy(p, k) !in lists[k]
  }

  /** Every listed block is aligned, listed once, and under one order only. */
  ghost predicate WellPlaced(lists: Lists)
    requires |lists| == MAX_ORDER
  {
    && (forall k :: 0 <= k < MAX_ORDER ==> Distinct(lists[k]))
    && (forall k, p :: 0 <= k < MAX_ORDER && p in lists[k] ==> Aligned(p, k))
    && (forall j, k, p :: 0 <= j < MAX_ORDER && 0 <= k < MAX_ORDER && p in lists[j] && p in lists[k] ==> j == k)
  }

  lemma ConsistentIsWellPlaced(m: seq<PageInfo>, heads: seq<Option<nat>>, lists: Lists)
    requires Consistent(m, heads, lists, 0, 0)
    ensures WellPlaced(lists)
  {
    forall k | 0 <= k < MAX_ORDER ensures Distinct(lists[k]) {
      assert ListOk(m, heads[k], lists[k], k);
    }
    forall k, p | 0 <= k < MAX_ORDER && p in lists[k] ensures Aligned(p, k) && p < |m| && m[p].order == k {
      ListedIsFreeHead(m, heads, lists, k, p);
      BlockPages(Marks(m), p, k, true);
    }
  }

  // ---- allocation ------------------------------------------------------

  lemma {:induction false} SplitMembers(lists: Lists, p: nat, order: nat, o: nat, s: nat, y: nat)
    requires |lists| == MAX_ORDER && order <= o < MAX_ORDER && s < MAX_ORDER
    ensures y in SplitLists(lists, p, order, o)[s] <==>
              y in lists[s] || (order <= s < o && y == p + Pow2(s))
    decreases o
  {
    if o > order {
      SplitMembers(lists[o - 1 := [p + Pow2(o - 1)] + lists[o - 1]], p, order, o - 1, s, y);
    }
  }

  /** Allocation removes one free block and adds the upper halves split off it. */
  lemma AllocFreeSet(lists: Lists, p: nat, order: nat, o: nat)
    requires |lists| == MAX_ORDER && WellPlaced(lists) && order <= o < MAX_ORDER && p in lists[o]
    ensures FreeSet(AllocLists(lists, p, order, o)) ==
              FreeSet(lists) - {Block(p, o)} + UpperHalves(p, order, o)
  {
    var l0 := lists[o := Without(lists[o], p)];
    WithoutFacts(lists[o], p);
    var want := FreeSet(lists) - {Block(p, o)} + UpperHalves(p, order, o);
    var got := FreeSet(AllocLists(lists, p, order, o));
    forall b: Block ensures b in got <==> b in want {
      if b.order < MAX_ORDER {
        SplitMembers(l0, p, order, o, b.order, b.pfn);
      }
    }
  }

  /** Splitting off upper halves never leaves two free buddies. */
  lemma AllocKeepsCoalesced(lists: Lists, p: nat, order: nat, o: nat)
    requires |lists| == MAX_ORDER && WellPlaced(lists) && order <= o < MAX_ORDER && p in lists[o]
    requires Coalesced(lists)
    ensures Coalesced(AllocLists(lists, p, order, o))
  {
    var l0 := lists[o := Without(lists[o], p)];
    var l1 := AllocLists(lists, p, order, o);
    WithoutFacts(lists[o], p);
    forall k, y | 0 <= k < MAX_ORDER - 1 && y in l1[k] ensures Buddy(y, k) !in l1[k] {
      SplitMembers(l0, p, order, o, k, y);
      SplitMembers(l0, p, order, o, k, Buddy(y, k));
      if order <= k < o {
        AlignedWeaken(p, o, k + 1);
        AlignedWeaken(p, o, k);
        BuddyFacts(p, k);
        assert p !in lists[k];
        if y == p + Pow2(k) {
          assert Buddy(y, k) == p;
        } else {
          BuddyFacts(y, k);
        }
      }
    }
  }

  // ---- release ---------------------------------------------------------

  lemma DropKeepsPlaces(lists: Lists, b: nat, k: nat)
    requires |lists| == MAX_ORDER && WellPlaced(lists) && k < MAX_ORDER && b in lists[k]
    ensures WellPlaced(lists[k := Without(lists[k], b)])
    ensures Coalesced(lists) ==> Coalesced(lists[k := Without(lists[k], b)])
  {
    WithoutFacts(lists[k], b);
  }

  /** Merging upwards until the buddy is not free never leaves two free buddies. */
  lemma {:induction false} FreeKeepsCoalesced(lists: Lists, p: nat, k: nat)
    requires |lists| == MAX_ORDER && WellPlaced(lists) && k < MAX_ORDER && Aligned(p, k)
    requires Coalesced(lists)
    ensures Coalesced(FreeLists(lists, p, k))
    decreases MAX_ORDER - k
  {
    var b := Buddy(p, k);
    BuddyFacts(p, k);
    if k + 1 >= MAX_ORDER || b !in lists[k] {
      var l1 := lists[k := [p] + lists[k]];
      forall j, y | 0 <= j < MAX_ORDER - 1 && y in l1[j] ensures Buddy(y, j) !in l1[j] {
        if j == k && y != p { BuddyFacts(y, k); }
      }
    } else {
      DropKeepsPlaces(lists, b, k);
      FreeKeepsCoalesced(lists[k := Without(lists[k], b)], if p < b then p else b, k + 1);
    }
  }

  predicate Inside(b: Block, c: Block)
  {
    c.pfn <= b.pfn && b.pfn + Pow2(b.order) <= c.pfn + Pow2(c.order)
  }

  /** The merged block is aligned, at least as large as the released one, and holds it. */
  lemma {:induction false} MergedPlace(lists: Lists, p: nat, k: nat)
    requires |lists| == MAX_ORDER && k < MAX_ORDER && Aligned(p, k)
    ensures var mb := MergedBlock(lists, p, k);
            k <= mb.order < MAX_ORDER && Aligned(mb.pfn, mb.order) && Inside(Block(p, k), mb)
    decreases MAX_ORDER - k
  {
    var b := Buddy(p, k);
    BuddyFacts(p, k);
    if k + 1 < MAX_ORDER && b in lists[k] {
      MergedPlace(lists[k := Without(lists[k], b)], if p < b then p else b, k + 1);
    }
  }

  /** Between `f` and `g` the block `mb` was added and only blocks inside it were removed. */
  ghost predicate ReplacedBy(f: set<Block>, g: set<Block>, mb: Block)
  {
    mb in g && (forall b :: b in g && b != mb ==> b in f) && (forall b :: b in f && b !in g ==> Inside(b, mb))
  }

  lemma ReplacedMore(f: set<Block>, f1: set<Block>, g: set<Block>, mb: Block, x: Block)
    requires ReplacedBy(f1, g, mb) && f1 == f - {x} && Inside(x, mb)
    ensures ReplacedBy(f, g, mb)
  {
  }

  lemma FreeSetPush(lists: Lists, p: nat, k: nat)
    requires |lists| == MAX_ORDER && k < MAX_ORDER
    ensures FreeSet(lists[k := [p] + lists[k]]) == FreeSet(lists) + {Block(p, k)}
  {
    forall x: Block ensures x in FreeSet(lists[k := [p] + lists[k]]) <==> x in FreeSet(lists) || x == Block(p, k) {
      assert x == Block(x.pfn, x.order);
    }
  }

  lemma FreeSetDrop(lists: Lists, b: nat, k: nat)
    requires |lists| == MAX_ORDER && k < MAX_ORDER && b in lists[k] && Distinct(lists[k])
    ensures FreeSet(lists[k := Without(lists[k], b)]) == FreeSet(lists) - {Block(b, k)}
  {
    WithoutFacts(lists[k], b);
    forall x: Block ensures x in FreeSet(lists[k := Without(lists[k], b)]) <==> x in FreeSet(lists) && x != Block(b, k) {
      assert x == Block(x.pfn, x.order);
    }
  }

  /** Releasing replaces free buddies by the merged block and touches nothing outside it. */
  lemma {:induction false} FreeFreeSet(lists: Lists, p: nat, k: nat)
    requires |lists| == MAX_ORDER && WellPlaced(lists) && k < MAX_ORDER && Aligned(p, k)
    ensures ReplacedBy(FreeSet(lists), FreeSet(FreeLists(lists, p, k)), MergedBlock(lists, p, k))
    decreases MAX_ORDER - k
  {
    var b := Buddy(p, k);
    BuddyFacts(p, k);
    if k + 1 >= MAX_ORDER || b !in lists[k] {
      FreeSetPush(lists, p, k);
    } else {
      DropKeepsPlaces(lists, b, k);
      FreeSetDrop(lists, b, k);
      var l1 := lists[k := Without(lists[k], b)];
      var p1 := if p < b then p else b;
      FreeFreeSet(l1, p1, k + 1);
      MergedPlace(l1, p1, k + 1);
      assert Inside(Block(b, k), Block(p1, k + 1));
      ReplacedMore(FreeSet(lists), FreeSet(l1), FreeSet(FreeLists(l1, p1, k + 1)), MergedBlock(l1, p1, k + 1), Block(b, k));
    }
  }

  // ---- the two together ------------------------------------------------

  /** Releasing what was split off undoes the split, one level at a time. */
  lemma {:induction false} MergeUndoesSplit(lists: Lists, p: nat, order: nat, o: nat)
    requires |lists| == MAX_ORDER && order <= o < MAX_ORDER && Aligned(p, o)
    requires o + 1 < MAX_ORDER ==> Buddy(p, o) !in lists[o]
    ensures FreeLists(SplitLists(lists, p, order, o), p, order) == lists[o := [p] + lists[o]]
    decreases o - order
  {
    if order < o {
      AlignedWeaken(p, o, order + 1);
      AlignedWeaken(p, o, order);
      BuddyFacts(p, order);
      var b := p + Pow2(order);
      var s0 := SplitLists(lists, p, order, o);
      var s1 := SplitLists(lists, p, order + 1, o);
      SplitLowestFirst(lists, p, order, o);
      assert s0[order] == [b] + s1[order];
      WithoutFirst(s1[order], b);
      assert s0[order := Without(s0[order], b)] == s1;
      MergeUndoesSplit(lists, p, order + 1, o);
    }
  }

  lemma {:induction false} SplitLowestFirst(lists: Lists, p: nat, order: nat, o: nat)
    requires |lists| == MAX_ORDER && order < o < MAX_ORDER
    ensures var s1 := SplitLists(lists, p, order + 1, o);
            SplitLists(lists, p, order, o) == s1[order := [p + Pow2(order)] + s1[order]]
    decreases o - order
  {
    if order + 1 < o {
      SplitLowestFirst(lists[o - 1 := [p + Pow2(o - 1)] + lists[o - 1]], p, order, o - 1);
    }
  }

  /** From a coalesced state, allocating and then freeing restores the same set of free blocks. */
  lemma AllocThenFree(lists: Lists, p: nat, order: nat, o: nat)
    requires |lists| == MAX_ORDER && WellPlaced(lists) && Coalesced(lists)
    requires order <= o < MAX_ORDER && p in lists[o]
    ensures FreeSet(FreeLists(AllocLists(lists, p, order, o), p, order)) == FreeSet(lists)
  {
    var l0 := lists[o := Without(lists[o], p)];
    WithoutFacts(lists[o], p);
    MergeUndoesSplit(l0, p, order, o);
    var l1 := l0[o := [p] + l0[o]];
    forall b: Block ensures b in FreeSet(l1) <==> b in FreeSet(lists) {
      assert b == Block(b.pfn, b.order);
    }
  }

  // ---- the marks that go with the lists ----------------------------------

  /**
    Between `ms` and `ms'` exactly the block `(p, k)` went from free to live:
    its pages were free and are not any more, all other pages keep their free
    mark, and it is the only live block that is new.
  */
  ghost predicate Allocated(ms: seq<Mark>, ms': seq<Mark>, p: nat, k: nat)
  {
    && |ms'| == |ms| && k < MAX_ORDER && p + Pow2(k) <= |ms|
    && (forall q :: p <= q < p + Pow2(k) ==> ms[q].isFree)
    && (forall q :: 0 <= q < |ms| ==> (ms'[q].isFree <==> ms[q].isFree && !(p <= q < p + Pow2(k))))
    && (forall x: nat, j: nat :: IsBlock(ms', x, j, false) <==> IsBlock(ms, x, j, false) || (x == p && j == k))
  }

  ghost predicate StaysLive(ms: seq<Mark>, ms': seq<Mark>, x: nat, j: nat)
  {
    IsBlock(ms, x, j, false) ==> IsBlock(ms', x, j, false)
  }

  ghost predicate StaysTaken(ms: seq<Mark>, ms': seq<Mark>, q: nat)
  {
    q < |ms| == |ms'| && ms'[q].isFree ==> ms[q].isFree
  }

  /** What was live stays live, and no page becomes free: what allocations alone can do. */
  ghost predicate KeepsLive(ms: seq<Mark>, ms': seq<Mark>)
  {
    && |ms'| == |ms|
    && (forall x: nat, j: nat {:trigger StaysLive(ms, ms', x, j)} :: StaysLive(ms, ms', x, j))
    && (forall q: nat {:trigger StaysTaken(ms, ms', q)} :: StaysTaken(ms, ms', q))
  }

  ghost predicate TookPage(ms: seq<Mark>, ms': seq<Mark>, pages: set<nat>, q: nat)
  {
    && (q in pages ==> q < |ms| && ms[q].isFree)
    && (q < |ms| == |ms'| ==> (ms'[q].isFree <==> ms[q].isFree && q !in pages))
  }

  ghost predicate TookBlock(ms: seq<Mark>, ms': seq<Mark>, pages: set<nat>, x: nat, j: nat)
  {
    IsBlock(ms', x, j, false) <==> IsBlock(ms, x, j, false) || (j == 0 && x in pages)
  }

  /** Between `ms` and `ms'` exactly the single pages `pages` went from free to live. */
  ghost predicate Took(ms: seq<Mark>, ms': seq<Mark>, pages: set<nat>)
  {
    && |ms'| == |ms|
    && (forall q: nat {:trigger TookPage(ms, ms', pages, q)} :: TookPage(ms, ms', pages, q))
    && (forall x: nat, j: nat {:trigger TookBlock(ms, ms', pages, x, j)} :: TookBlock(ms, ms', pages, x, j))
  }

  lemma TookNone(ms: seq<Mark>)
    ensures Took(ms, ms, {})
  {
  }

  lemma TookOne(ms: seq<Mark>, ms': seq<Mark>, p: nat)
    requires Allocated(ms, ms', p, 0)
    ensures Took(ms, ms', {p})
  {
    assert Pow2(0) == 1;
  }

  lemma TookThen(ms: seq<Mark>, ms1: seq<Mark>, ms2: seq<Mark>, s: set<nat>, t: set<nat>)
    requires Took(ms, ms1, s) && Took(ms1, ms2, t)
    ensures Took(ms, ms2, s + t) && s !! t
  {
    forall q: nat ensures TookPage(ms, ms2, s + t, q) && !(q in s && q in t) {
      assert TookPage(ms, ms1, s, q) && TookPage(ms1, ms2, t, q);
    }
    forall x: nat, j: nat ensures TookBlock(ms, ms2, s + t, x, j) {
      assert TookBlock(ms, ms1, s, x, j) && TookBlock(ms1, ms2, t, x, j);
    }
  }

  lemma TookKeepsLive(ms: seq<Mark>, ms': seq<Mark>, pages: set<nat>)
    requires Took(ms, ms', pages)
    ensures KeepsLive(ms, ms')
  {
    forall x: nat, j: nat ensures StaysLive(ms, ms', x, j) { assert TookBlock(ms, ms', pages, x, j); }
    forall q: nat ensures StaysTaken(ms, ms', q) { assert TookPage(ms, ms', pages, q); }
  }

  lemma AllocatedKeepsLive(ms: seq<Mark>, ms': seq<Mark>, p: nat, k: nat)
    requires Allocated(ms, ms', p, k)
    ensures KeepsLive(ms, ms')
  {
  }

  /** The same pages belong to some block, free or live. */
  ghost predicate SameManaged(ms: seq<Mark>, ms': seq<Mark>)
  {
    |ms'| == |ms| && forall q :: 0 <= q < |ms| ==> (ms[q] == BLANK <==> ms'[q] == BLANK)
  }

  /** A page that is in some block and not free is in a live block. */
  lemma LivePage(ms: seq<Mark>, q: nat) returns (x: nat, j: nat)
    requires Geometry(ms) && q < |ms| && ms[q] != BLANK && !ms[q].isFree
    ensures IsBlock(ms, x, j, false) && x <= q < x + Pow2(j)
  {
    assert OutsideOk(ms, 0, 0, q);
    x, j := ClearLow(q, ms[q].order), ms[q].order;
    ClearLowFacts(q, j);
  }

  /** An allocation, and so its reverse, gains and loses no page. */
  lemma AllocationConserves(ms: seq<Mark>, ms': seq<Mark>, p: nat, k: nat)
    requires Geometry(ms) && Geometry(ms') && Allocated(ms, ms', p, k)
    ensures SameManaged(ms, ms')
  {
    assert IsBlock(ms', p, k, false);
    BlockPages(ms', p, k, false);
    forall q | 0 <= q < |ms| ensures ms[q] == BLANK <==> ms'[q] == BLANK {
      if ms[q] != BLANK && !ms[q].isFree {
        var x, j := LivePage(ms, q);
        BlockPages(ms', x, j, false);
      }
      if ms'[q] != BLANK && !ms'[q].isFree {
        var x, j := LivePage(ms', q);
        if x != p || j != k { BlockPages(ms, x, j, false); }
      }
    }
  }

  /** Pushing the block just marked free makes the lists match again. */
  lemma MatchAfterPush(ms: seq<Mark>, lists: Lists, lo: nat, hi: nat, b: nat, k: nat)
    requires |lists| == MAX_ORDER && k < MAX_ORDER && lo <= b && b + Pow2(k) == hi <= |ms|
    requires ListsMatch(ms, lists, lo, hi)
    ensures ListsMatch(Marked(ms, b, k, true), lists[k := [b] + lists[k]], lo, b)
  {
  }

  /** Unlisting a free block that then joins the hole. */
  lemma MatchAfterWiden(m: seq<PageInfo>, heads: seq<Option<nat>>, lists: Lists, lo: nat, hi: nat, b: nat, k: nat)
    requires Consistent(m, heads, lists, lo, hi) && k < MAX_ORDER && b in lists[k] && lo < hi
    requires b == hi || b + Pow2(k) == lo
    ensures b < |m| && Marks(m)[b] == Mark(k, true, true)
    ensures var l := lists[k := Without(lists[k], b)];
            var lo', hi' := if b < lo then b else lo, if b < lo then hi else hi + Pow2(k);
            GeometryExcept(Marks(m), lo', hi') && ListsMatch(Marks(m), l, lo', hi')
  {
    var ms := Marks(m);
    ListedIsFreeHead(m, heads, lists, k, b);
    WidenHole(ms, lo, hi, b);
    assert ListOk(m, heads[k], lists[k], k);
    WithoutFacts(lists[k], b);
    var l := lists[k := Without(lists[k], b)];
    var lo', hi' := if b < lo then b else lo, if b < lo then hi else hi + Pow2(k);
    forall j, x | 0 <= j < MAX_ORDER && x in l[j] ensures !(lo' <= x < hi') {
      assert x in lists[j];
      ListedIsFreeHead(m, heads, lists, j, x);
    }
  }

  /** Opening a live block as a hole: nothing listed lies inside it. */
  lemma MatchAfterOpen(m: seq<PageInfo>, heads: seq<Option<nat>>, lists: Lists, p: nat, k: nat)
    requires Consistent(m, heads, lists, 0, 0) && IsBlock(Marks(m), p, k, false)
    ensures k < MAX_ORDER && Aligned(p, k) && p + Pow2(k) <= |m|
    ensures Consistent(m, heads, lists, p, p + Pow2(k))
    ensures forall q :: p <= q < p + Pow2(k) ==> Marks(m)[q] == Mark(k, q == p, false)
  {
    var ms := Marks(m);
    BlockPages(ms, p, k, false);
    OpenHole(ms, p);
    forall j, x | 0 <= j < MAX_ORDER && x in lists[j] ensures !(p <= x < p + Pow2(k)) {
      ListedIsFreeHead(m, heads, lists, j, x);
    }
  }

  /** Unlisting a free block opens a hole of its pages. */
  lemma MatchAfterUnlist(m: seq<PageInfo>, heads: seq<Option<nat>>, lists: Lists, p: nat, k: nat)
    requires Consistent(m, heads, lists, 0, 0) && k < MAX_ORDER && p in lists[k]
    ensures Aligned(p, k) && p + Pow2(k) <= |m|
    ensures forall q :: p <= q < p + Pow2(k) ==> Marks(m)[q] == Mark(k, q == p, true)
    ensures GeometryExcept(Marks(m), p, p + Pow2(k))
    ensures ListsMatch(Marks(m), lists[k := Without(lists[k], p)], p, p + Pow2(k))
  {
    var ms := Marks(m);
    ListedIsFreeHead(m, heads, lists, k, p);
    BlockPages(ms, p, k, true);
    OpenHole(ms, p);
    assert ListOk(m, heads[k], lists[k], k);
    WithoutFacts(lists[k], p);
    var l := lists[k := Without(lists[k], p)];
    forall j, x | 0 <= j < MAX_ORDER && x in l[j] ensures !(p <= x < p + Pow2(k)) {
      assert x in lists[j];
      ListedIsFreeHead(m, heads, lists, j, x);
    }
  }

  // ---- progress of the split and merge loops -----------------------------

  /** While splitting `(p, o)` down to `split`: outside nothing changed, the split-off part is free. */
  ghost predicate SplitMarks(ms0: seq<Mark>, ms: seq<Mark>, p: nat, split: nat, o: nat)
  {
    && |ms| == |ms0| && p + Pow2(split) <= p + Pow2(o) <= |ms0|
    && (forall q :: 0 <= q < |ms0| && !(p <= q < p + Pow2(o)) ==> ms[q] == ms0[q])
    && (forall q :: p + Pow2(split) <= q < p + Pow2(o) ==> ms[q].isFree)
  }

  lemma SplitMarksStep(ms0: seq<Mark>, ms: seq<Mark>, p: nat, split: nat, o: nat)
    requires SplitMarks(ms0, ms, p, split + 1, o)
    ensures p + Pow2(split) + Pow2(split) == p + Pow2(split + 1) <= |ms|
    ensures SplitMarks(ms0, Marked(ms, p + Pow2(split), split, true), p, split, o)
  {
  }

  /** What the whole split did to the marks amounts to one allocation. */
  lemma SplitIsAllocation(ms0: seq<Mark>, ms: seq<Mark>, p: nat, order: nat, o: nat)
    requires Geometry(ms0) && IsBlock(ms0, p, o, true) && order <= o && SplitMarks(ms0, ms, p, order, o)
    ensures Allocated(ms0, Marked(ms, p, order, false), p, order)
  {
    BlockPages(ms0, p, o, true);
  }

  /** While merging: the hole `(cur, order)` holds the released block and free pages only. */
  ghost predicate MergeMarks(ms: seq<Mark>, p: nat, k: nat, cur: nat, order: nat)
  {
    && cur <= p && p + Pow2(k) <= cur + Pow2(order) <= |ms|
    && (forall q :: cur <= q < cur + Pow2(order) ==> p <= q < p + Pow2(k) || ms[q].isFree)
  }

  lemma MergeMarksStep(ms: seq<Mark>, p: nat, k: nat, cur: nat, order: nat, b: nat)
    requires Geometry(ms) && MergeMarks(ms, p, k, cur, order) && IsBlock(ms, b, order, true)
    requires b == cur + Pow2(order) || b + Pow2(order) == cur
    ensures MergeMarks(ms, p, k, if cur < b then cur else b, order + 1)
  {
    BlockPages(ms, b, order, true);
  }

  /** A free buddy next to the hole is listed, and the hole that takes it in is again a hole. */
  lemma AbsorbStep(m: seq<PageInfo>, heads: seq<Option<nat>>, lists: Lists, cur: nat, order: nat, b: nat, low: nat)
    requires order + 1 < MAX_ORDER && Aligned(cur, order) && b == Buddy(cur, order) && low == Min(cur, b)
    requires Consistent(m, heads, lists, cur, cur + Pow2(order))
    requires b < |m| && Marks(m)[b] == Mark(order, true, true)
    ensures b in lists[order] && (b == cur + Pow2(order) || b + Pow2(order) == cur) && Aligned(low, order + 1)
    ensures GeometryExcept(Marks(m), low, low + Pow2(order + 1))
    ensures ListsMatch(Marks(m), lists[order := Without(lists[order], b)], low, low + Pow2(order + 1))
  {
    XorCompletes(cur, order);
    MatchAfterWiden(m, heads, lists, cur, cur + Pow2(order), b, order);
  }

  /** What the whole merge did to the marks is the reverse of one allocation. */
  lemma MergeIsRelease(ms: seq<Mark>, p: nat, k: nat, cur: nat, order: nat)
    requires Geometry(ms) && IsBlock(ms, p, k, false) && MergeMarks(ms, p, k, cur, order)
    ensures Allocated(Marked(ms, cur, order, true), ms, p, k)
  {
    BlockPages(ms, p, k, false);
    var ms' := Marked(ms, cur, order, true);
    forall x: nat, j: nat
      ensures IsBlock(ms, x, j, false) <==> IsBlock(ms', x, j, false) || (x == p && j == k)
    {
    }
  }

  // ---- what coalescing guarantees ----------------------------------------

  /** An aligned block that holds the start of an aligned run of no larger order holds all of it. */
  lemma BlockHoldsRun(b: nat, j: nat, p: nat, k: nat)
    requires Aligned(b, j) && Aligned(p, k) && k <= j && b < p + Pow2(k) && p < b + Pow2(j)
    ensures b <= p && p + Pow2(k) <= b + Pow2(j)
  {
    AlignedWeaken(b, j, k);
    AlignedTop(b, j, k);
    if p < b { AlignedGap(p, b, k); }
    AlignedGap(p, b + Pow2(j), k);
  }

  /** Without mergeable buddies, an aligned run of free pages lies in one free block. */
  lemma {:induction false} FreeRunInOneBlock(m: seq<PageInfo>, heads: seq<Option<nat>>, lists: Lists, p: nat, k: nat) returns (b: nat, j: nat)
    requires Consistent(m, heads, lists, 0, 0) && Coalesced(lists) && k < MAX_ORDER && Aligned(p, k) && p + Pow2(k) <= |m|
    requires forall q :: p <= q < p + Pow2(k) ==> m[q].isFree
    ensures k <= j < MAX_ORDER && b in lists[j] && Aligned(b, j) && b <= p && p + Pow2(k) <= b + Pow2(j)
    decreases k
  {
    if k == 0 {
      b, j := FreePageListed(m, heads, lists, p);
      assert Pow2(0) == 1;
    } else {
      var h := Pow2(k - 1);
      AlignedWeaken(p, k, k - 1);
      BuddyFacts(p, k - 1);
      var b1, j1 := FreeRunInOneBlock(m, heads, lists, p, k - 1);
      var b2, j2 := FreeRunInOneBlock(m, heads, lists, p + h, k - 1);
      if j1 >= k {
        BlockHoldsRun(b1, j1, p, k);
        b, j := b1, j1;
      } else {
        assert b1 == p && j1 == k - 1 && Buddy(p, k - 1) !in lists[k - 1];
        BlockHoldsRun(b2, j2, p, k);
        b, j := b2, j2;
      }
    }
  }

  /** A free page lies in a listed block. */
  lemma FreePageListed(m: seq<PageInfo>, heads: seq<Option<nat>>, lists: Lists, q: nat) returns (b: nat, j: nat)
    requires Consistent(m, heads, lists, 0, 0) && q < |m| && m[q].isFree
    ensures j < MAX_ORDER && b in lists[j] && Aligned(b, j) && b <= q < b + Pow2(j)
  {
    var ms := Marks(m);
    FreePageInOneBlock(ms, q, 0, 0);
    b, j := ClearLow(q, ms[q].order), ms[q].order;
    BlockPages(ms, b, j, true);
  }
}
