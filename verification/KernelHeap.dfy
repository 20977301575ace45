/**
  The kernel heap: a first-fit allocator over the coalescing free list, grown in
  4 MiB chunks taken from the buddy allocator.
*/
module KernelHeap {
  import opened Basics
  import opened PowersOfTwo
  import BG = BuddyGeometry
  import BL = BuddyLists
  import BS = BuddySpec
  import BR = BuddyRegion
  import AR = BuddyAreas
  import BA = BuddyAllocator
  import opened AllocLayout
  import List = IntrusiveList
  import opened HeapSpec
  import opened HeapList

  const CHUNK_ORDER := 10
  const CHUNK_PAGES := 1024
  const CHUNK_SHIFT := 22
  const CHUNK_SIZE := 4194304
  const MIN_SHIFT := 3

  /** A live allocation: the user pointer, the block it was cut from, the layout asked for. */
  datatype Live = Live(ptr: nat, block: Span, layout: Layout)

  // ---- chunks ------------------------------------------------------------------

  function ChunkSpan(c: nat): (s: Span) { Span(KERNEL_VMA + c * CHUNK_SIZE, CHUNK_SIZE) }

  /** Byte `x` lies in one of the chunks obtained from the buddy allocator. */
  predicate Owned(chunks: set<nat>, x: nat)
  {
    x >= KERNEL_VMA && (x - KERNEL_VMA) / CHUNK_SIZE in chunks
  }

  lemma OwnedChunk(chunks: set<nat>, c: nat, x: nat)
    ensures Owned(chunks + {c}, x) <==> Owned(chunks, x) || Holds(ChunkSpan(c), x)
  {
  }

  // ---- the invariant -------------------------------------------------------------

  /** Header, back pointer and user bytes lie apart and inside the block. */
  predicate LiveOk(head: nat, l: Live)
  {
    && SpanOk(head, l.block) && l.block.addr % 8 == 0 && l.block.size % 8 == 0
    && l.block.addr + HEADER_SIZE + BACK_PTR_SIZE <= l.ptr
    && l.ptr + l.layout.size <= End(l.block)
    && Aligned(l.ptr, l.layout.shift) && l.ptr % 8 == 0 && l.layout.size >= 1
  }

  /** The header still records the block size and the back pointer still names the header. */
  ghost predicate Recorded(w: List.Words, l: Live)
  {
    List.Get(w, l.block.addr) == l.block.size &&
    l.ptr >= BACK_PTR_SIZE && List.Get(w, l.ptr - BACK_PTR_SIZE) == l.block.addr
  }

  ghost predicate LiveHolds(live: set<Live>, x: nat)
  {
    exists l :: l in live && Holds(l.block, x)
  }

  ghost predicate LivesOk(head: nat, live: set<Live>, free: set<Span>)
  {
    && (forall l :: l in live ==> LiveOk(head, l) && DisjointFrom(l.block, free))
    && (forall l, k :: l in live && k in live && l != k ==> Disjoint(l.block, k.block))
  }

  ghost predicate WordAligned(free: set<Span>)
  {
    forall s :: s in free ==> s.addr % 8 == 0 && s.size % 8 == 0
  }

  /** Every byte obtained from the buddy allocator is free, live or lost, and never two of these. */
  ghost predicate Accounted(chunks: set<nat>, free: set<Span>, live: set<Live>, lost: set<nat>)
  {
    && (forall x: nat :: Owned(chunks, x) <==> Covers(free, x) || LiveHolds(live, x) || x in lost)
    && (forall x :: x in lost ==> !Covers(free, x) && !LiveHolds(live, x))
  }

  ghost predicate AllRecorded(w: List.Words, live: set<Live>)
  {
    forall l :: l in live ==> Recorded(w, l)
  }

  /** Byte `x` is in no chunk and on no page the buddy allocator could give away. */
  predicate OutOfReach(x: nat, ms: seq<BG.Mark>, chunks: set<nat>)
  {
    && !Owned(chunks, x)
    && (x >= KERNEL_VMA && (x - KERNEL_VMA) / PAGE_SIZE < |ms| ==> !ms[(x - KERNEL_VMA) / PAGE_SIZE].isFree)
  }

  /** The list head stays out of every chunk. */
  predicate HeadReserved(head: nat, ms: seq<BG.Mark>, chunks: set<nat>)
  {
    forall x :: head <= x < head + 16 ==> OutOfReach(x, ms, chunks)
  }

  ghost predicate ChunksHeld(ms: seq<BG.Mark>, chunks: set<nat>)
  {
    forall c :: c in chunks ==> BG.IsBlock(ms, c * CHUNK_PAGES, CHUNK_ORDER, false)
  }

  // ---- frames --------------------------------------------------------------------

  ghost predicate OutsideSpans(head: nat, f: set<Span>, a: nat)
  {
    !(head <= a < head + 16) && !Covers(f, a)
  }

  /** Memory changed only in the list head and inside the spans `f`. */
  ghost predicate OnlyWithin(w: List.Words, w': List.Words, head: nat, f: set<Span>)
  {
    forall a: nat {:trigger OutsideSpans(head, f, a)} :: OutsideSpans(head, f, a) ==> List.Get(w', a) == List.Get(w, a)
  }

  lemma HeadersAreWithin(w: List.Words, w': List.Words, head: nat, f: set<Span>)
    requires OnlyHeaders(w, w', head, f) && forall s :: s in f ==> SpanOk(head, s)
    ensures OnlyWithin(w, w', head, f)
  {
    forall a: nat | OutsideSpans(head, f, a) ensures List.Get(w', a) == List.Get(w, a) {
      forall s | s in f ensures !(s.addr <= a < s.addr + HEADER_SIZE) {
        assert SpanOk(head, s) && !Holds(s, a);
      }
      assert OutsideHeaders(head, f, a);
    }
  }

  lemma OnlyWithinThen(w: List.Words, w1: List.Words, w2: List.Words, head: nat, f: set<Span>)
    requires OnlyWithin(w, w1, head, f) && OnlyWithin(w1, w2, head, f)
    ensures OnlyWithin(w, w2, head, f)
  {
  }

  /** Widening the frame to spans that cover at least as much. */
  lemma WidenWithin(w: List.Words, w': List.Words, head: nat, f: set<Span>, g: set<Span>)
    requires OnlyWithin(w, w', head, f) && forall x: nat :: Covers(f, x) ==> Covers(g, x)
    ensures OnlyWithin(w, w', head, g)
  {
    forall a: nat | OutsideSpans(head, g, a) ensures List.Get(w', a) == List.Get(w, a) {
      assert OutsideSpans(head, f, a);
    }
  }

  /** Live blocks outside the frame stay recorded: owners and the allocator do not disturb each other. */
  lemma LiveSurvives(w: List.Words, w': List.Words, head: nat, f: set<Span>, l: Live)
    requires OnlyWithin(w, w', head, f) && LiveOk(head, l) && DisjointFrom(l.block, f) && Recorded(w, l)
    ensures Recorded(w', l)
  {
    forall a: nat | Holds(l.block, a) ensures OutsideSpans(head, f, a) {
      assert forall s :: s in f ==> Disjoint(l.block, s);
    }
    assert Holds(l.block, l.block.addr) && Holds(l.block, l.ptr - 8);
    assert OutsideSpans(head, f, l.block.addr) && OutsideSpans(head, f, l.ptr - 8);
  }

  lemma LivesSurvive(w: List.Words, w': List.Words, head: nat, f: set<Span>, live: set<Live>)
    requires OnlyWithin(w, w', head, f) && AllRecorded(w, live)
    requires forall l :: l in live ==> LiveOk(head, l) && DisjointFrom(l.block, f)
    ensures AllRecorded(w', live)
  {
    forall l | l in live ensures Recorded(w', l) {
      LiveSurvives(w, w', head, f, l);
    }
  }

  // ---- placement -----------------------------------------------------------------

  /** What a placement in a free span amounts to. */
  lemma PlacedIsLive(head: nat, s: Span, l: Layout, p: Placement)
    requires SpanOk(head, s) && s.addr % 8 == 0 && s.size % 8 == 0
    requires l.size >= 1 && l.shift >= MIN_SHIFT && PlacedWell(s.addr, s.size, l, HEAP, p)
    ensures 40 <= p.usedSize <= s.size && p.usedSize % 8 == 0
    ensures LiveOk(head, Live(p.userPtr, Front(s, p.usedSize), l))
    ensures Slack(s.size, p.usedSize) <= 32 && Slack(s.size, p.usedSize) % 8 == 0
  {
    WordAlignedPtr(p.userPtr, l.shift);
    WordAlignedPtr(s.addr + p.usedSize, 3);
    WordDifference(s.addr + p.usedSize, s.addr);
    SlackFacts(s.size, p.usedSize);
  }

  lemma WordDifference(a: nat, b: nat)
    requires a % 8 == 0 && b % 8 == 0 && b <= a
    ensures (a - b) % 8 == 0
  {
  }

  lemma WordSum(a: nat, b: nat)
    requires a % 8 == 0 && b % 8 == 0
    ensures (a + b) % 8 == 0
  {
  }

  /** A remainder too small to keep is a multiple of 8 below 33, so at most 32. */
  lemma SlackFacts(size: nat, used: nat)
    requires used <= size && size % 8 == 0 && used % 8 == 0
    ensures Slack(size, used) <= 32 && Slack(size, used) % 8 == 0
  {
    WordDifference(size, used);
  }

  lemma WordAlignedPtr(x: nat, shift: nat)
    requires Aligned(x, shift) && shift >= 3
    ensures x % 8 == 0
  {
    AlignedWeaken(x, shift, 3);
    AlignedIsModulo(x, 3);
    assert Pow2(3) == 8;
  }

  // ---- accounting ----------------------------------------------------------------

  /** The bytes an allocation loses for good. */
  ghost function SlackBytes(s: Span, used: nat): (r: set<nat>)
    requires used <= s.size
  {
    if s.size - used >= MIN_FREE_BLOCK_SIZE then {} else BytesOf(Rest(s, used))
  }

  lemma SlackBytesCount(s: Span, used: nat)
    requires used <= s.size
    ensures |SlackBytes(s, used)| == Slack(s.size, used)
  {
    BytesOfCount(Rest(s, used));
  }

  /** Carving the front off a free span moves its bytes from free to live and lost. */
  lemma TakeAccounted(chunks: set<nat>, free: set<Span>, live: set<Live>, lost: set<nat>, s: Span, l: Live, used: nat)
    requires Accounted(chunks, free, live, lost) && Separated(free) && s in free
    requires 0 < used <= s.size && l.block == Front(s, used)
    requires forall k :: k in live ==> DisjointFrom(k.block, free)
    ensures Accounted(chunks, TakeFront(free, s, used), live + {l}, lost + SlackBytes(s, used))
  {
    var free' := TakeFront(free, s, used);
    var slack := SlackBytes(s, used);
    forall x: nat
      ensures Owned(chunks, x) <==> Covers(free', x) || LiveHolds(live + {l}, x) || x in lost + slack
      ensures x in lost + slack ==> !Covers(free', x) && !LiveHolds(live + {l}, x)
    {
      TakeCovers(free, s, used, x);
      LivePlus(live, l, x);
      LiveNotInSpan(live, free, s, x);
    }
  }

  lemma TakeCovers(free: set<Span>, s: Span, used: nat, x: nat)
    requires Separated(free) && s in free && 0 < used <= s.size
    ensures Covers(free, x) <==> Covers(TakeFront(free, s, used), x) || Holds(Front(s, used), x) ||
                                 (s.size - used < MIN_FREE_BLOCK_SIZE && Holds(Rest(s, used), x))
    ensures Holds(Front(s, used), x) || (s.size - used < MIN_FREE_BLOCK_SIZE && Holds(Rest(s, used), x)) ==>
              !Covers(TakeFront(free, s, used), x)
  {
    var f := free - {s};
    assert free == f + {s};
    CoversPlus(f, s, x);
    CoversPlus(f, Rest(s, used), x);
    assert Holds(s, x) <==> Holds(Front(s, used), x) || Holds(Rest(s, used), x);
    if Holds(s, x) {
      forall t | t in f ensures !Holds(t, x) { assert Apart(s, t); }
    }
  }

  lemma LivePlus(live: set<Live>, l: Live, x: nat)
    ensures LiveHolds(live + {l}, x) <==> LiveHolds(live, x) || Holds(l.block, x)
  {
    if LiveHolds(live, x) {
      var k :| k in live && Holds(k.block, x);
      assert k in live + {l};
    }
    if Holds(l.block, x) { assert l in live + {l}; }
  }

  lemma LiveNotInSpan(live: set<Live>, free: set<Span>, s: Span, x: nat)
    requires s in free && forall k :: k in live ==> DisjointFrom(k.block, free)
    ensures Holds(s, x) ==> !LiveHolds(live, x)
  {
    forall k | k in live ensures !(Holds(s, x) && Holds(k.block, x)) {
      assert DisjointFrom(k.block, free) && Disjoint(k.block, s);
    }
  }

  /** Freeing moves a block's bytes from live back to free. */
  lemma FreeAccounted(chunks: set<nat>, free: set<Span>, live: set<Live>, lost: set<nat>, l: Live, free': set<Span>)
    requires Accounted(chunks, free, live, lost) && l in live && CoalescedWith(free, l.block, free')
    requires forall k :: k in live && k != l ==> Disjoint(l.block, k.block)
    ensures Accounted(chunks, free', live - {l}, lost)
  {
    assert live == live - {l} + {l};
    forall x: nat
      ensures Owned(chunks, x) <==> Covers(free', x) || LiveHolds(live - {l}, x) || x in lost
      ensures x in lost ==> !Covers(free', x) && !LiveHolds(live - {l}, x)
    {
      LivePlus(live - {l}, l, x);
    }
  }

  /** A new chunk is all free. */
  lemma GrowAccounted(chunks: set<nat>, free: set<Span>, live: set<Live>, lost: set<nat>, c: nat, free': set<Span>)
    requires Accounted(chunks, free, live, lost) && c !in chunks && CoalescedWith(free, ChunkSpan(c), free')
    ensures Accounted(chunks + {c}, free', live, lost)
  {
    forall x: nat
      ensures Owned(chunks + {c}, x) <==> Covers(free', x) || LiveHolds(live, x) || x in lost
      ensures x in lost ==> !Covers(free', x) && !LiveHolds(live, x)
    {
      OwnedChunk(chunks, c, x);
    }
  }

  /** A chunk not yet owned overlaps nothing the heap manages. */
  lemma NewChunkDisjoint(chunks: set<nat>, free: set<Span>, live: set<Live>, lost: set<nat>, c: nat, s: Span)
    requires Accounted(chunks, free, live, lost) && c !in chunks && s.size > 0
    requires s in free || exists l :: l in live && l.block == s
    ensures Disjoint(ChunkSpan(c), s)
  {
    if !Disjoint(ChunkSpan(c), s) {
      var x: nat := if s.addr > ChunkSpan(c).addr then s.addr else ChunkSpan(c).addr;
      assert Holds(s, x) && Holds(ChunkSpan(c), x);
      var owned := Owned(chunks, x);
    }
  }

  /** A new chunk is clear of all free spans and all live blocks. */
  lemma ChunkIsClear(head: nat, chunks: set<nat>, free: set<Span>, live: set<Live>, lost: set<nat>, c: nat)
    requires Accounted(chunks, free, live, lost) && c !in chunks && Separated(free) && LivesOk(head, live, free)
    ensures DisjointFrom(ChunkSpan(c), free)
    ensures forall k :: k in live ==> LiveOk(head, k) && Disjoint(k.block, ChunkSpan(c)) && DisjointFrom(k.block, free + {ChunkSpan(c)})
  {
    forall s | s in free ensures Disjoint(ChunkSpan(c), s) { NewChunkDisjoint(chunks, free, live, lost, c, s); }
    forall k | k in live
      ensures LiveOk(head, k) && Disjoint(k.block, ChunkSpan(c)) && DisjointFrom(k.block, free + {ChunkSpan(c)})
    {
      NewChunkDisjoint(chunks, free, live, lost, c, k.block);
    }
  }

  /** Growing the set of free spans by coalescing keeps spans word aligned and clear of the live blocks. */
  lemma CoalescedKeepsAligned(free: set<Span>, b: Span, free': set<Span>)
    requires WordAligned(free) && b.addr % 8 == 0 && b.size % 8 == 0
    requires Separated(free) && CoalescedWith(free, b, free')
    ensures WordAligned(free')
  {
    forall s | s in free' ensures s.addr % 8 == 0 && s.size % 8 == 0 {
      StartOfCoalesced(free, b, free', s);
      EndOfCoalesced(free, b, free', s);
      WordSum(b.addr, b.size);
      forall t | t in free ensures t.addr % 8 == 0 && End(t) % 8 == 0 { WordSum(t.addr, t.size); }
      WordDifference(End(s), s.addr);
    }
  }

  /** A coalesced span starts where the block or one of the old spans starts. */
  lemma StartOfCoalesced(free: set<Span>, b: Span, free': set<Span>, s: Span)
    requires CoalescedWith(free, b, free') && s in free'
    ensures s.addr == b.addr || exists t :: t in free && t.addr == s.addr
  {
    assert Holds(s, s.addr) && Covers(free', s.addr);
    BesideNotCovered(free', s);
    if !Holds(b, s.addr) {
      var t :| t in free && Holds(t, s.addr);
      CoveredNearby(free, t, s.addr);
    }
  }

  /** A coalesced span ends where the block or one of the old spans ends. */
  lemma EndOfCoalesced(free: set<Span>, b: Span, free': set<Span>, s: Span)
    requires CoalescedWith(free, b, free') && s in free'
    ensures End(s) == End(b) || exists t :: t in free && End(t) == End(s)
  {
    var x := End(s) - 1;
    assert Holds(s, x) && Covers(free', x);
    BesideNotCovered(free', s);
    if !Holds(b, x) {
      var t :| t in free && Holds(t, x);
      CoveredNearby(free, t, x);
    }
  }

  /** A block clear of the old spans and of the new block is clear of the coalesced spans. */
  lemma CoalescedKeepsDisjoint(free: set<Span>, b: Span, free': set<Span>, k: Span)
    requires CoalescedWith(free, b, free') && DisjointFrom(k, free) && Disjoint(k, b) && k.size > 0
    ensures DisjointFrom(k, free')
  {
    forall s | s in free' ensures Disjoint(k, s) {
      if !Disjoint(k, s) {
        var x := if k.addr > s.addr then k.addr else s.addr;
        assert Holds(k, x) && Holds(s, x) && Covers(free', x);
      }
    }
  }

  /** The block that was inserted lies inside one coalesced span. */
  lemma CoalescedHoldsBlock(free: set<Span>, b: Span, free': set<Span>) returns (s: Span)
    requires CoalescedWith(free, b, free') && b.size > 0
    ensures s in free' && s.addr <= b.addr && End(b) <= End(s)
  {
    assert Holds(b, b.addr) && Covers(free', b.addr);
    s :| s in free' && Holds(s, b.addr);
    BesideNotCovered(free', s);
  }

  /** Writes inside a span that is clear of the free list leave the free list alone. */
  lemma FreeListFrame(w: List.Words, w': List.Words, r: seq<nat>, f: set<Span>, s: Span)
    requires FreeListOk(w, r, f) && SpanOk(r[0], s) && DisjointFrom(s, f)
    requires forall a: nat :: !Holds(s, a) ==> List.Get(w', a) == List.Get(w, a)
    ensures FreeListOk(w', r, f)
  {
    forall j | 0 <= j < |r| ensures !Holds(s, r[j]) && !Holds(s, r[j] + 8) {
      if j > 0 {
        var t := SpanAtNode(r, f, j);
        assert Disjoint(s, t);
      }
    }
    List.RingFrame(w, w', r);
    forall t | t in f ensures List.Get(w', t.addr) == t.size {
      assert Disjoint(s, t) && SpanOk(r[0], t);
    }
  }

  /** Cutting the front off a span keeps the live blocks in order and adds the new one. */
  lemma CutLives(head: nat, live: set<Live>, free: set<Span>, s: Span, l: Live, used: nat)
    requires LivesOk(head, live, free) && Separated(free) && s in free && 0 < used <= s.size
    requires LiveOk(head, l) && l.block == Front(s, used)
    ensures LivesOk(head, live + {l}, TakeFront(free, s, used))
  {
    TakeFrontSeparated(free, s, used);
    forall k | k in live ensures DisjointFrom(k.block, TakeFront(free, s, used)) && Disjoint(k.block, l.block) {
      assert DisjointFrom(k.block, free) && Disjoint(k.block, s);
    }
  }

  lemma FreeLives(head: nat, live: set<Live>, free: set<Span>, l: Live, free': set<Span>)
    requires LivesOk(head, live, free) && l in live && CoalescedWith(free, l.block, free')
    ensures LivesOk(head, live - {l}, free')
  {
    forall k | k in live - {l} ensures DisjointFrom(k.block, free') {
      assert LiveOk(head, k);
      CoalescedKeepsDisjoint(free, l.block, free', k.block);
    }
  }

  lemma GrowLives(head: nat, live: set<Live>, free: set<Span>, b: Span, free': set<Span>)
    requires LivesOk(head, live, free) && CoalescedWith(free, b, free')
    requires forall k :: k in live ==> Disjoint(k.block, b)
    ensures LivesOk(head, live, free')
  {
    forall k | k in live ensures DisjointFrom(k.block, free') {
      assert LiveOk(head, k);
      CoalescedKeepsDisjoint(free, b, free', k.block);
    }
  }

  // ---- growth ------------------------------------------------------------------------

  lemma ChunkPage(c: nat, x: nat)
    ensures Holds(ChunkSpan(c), x) ==>
              x >= KERNEL_VMA && c * CHUNK_PAGES <= (x - KERNEL_VMA) / PAGE_SIZE < c * CHUNK_PAGES + CHUNK_PAGES
  {
  }

  /** An order-10 block of pages is one aligned chunk, new to the heap and clear of its head. */
  lemma BlockIsChunk(ms: seq<BG.Mark>, ms': seq<BG.Mark>, p: nat, head: nat, chunks: set<nat>) returns (c: nat)
    requires BS.Allocated(ms, ms', p, CHUNK_ORDER) && Aligned(p, CHUNK_ORDER) && |ms| + 1 < BL.CODE_LIMIT && head > 0
    requires ChunksHeld(ms, chunks) && HeadReserved(head, ms, chunks)
    ensures p == c * CHUNK_PAGES && p * PAGE_SIZE + KERNEL_VMA == ChunkSpan(c).addr
    ensures c !in chunks && SpanOk(head, ChunkSpan(c)) && End(ChunkSpan(c)) + 0x1000_0000 <= USIZE_MAX
    ensures ChunksHeld(ms', chunks + {c}) && HeadReserved(head, ms', chunks + {c})
  {
    ChunkPowers();
    AlignedIsModulo(p, CHUNK_ORDER);
    c := p / CHUNK_PAGES;
    assert forall q :: p <= q < p + CHUNK_PAGES ==> ms[q].isFree;
    forall x | head <= x < head + 16 ensures !Holds(ChunkSpan(c), x) && OutOfReach(x, ms', chunks + {c}) {
      assert OutOfReach(x, ms, chunks);
      ChunkPage(c, x);
      OwnedChunk(chunks, c, x);
    }
    assert !Holds(ChunkSpan(c), head) && !Holds(ChunkSpan(c), head + 15);
    forall d | d in chunks ensures d != c && BG.IsBlock(ms', d * CHUNK_PAGES, CHUNK_ORDER, false) {
      assert BG.IsBlock(ms, d * CHUNK_PAGES, CHUNK_ORDER, false);
    }
    assert BG.IsBlock(ms', p, CHUNK_ORDER, false);
  }

  lemma ChunkPowers10()
    ensures Pow2(CHUNK_ORDER) == CHUNK_PAGES
  {
    ChunkPowers();
  }

  lemma ChunkAligned(c: nat)
    ensures Aligned(ChunkSpan(c).addr, CHUNK_SHIFT) && Pow2(CHUNK_SHIFT) == CHUNK_SIZE
  {
    ChunkPowers();
    AlignedIsModulo(ChunkSpan(c).addr, CHUNK_SHIFT);
    assert ChunkSpan(c).addr % CHUNK_SIZE == 0;
  }

  /** After growth the next scan cannot fail: some free span holds a whole chunk. */
  lemma GrownFits(free: set<Span>, c: nat, free': set<Span>, l: Layout) returns (s: Span)
    requires CoalescedWith(free, ChunkSpan(c), free') && End(ChunkSpan(c)) + 0x1000_0000 <= USIZE_MAX
    requires l.size >= 1 && RequiredBlockSize(0, l, HEAP).Some? && RequiredBlockSize(0, l, HEAP).value <= CHUNK_SIZE
    ensures s in free' && Fits(s, l)
  {
    s := CoalescedHoldsBlock(free, ChunkSpan(c), free');
    ChunkAligned(c);
    ChunkAlwaysFits(l, HEAP, CHUNK_SHIFT, ChunkSpan(c).addr, s.addr, s.size);
  }

  // ---- the allocator -------------------------------------------------------------------

  datatype AllocResult =
    | Panic            // the normalised layout is not representable
    | Null
    | Allocated(ptr: nat)

  class KernelHeap {
    const mem: List.Memory
    const buddy: BA.BuddyAllocator
    /** Address of the list head. */
    const head: nat
    ghost var ring: seq<nat>
    ghost var free: set<Span>
    ghost var live: set<Live>
    /** Chunks obtained so far, counted in chunk sizes from the start of the kernel mapping. */
    ghost var chunks: set<nat>
    /** Bytes that have left the accounting as unusable remainders. */
    ghost var lost: set<nat>

    ghost predicate ListOk()
      reads this, mem
    {
      FreeListOk(mem.words, ring, free) && ring[0] == head && Separated(free)
    }

    /** The part of the invariant about the heap's own memory. */
    ghost predicate HeapOk()
      reads this, mem
    {
      && ListOk() && WordAligned(free)
      && LivesOk(head, live, free) && AllRecorded(mem.words, live)
      && Accounted(chunks, free, live, lost)
    }

    ghost predicate Valid()
      reads this, mem, buddy, buddy.metadata, buddy.freeHeads
    {
      && HeapOk() && buddy.Valid()
      && ChunksHeld(buddy.PageMarks(), chunks) && HeadReserved(head, buddy.PageMarks(), chunks)
    }

    constructor (buddy: BA.BuddyAllocator, head: nat)
      requires buddy.Valid() && head > 0 && HeadReserved(head, buddy.PageMarks(), {})
      ensures Valid() && fresh(mem) && this.buddy == buddy && this.head == head
      ensures free == {} && live == {} && chunks == {} && lost == {}
    {
      this.buddy, this.head := buddy, head;
      mem := new List.Memory(map[]);
      ring, free, live, chunks, lost := [head], {}, {}, {}, {};
      new;
      mem.InitAt(head);
    }

    /** `HeapNode::init_at`: a size word and a list node pointing at itself. */
    method InitBlock(block: nat, size: nat)
      modifies mem
      ensures mem.words == old(mem.words)[block := size][block + 8 := block + 8][block + 16 := block + 8]
    {
      mem.words := mem.words[block := size];
      mem.words := mem.words[block + 8 := block + 8];
      mem.words := mem.words[block + 16 := block + 8];
    }

    /** Take span `s` off the free list. */
    method Unlink(block: nat, ghost i: nat, ghost s: Span)
      requires ListOk() && s in free && 1 <= i < |ring| && ring[i] == Node(s) && s.addr == block
      modifies mem, this`ring, this`free
      ensures ListOk() && free == old(free) - {s}
      ensures OnlyWithin(old(mem.words), mem.words, head, old(free))
    {
      LinkOut(mem.words, ring, free, i, s);
      mem.ListRemove(block + 8, ring, i);
      HeadersAreWithin(old(mem.words), mem.words, head, free);
      ring := List.DropAt(ring, i);
      free := free - {s};
    }

    /** Put a block whose memory is clear of the free list on it, and coalesce. */
    method Release(block: nat, size: nat, ghost s: Span)
      requires ListOk() && s == Span(block, size) && SpanOk(head, s) && DisjointFrom(s, free)
      modifies mem, this`ring, this`free
      ensures ListOk() && CoalescedWith(old(free), s, free)
      ensures OnlyWithin(old(mem.words), mem.words, head, old(free) + {s})
    {
      ghost var w0 := mem.words;
      InitBlock(block, size);
      ghost var w1 := mem.words;
      FreeListFrame(w0, w1, ring, free, s);
      assert OnlyWithin(w0, w1, head, free + {s}) by {
        assert s in free + {s};
        forall a: nat | OutsideSpans(head, free + {s}, a) ensures List.Get(w1, a) == List.Get(w0, a) {
          assert !Holds(s, a);
        }
      }
      ring, free := InsertAndCoalesce(mem, head, block, ring, free, s);
      HeadersAreWithin(w1, mem.words, head, old(free) + {s});
      OnlyWithinThen(w0, w1, mem.words, head, old(free) + {s});
    }

    /** Write the size of the cut block and the back pointer in front of the user memory. */
    method Stamp(block: nat, used: nat, userPtr: nat, ghost l: Live)
      requires ListOk() && l.block == Span(block, used) && l.ptr == userPtr && LiveOk(head, l)
      requires DisjointFrom(l.block, free)
      modifies mem
      ensures ListOk() && Recorded(mem.words, l)
      ensures OnlyWithin(old(mem.words), mem.words, head, {l.block})
    {
      mem.words := mem.words[block := used];
      mem.words := mem.words[userPtr - BACK_PTR_SIZE := block];
      FreeListFrame(old(mem.words), mem.words, ring, free, l.block);
      forall a: nat | OutsideSpans(head, {l.block}, a) ensures List.Get(mem.words, a) == List.Get(old(mem.words), a) {
        assert !Holds(l.block, a);
      }
    }

    /** The memory side of cutting `used` bytes off the front of the free span at ring position `i`. */
    method CutMemory(block: nat, blockSize: nat, used: nat, userPtr: nat, ghost i: nat, ghost l: Live)
      requires ListOk() && 0 < used <= blockSize && Span(block, blockSize) in free
      requires 1 <= i < |ring| && ring[i] == Node(Span(block, blockSize))
      requires l.block == Span(block, used) && l.ptr == userPtr && LiveOk(head, l)
      modifies mem, this`ring, this`free
      ensures ListOk() && free == TakeFront(old(free), Span(block, blockSize), used)
      ensures Recorded(mem.words, l) && OnlyWithin(old(mem.words), mem.words, head, old(free))
    {
      ghost var w0, f0, s := mem.words, free, Span(block, blockSize);
      Unlink(block, i, s);
      ghost var w1 := mem.words;
      var remaining := blockSize - used;
      if remaining >= MIN_FREE_BLOCK_SIZE {
        RestIsClear(head, f0, s, used);
        Release(block + used, remaining, Rest(s, used));
        RemainderStaysPut(f0, s, used, free);
        RestCovers(f0, s, used);
        WidenWithin(w1, mem.words, head, f0 - {s} + {Rest(s, used)}, f0);
        OnlyWithinThen(w0, w1, mem.words, head, f0);
      }
      ghost var w2 := mem.words;
      TakeFrontSeparated(f0, s, used);
      Stamp(block, used, userPtr, l);
      FrontCovers(f0, s, used);
      WidenWithin(w2, mem.words, head, {l.block}, f0);
      OnlyWithinThen(w0, w2, mem.words, head, f0);
    }

    /** Cut the placement `p` off the front of the free span at ring position `i`. */
    method CutBlock(block: nat, blockSize: nat, p: Placement, l: Layout, ghost i: nat)
      requires HeapOk() && l.size >= 1 && l.shift >= MIN_SHIFT
      requires Span(block, blockSize) in free && 1 <= i < |ring| && ring[i] == Node(Span(block, blockSize))
      requires PlacedWell(block, blockSize, l, HEAP, p)
      modifies mem, this`ring, this`free, this`live, this`lost
      ensures HeapOk()
      ensures free == TakeFront(old(free), Span(block, blockSize), p.usedSize)
      ensures live == old(live) + {Live(p.userPtr, Span(block, p.usedSize), l)}
      ensures Slack(blockSize, p.usedSize) <= 32 && Slack(blockSize, p.usedSize) % 8 == 0
      ensures lost == old(lost) + SlackBytes(Span(block, blockSize), p.usedSize)
    {
      ghost var w0, f0, s := mem.words, free, Span(block, blockSize);
      ghost var l' := Live(p.userPtr, Front(s, p.usedSize), l);
      assert SpanOk(head, s);
      PlacedIsLive(head, s, l, p);
      CutLives(head, live, f0, s, l', p.usedSize);
      TakeAccounted(chunks, f0, live, lost, s, l', p.usedSize);
      CutMemory(block, blockSize, p.usedSize, p.userPtr, i, l');
      LivesSurvive(w0, mem.words, head, f0, live);
      assert AllRecorded(mem.words, live + {l'});
      TakeFrontAligned(f0, s, p.usedSize);
      live := live + {l'};
      lost := lost + SlackBytes(s, p.usedSize);
    }
  
    /** First fit: take the lowest free block that can hold the layout. */
    method AllocateFromFreeList(l: Layout) returns (r: Option<nat>, ghost s: Span, ghost cut: Live)
      requires HeapOk() && l.size >= 1 && l.shift >= MIN_SHIFT
      modifies mem, this`ring, this`free, this`live, this`lost
      ensures HeapOk()
      ensures r.None? ==> mem.words == old(mem.words) && free == old(free) && live == old(live) && lost == old(lost)
      ensures r.Some? <==> SomeFits(old(free), l)
      ensures r.Some? ==> Served(old(free), s, l, r.value, free, old(live), live, cut, old(lost), lost) && LiveOk(head, cut)
    {
      s := Span(0, 0);
      cut := Live(0, s, l);
      var empty := mem.ListEmpty(head);
      assert List.LinkOk(mem.words, ring, 0);
      if empty {
        NothingOnRing(ring, free);
        return None, s, cut;
      }
      var node := List.Next(mem.words, head);
      ghost var i := 1;
      ghost var w0, r0, f0 := mem.words, ring, free;
      ScanStart(r0, f0, l);
      while node != head
        invariant 1 <= i <= |r0| && node == if i < |r0| then r0[i] else head
        invariant mem.words == w0 && ring == r0 && free == f0 && live == old(live) && lost == old(lost)
        invariant Scanned(r0, f0, l, i)
        decreases |r0| - i
      {
        HeadIsNotAfter(r0, f0, if i < |r0| then i else 0);
        ghost var t := SpanAtNode(r0, f0, i);
        assert List.LinkOk(w0, r0, i);
        var next := List.Next(mem.words, node);
        var block := node - 8;
        var blockSize := List.Get(mem.words, block);
        assert t == Span(block, blockSize);
        var place := AllocationForBlock(block, blockSize, l, HEAP);
        if place.Some? {
          PlacementFacts(block, blockSize, l, HEAP);
          LowestFit(r0, f0, l, i, t);
          ghost var used := place.value.usedSize;
          cut := Live(place.value.userPtr, Front(t, used), l);
          NewToTheBooks(head, chunks, f0, live, lost, t, l, place.value);
          CutBlock(block, blockSize, place.value, l, i);
          return Some(place.value.userPtr), t, cut;
        }
        ScanStep(r0, f0, l, i, t);
        node := next;
        i := i + 1;
      }
      NothingLeft(r0, f0, l, i);
      return None, s, cut;
    }

    /** Ask the buddy allocator for one chunk and put it on the free list. */
    method GrowHeap() returns (ok: bool, ghost c: nat)
      requires Valid()
      modifies mem, this`ring, this`free, this`chunks, buddy`lists, buddy.metadata, buddy.freeHeads
      ensures Valid() && live == old(live) && lost == old(lost)
      ensures ok <==> old(buddy.lists)[CHUNK_ORDER] != []
      ensures !ok ==> free == old(free) && chunks == old(chunks) && mem.words == old(mem.words)
      ensures !ok ==> buddy.PageMarks() == old(buddy.PageMarks())
      ensures ok ==> c * CHUNK_PAGES == old(buddy.lists)[CHUNK_ORDER][0]
      ensures ok ==> GrownBy(old(buddy.PageMarks()), buddy.PageMarks(), old(chunks), chunks, c)
      ensures ok ==> CoalescedWith(old(free), ChunkSpan(c), free) && End(ChunkSpan(c)) + 0x1000_0000 <= USIZE_MAX
    {
      c := 0;
      assert List.LinkOk(mem.words, ring, 0);
      ghost var ms := buddy.PageMarks();
      var phys, o := buddy.Allocate(CHUNK_ORDER);
      if phys.None? {
        return false, c;
      }
      c := BlockIsChunk(ms, buddy.PageMarks(), phys.value / PAGE_SIZE, head, chunks);
      AddChunk(phys.value + KERNEL_VMA, c);
      assert BS.Allocated(ms, buddy.PageMarks(), c * CHUNK_PAGES, CHUNK_ORDER);
      return true, c;
    }

    /** The retry step of `Alloc`: grow if a chunk could hold the layout at all. */
    method GrowFor(n: Layout) returns (ok: bool, ghost c: nat)
      requires Valid() && n.size >= 1
      modifies mem, this`ring, this`free, this`chunks, buddy`lists, buddy.metadata, buddy.freeHeads
      ensures Valid() && live == old(live) && lost == old(lost)
      ensures ok <==> !TooLarge(n) && old(buddy.lists)[CHUNK_ORDER] != []
      ensures !ok ==> free == old(free) && chunks == old(chunks) && buddy.PageMarks() == old(buddy.PageMarks())
      ensures ok ==> c * CHUNK_PAGES == old(buddy.lists)[CHUNK_ORDER][0]
      ensures ok ==> GrownBy(old(buddy.PageMarks()), buddy.PageMarks(), old(chunks), chunks, c)
      ensures ok ==> CoalescedWith(old(free), ChunkSpan(c), free) && SomeFits(free, n)
    {
      c := 0;
      var required := RequiredBlockSize(0, n, HEAP);
      if required.None? || required.value > CHUNK_SIZE {
        return false, c;
      }
      ghost var f0 := free;
      ok, c := GrowHeap();
      if ok {
        ghost var g := GrownFits(f0, c, free, n);
      }
    }

    method AddChunk(block: nat, ghost c: nat)
      requires HeapOk() && c !in chunks && SpanOk(head, ChunkSpan(c)) && block == ChunkSpan(c).addr
      modifies mem, this`ring, this`free, this`chunks
      ensures HeapOk() && chunks == old(chunks) + {c} && CoalescedWith(old(free), ChunkSpan(c), free)
    {
      ghost var w0, f0, b := mem.words, free, ChunkSpan(c);
      ChunkIsClear(head, chunks, free, live, lost, c);
      ChunkWordAligned(c);
      Release(block, CHUNK_SIZE, b);
      LivesSurvive(w0, mem.words, head, f0 + {b}, live);
      GrowLives(head, live, f0, b, free);
      CoalescedKeepsAligned(f0, b, free);
      GrowAccounted(chunks, f0, live, lost, c, free);
      chunks := chunks + {c};
    }

    /** One round of the retry loop: serve the request from the free list, or else try to grow. */
    method AllocRound(n: Layout) returns (found: Option<nat>, grew: bool, ghost s: Span, ghost l: Live, ghost c: nat)
      requires Valid() && n.size >= 1 && n.shift >= MIN_SHIFT
      modifies mem, this`ring, this`free, this`live, this`lost, this`chunks, buddy`lists, buddy.metadata, buddy.freeHeads
      ensures Valid()
      ensures found.Some? <==> SomeFits(old(free), n)
      ensures found.Some? ==> Served(old(free), s, n, found.value, free, old(live), live, l, old(lost), lost) && LiveOk(head, l)
      ensures found.None? ==> live == old(live) && lost == old(lost)
      ensures grew <==> found.None? && !TooLarge(n) && old(buddy.lists)[CHUNK_ORDER] != []
      ensures !grew ==> chunks == old(chunks) && buddy.PageMarks() == old(buddy.PageMarks())
      ensures found.None? && !grew ==> free == old(free)
      ensures grew ==> GrownBy(old(buddy.PageMarks()), buddy.PageMarks(), old(chunks), chunks, c)
      ensures grew ==> CoalescedWith(old(free), ChunkSpan(c), free) && SomeFits(free, n)
    {
      c := 0;
      found, s, l := AllocateFromFreeList(n);
      grew := false;
      if found.None? {
        grew, c := GrowFor(n);
      }
    }

    /**
      Allocate memory for a layout. Fails only when no free block fits and either the
      layout is larger than a chunk or the buddy allocator has no chunk left; grows
      the heap at most once. `offered` are the free spans that the successful scan
      saw, `s` is the one it took.
    */
    method Alloc(layout: Layout) returns (r: AllocResult, ghost l: Live, ghost offered: set<Span>, ghost s: Span)
      requires Valid()
      modifies mem, this`ring, this`free, this`live, this`lost, this`chunks, buddy`lists, buddy.metadata, buddy.freeHeads
      ensures Valid()
      ensures r.Panic? <==> Max(layout.size, 1) + Pow2(Max(layout.shift, 3)) - 1 > ISIZE_MAX
      ensures !r.Panic? ==>
                var size, shift := Max(layout.size, 1), Max(layout.shift, 3);
                (r.Allocated? <==>
                 || RoomLeft(old(free), size, shift)
                 || (Max(32, Pow2(shift)) + (size + 7) / 8 * 8 <= CHUNK_SIZE && old(buddy.lists)[CHUNK_ORDER] != []))
      ensures r.Allocated? ==> Aligned(r.ptr, Max(layout.shift, 3)) && l.ptr == r.ptr && r.ptr + Max(layout.size, 1) <= End(l.block)
      ensures r.Panic? <==> NormalizeLayout(layout, MIN_SHIFT).None?
      ensures !r.Allocated? ==> free == old(free) && live == old(live) && lost == old(lost) && chunks == old(chunks)
      ensures !r.Panic? ==>
                (r.Null? <==>
                 var n := NormalizeLayout(layout, MIN_SHIFT).value;
                 && !SomeFits(old(free), n)
                 && (TooLarge(n) || old(buddy.lists)[CHUNK_ORDER] == []))
      ensures r.Allocated? ==>
                var n := NormalizeLayout(layout, MIN_SHIFT).value;
                && Offered(old(free), old(chunks), n, chunks, offered)
                && Served(offered, s, n, r.ptr, free, old(live), live, l, old(lost), lost) && LiveOk(head, l)
      ensures Grown(old(buddy.PageMarks()), buddy.PageMarks(), old(chunks), chunks)
    {
      s := Span(0, 0);
      l := Live(0, s, layout);
      offered := {};
      RequestOutcome(layout, free);
      var norm := NormalizeLayout(layout, MIN_SHIFT);
      if norm.None? {
        return Panic, l, offered, s;
      }
      r, l, offered, s := AllocNormalized(norm.value);
    }

    /** The retry loop. */
    method AllocNormalized(n: Layout) returns (r: AllocResult, ghost l: Live, ghost offered: set<Span>, ghost s: Span)
      requires Valid() && n.size >= 1 && n.shift >= MIN_SHIFT
      modifies mem, this`ring, this`free, this`live, this`lost, this`chunks, buddy`lists, buddy.metadata, buddy.freeHeads
      ensures Valid() && !r.Panic?
      ensures !r.Allocated? ==> free == old(free) && live == old(live) && lost == old(lost) && chunks == old(chunks)
      ensures r.Null? <==> !SomeFits(old(free), n) && (TooLarge(n) || old(buddy.lists)[CHUNK_ORDER] == [])
      ensures r.Allocated? ==> Offered(old(free), old(chunks), n, chunks, offered)
      ensures r.Allocated? ==>
                Served(offered, s, n, r.ptr, free, old(live), live, l, old(lost), lost) && LiveOk(head, l)
      ensures Grown(old(buddy.PageMarks()), buddy.PageMarks(), old(chunks), chunks)
    {
      ghost var f0, chunks0, ms0 := free, chunks, buddy.PageMarks();
      ghost var grown := false;
      while true
        invariant Valid() && live == old(live) && lost == old(lost)
        invariant Retried(f0, chunks0, ms0, n, grown, free, chunks, buddy.PageMarks())
        invariant if grown then !TooLarge(n) && old(buddy.lists)[CHUNK_ORDER] != [] else buddy.lists == old(buddy.lists)
        decreases !grown
      {
        offered := free;
        ghost var chunks1, ms1, c := chunks, buddy.PageMarks(), 0;
        var found, grew;
        found, grew, s, l, c := AllocRound(n);
        if found.Some? {
          RetryServed(f0, chunks0, ms0, n, grown, offered, chunks, buddy.PageMarks());
          return Allocated(found.value), l, offered, s;
        }
        if !grew {
          return Null, l, offered, s;
        }
        RetryGrew(f0, chunks0, ms0, n, grown, offered, chunks1, ms1, free, chunks, buddy.PageMarks(), c);
        grown := true;
      }
    }

    /**
      Allocating and freeing again restores the free memory exactly when the request was served
      from the free list and lost no slack. If the heap grew, the new chunk stays: the free memory
      is then that of `offered`, the old one coalesced with the chunk, short by the slack.
    */
    method AllocateThenFree(layout: Layout) returns (r: AllocResult, ghost offered: set<Span>, ghost s: Span)
      requires Valid()
      modifies mem, this`ring, this`free, this`live, this`lost, this`chunks, buddy`lists, buddy.metadata, buddy.freeHeads
      ensures Valid() && live == old(live)
      ensures r.Panic? <==> NormalizeLayout(layout, MIN_SHIFT).None?
      ensures !r.Allocated? ==> free == old(free) && lost == old(lost) && chunks == old(chunks)
      ensures !r.Panic? ==>
                (r.Null? <==>
                 var n := NormalizeLayout(layout, MIN_SHIFT).value;
                 && !SomeFits(old(free), n)
                 && (TooLarge(n) || old(buddy.lists)[CHUNK_ORDER] == []))
      ensures r.Allocated? ==>
                var n := NormalizeLayout(layout, MIN_SHIFT).value;
                && Offered(old(free), old(chunks), n, chunks, offered)
                && RoundTripped(old(free), n, offered, s, free, old(lost), lost)
    {
      ghost var f0, chunks0, live0, lost0 := free, chunks, live, lost;
      ghost var l;
      r, l, offered, s := Alloc(layout);
      if r.Allocated? {
        ghost var f1 := free;
        Dealloc(r.ptr, l);
        RoundTrip(head, f0, chunks0, live0, lost0, l.layout, chunks, offered, s, r.ptr, f1, l, free, lost);
      }
    }

    /** Free a pointer: exactly the block recorded for it goes back, at its recorded size. */
    method Dealloc(ptr: nat, ghost l: Live)
      requires Valid() && (ptr == 0 || (l in live && l.ptr == ptr))
      modifies mem, this`ring, this`free, this`live
      ensures Valid()
      ensures ptr == 0 ==> mem.words == old(mem.words) && free == old(free) && live == old(live)
      ensures ptr != 0 ==> live == old(live) - {l} && CoalescedWith(old(free), l.block, free)
    {
      if ptr == 0 {
        return;
      }
      ghost var w0, f0, b := mem.words, free, l.block;
      assert LiveOk(head, l) && Recorded(w0, l);
      var header := List.Get(mem.words, ptr - BACK_PTR_SIZE);
      Relist(header, b);
      LivesSurvive(w0, mem.words, head, f0 + {b}, live - {l});
      FreeLives(head, live, f0, l, free);
      CoalescedKeepsAligned(f0, b, free);
      FreeAccounted(chunks, f0, live, lost, l, free);
      live := live - {l};
    }

    /** Re-initialise the list node of a block whose header is intact and put it back on the free list. */
    method Relist(header: nat, ghost b: Span)
      requires ListOk() && b == Span(header, List.Get(mem.words, header)) && SpanOk(head, b) && DisjointFrom(b, free)
      modifies mem, this`ring, this`free
      ensures ListOk() && CoalescedWith(old(free), b, free)
      ensures OnlyWithin(old(mem.words), mem.words, head, old(free) + {b})
    {
      ghost var w0, f0 := mem.words, free;
      mem.InitAt(header + 8);
      ghost var w1 := mem.words;
      FreeListFrame(w0, w1, ring, free, b);
      HeaderWriteWithin(w0, head, f0, b, header + 8);
      ring, free := InsertAndCoalesce(mem, head, header, ring, free, b);
      HeadersAreWithin(w1, mem.words, head, f0 + {b});
      OnlyWithinThen(w0, w1, mem.words, head, f0 + {b});
    }

    /** The owner of `l` writes to byte `a` of its own memory: the word that holds the byte becomes `v`. */
    method UserWrite(a: nat, v: nat, ghost l: Live)
      requires Valid() && l in live && l.ptr <= a < l.ptr + l.layout.size
      modifies mem
      ensures Valid() && mem.words == old(mem.words)[WordOf(a) := v]
    {
      ghost var w0 := mem.words;
      assert LiveOk(head, l);
      WordInBlock(l, a);
      mem.words := mem.words[WordOf(a) := v];
      FreeListFrame(w0, mem.words, ring, free, l.block);
      forall k | k in live ensures Recorded(mem.words, k) {
        assert LiveOk(head, k) && Recorded(w0, k);
        assert k != l ==> Disjoint(k.block, l.block);
      }
    }
  }

  /** The aligned word that holds byte `a`. */
  function WordOf(a: nat): (w: nat) { a / 8 * 8 }

  lemma WordInBlock(l: Live, a: nat)
    requires l.ptr % 8 == 0 && l.ptr <= a < l.ptr + l.layout.size <= End(l.block)
    ensures l.ptr <= WordOf(a) <= a
  {
  }

  lemma HeaderWriteWithin(w: List.Words, head: nat, f: set<Span>, b: Span, v: nat)
    requires b.size >= HEADER_SIZE
    ensures OnlyWithin(w, w[b.addr + 8 := v][b.addr + 8 + 8 := v], head, f + {b})
  {
    var w' := w[b.addr + 8 := v][b.addr + 8 + 8 := v];
    forall a: nat | OutsideSpans(head, f + {b}, a) ensures List.Get(w', a) == List.Get(w, a) {
      assert b in f + {b};
      assert !Holds(b, a);
    }
  }

  /** The size required at address 0 is unrepresentable or exceeds a chunk. */
  predicate TooLarge(l: Layout)
  {
    RequiredBlockSize(0, l, HEAP).None? || RequiredBlockSize(0, l, HEAP).value > CHUNK_SIZE
  }

  /** A chunk can hold a request exactly if the offset of the user bytes and the size, rounded up to words, do not exceed it. */
  lemma TooLargeIff(l: Layout)
    requires l.shift >= MIN_SHIFT
    ensures TooLarge(l) <==> Max(32, Pow2(l.shift)) + (l.size + 7) / 8 * 8 > CHUNK_SIZE
  {
    var chunk, u := Span(0, CHUNK_SIZE), Max(32, Pow2(l.shift));
    AcceptedIffRequiredFits(0, CHUNK_SIZE, l, HEAP);
    FitsIff(chunk, l);
    FirstUserOffset(l.shift);
    if !TooLarge(l) {
      var v: nat :| FitsAt(chunk, l.size, l.shift, v);
      OneRounding(32, l.shift, u, v);
    } else if u + (l.size + 7) / 8 * 8 <= CHUNK_SIZE {
      assert FitsAt(chunk, l.size, l.shift, u);
    }
  }

  lemma FirstUserOffset(shift: nat)
    ensures var u := Max(32, Pow2(shift)); Aligned(u, shift) && 32 <= u < 32 + Pow2(shift)
  {
    assert Pow2(5) == 32;
    AlignedZero(shift);
    AlignedZero(5);
    if shift <= 5 {
      Pow2Monotone(shift, 5);
      AlignedTop(0, 5, shift);
    } else {
      Pow2Monotone(5, shift);
      AlignedTop(0, shift, shift);
    }
  }

  /** Some free span has room for `size` bytes aligned to `2^shift`. */
  ghost predicate RoomLeft(free: set<Span>, size: nat, shift: nat)
  {
    exists s, u: nat :: s in free && FitsAt(s, size, shift, u)
  }

  /** What the heap does with a request, in terms of the caller's size and alignment. */
  lemma RequestOutcome(layout: Layout, free: set<Span>)
    ensures var size, shift, n := Max(layout.size, 1), Max(layout.shift, 3), NormalizeLayout(layout, MIN_SHIFT);
            && (n.None? <==> size + Pow2(shift) - 1 > ISIZE_MAX)
            && (n.Some? ==> n.value == Layout(size, shift) && (SomeFits(free, n.value) <==> RoomLeft(free, size, shift)) &&
                            (TooLarge(n.value) <==> Max(32, Pow2(shift)) + (size + 7) / 8 * 8 > CHUNK_SIZE))
  {
    NormalizedExactly(layout, MIN_SHIFT);
    TooLargeIff(Layout(Max(layout.size, 1), Max(layout.shift, 3)));
    SomeFitsIff(free, Layout(Max(layout.size, 1), Max(layout.shift, 3)));
  }

  lemma SomeFitsIff(free: set<Span>, l: Layout)
    requires l.shift >= MIN_SHIFT
    ensures SomeFits(free, l) <==> RoomLeft(free, l.size, l.shift)
  {
    if RoomLeft(free, l.size, l.shift) {
      var s, u: nat :| s in free && FitsAt(s, l.size, l.shift, u);
      FitsIff(s, l);
    }
    if SomeFits(free, l) {
      var s :| s in free && Fits(s, l);
      FitsIff(s, l);
    }
  }

  ghost predicate SomeFits(free: set<Span>, l: Layout)
  {
    exists s :: s in free && Fits(s, l)
  }

  /** `ptr` was cut from `s`, the fitting span of lowest address. */
  ghost predicate TookFirstFit(free: set<Span>, s: Span, l: Layout, ptr: nat, free': set<Span>)
  {
    && Fits(s, l) && (forall t :: t in free && t.addr < s.addr ==> !Fits(t, l))
    && var p := AllocationForBlock(s.addr, s.size, l, HEAP).value;
    && PlacedWell(s.addr, s.size, l, HEAP, p) && p.userPtr == ptr && free' == TakeFront(free, s, p.usedSize)
  }

  /** Between `ms` and `ms'` the chunk `c` was taken from the buddy allocator, and nothing else. */
  ghost predicate GrownBy(ms: seq<BG.Mark>, ms': seq<BG.Mark>, chunks: set<nat>, chunks': set<nat>, c: nat)
  {
    c !in chunks && chunks' == chunks + {c} && BS.Allocated(ms, ms', c * CHUNK_PAGES, CHUNK_ORDER)
  }

  /** Of the buddy allocator, nothing or exactly one new chunk was taken. */
  ghost predicate Grown(ms: seq<BG.Mark>, ms': seq<BG.Mark>, chunks: set<nat>, chunks': set<nat>)
  {
    (chunks' == chunks && ms' == ms) || exists c :: GrownBy(ms, ms', chunks, chunks', c)
  }

  ghost predicate OfferedWith(free: set<Span>, chunks: set<nat>, chunks': set<nat>, offered: set<Span>, c: nat)
  {
    c !in chunks && chunks' == chunks + {c} && CoalescedWith(free, ChunkSpan(c), offered)
  }

  /** The spans a successful scan saw: the free ones if one of them fits, else those and one new chunk. */
  ghost predicate Offered(free: set<Span>, chunks: set<nat>, n: Layout, chunks': set<nat>, offered: set<Span>)
  {
    if SomeFits(free, n) then offered == free && chunks' == chunks
    else exists c :: OfferedWith(free, chunks, chunks', offered, c)
  }

  /** The state of the retry loop: nothing changed yet, or one chunk was added that makes the request fit. */
  ghost predicate Retried(free0: set<Span>, chunks0: set<nat>, ms0: seq<BG.Mark>, n: Layout, grown: bool,
                          free: set<Span>, chunks: set<nat>, ms: seq<BG.Mark>)
  {
    if grown then
      SomeFits(free, n) && !SomeFits(free0, n) && exists c :: GrownBy(ms0, ms, chunks0, chunks, c) && CoalescedWith(free0, ChunkSpan(c), free)
    else free == free0 && chunks == chunks0 && ms == ms0
  }

  lemma RetryServed(free0: set<Span>, chunks0: set<nat>, ms0: seq<BG.Mark>, n: Layout, grown: bool,
                    free: set<Span>, chunks: set<nat>, ms: seq<BG.Mark>)
    requires Retried(free0, chunks0, ms0, n, grown, free, chunks, ms) && SomeFits(free, n)
    ensures Offered(free0, chunks0, n, chunks, free) && Grown(ms0, ms, chunks0, chunks)
  {
    if grown {
      var c :| GrownBy(ms0, ms, chunks0, chunks, c) && CoalescedWith(free0, ChunkSpan(c), free);
      assert OfferedWith(free0, chunks0, chunks, free, c);
    }
  }

  lemma RetryGrew(free0: set<Span>, chunks0: set<nat>, ms0: seq<BG.Mark>, n: Layout, grown: bool,
                  free: set<Span>, chunks: set<nat>, ms: seq<BG.Mark>, free': set<Span>, chunks': set<nat>, ms': seq<BG.Mark>, c: nat)
    requires Retried(free0, chunks0, ms0, n, grown, free, chunks, ms) && !SomeFits(free, n)
    requires GrownBy(ms, ms', chunks, chunks', c) && CoalescedWith(free, ChunkSpan(c), free') && SomeFits(free', n)
    ensures !grown && Retried(free0, chunks0, ms0, n, true, free', chunks', ms')
  {
  }

  /** `s` is the fitting span of lowest address. */
  ghost predicate TakenFrom(offered: set<Span>, s: Span, n: Layout)
  {
    s in offered && Fits(s, n) && forall t :: t in offered && t.addr < s.addr ==> !Fits(t, n)
  }

  /** The bytes that taking `s` for the layout loses. */
  ghost function SlackOf(s: Span, n: Layout): (r: nat)
    requires Fits(s, n)
    ensures r <= s.size
  {
    var used := AllocationForBlock(s.addr, s.size, n, HEAP).value.usedSize;
    Slack(s.size, used)
  }

  ghost function LostBytes(s: Span, n: Layout): (r: set<nat>)
    requires Fits(s, n)
  {
    SlackBytes(s, AllocationForBlock(s.addr, s.size, n, HEAP).value.usedSize)
  }

  /** The request was served from `s`: the front of it is live now, its slack is lost, the rest is free. */
  ghost predicate Served(offered: set<Span>, s: Span, n: Layout, ptr: nat, free': set<Span>,
                         live: set<Live>, live': set<Live>, l: Live, lost: set<nat>, lost': set<nat>)
  {
    && s in offered && TookFirstFit(offered, s, n, ptr, free')
    && var used := AllocationForBlock(s.addr, s.size, n, HEAP).value.usedSize;
    && l == Live(ptr, Front(s, used), n) && l !in live && live' == live + {l}
    && Slack(s.size, used) <= 32 && Slack(s.size, used) % 8 == 0
    && lost !! SlackBytes(s, used) && lost' == lost + SlackBytes(s, used)
  }

  /** Serving a request loses as many bytes as its slack, a multiple of 8 and at most 32. */
  lemma ServedLoses(offered: set<Span>, s: Span, n: Layout, ptr: nat, free': set<Span>,
                    live: set<Live>, live': set<Live>, l: Live, lost: set<nat>, lost': set<nat>)
    requires Served(offered, s, n, ptr, free', live, live', l, lost, lost')
    ensures |lost'| == |lost| + SlackOf(s, n) && LostAtMost(lost, lost', 1)
    ensures l.block.addr == s.addr && l.block.size <= s.size
    ensures var left := s.size - l.block.size;
            && SlackOf(s, n) == (if left <= 32 then left else 0)
            && free' == if left <= 32 then offered - {s} else offered - {s} + {Span(End(l.block), left)}
  {
    SlackBytesCount(s, AllocationForBlock(s.addr, s.size, n, HEAP).value.usedSize);
  }

  /**
    Serving a request from `s` and freeing it again gives the offered spans back, short by the slack
    of `s`, which is lost; this is the old free memory exactly if it could serve the request and the
    slack is zero.
  */
  ghost predicate RoundTripped(free: set<Span>, n: Layout, offered: set<Span>, s: Span, after: set<Span>, lost: set<nat>, lost': set<nat>)
  {
    && TakenFrom(offered, s, n)
    && after == offered - {s} + {Span(s.addr, s.size - SlackOf(s, n))}
    && lost !! LostBytes(s, n) && lost' == lost + LostBytes(s, n)
    && (after == free <==> SomeFits(free, n) && SlackOf(s, n) == 0)
  }

  lemma RoundTrip(head: nat, free: set<Span>, chunks: set<nat>, live: set<Live>, lost: set<nat>, n: Layout, chunks': set<nat>,
                  offered: set<Span>, s: Span, ptr: nat, served: set<Span>, l: Live, after: set<Span>, lost': set<nat>)
    requires Separated(free) && Accounted(chunks, free, live, lost) && Offered(free, chunks, n, chunks', offered)
    requires Served(offered, s, n, ptr, served, live, live + {l}, l, lost, lost') && LiveOk(head, l)
    requires CoalescedWith(served, l.block, after)
    ensures RoundTripped(free, n, offered, s, after, lost, lost') && live + {l} - {l} == live
  {
    TakenAndBack(head, offered, s, n, ptr, served, live, l, lost, lost', after);
    if !SomeFits(free, n) { ChunkStays(free, chunks, live, lost, chunks', offered, s, SlackOf(s, n), after); }
  }

  /** The round trip as seen from the spans that were offered. */
  lemma TakenAndBack(head: nat, offered: set<Span>, s: Span, n: Layout, ptr: nat, served: set<Span>,
                     live: set<Live>, l: Live, lost: set<nat>, lost': set<nat>, after: set<Span>)
    requires Separated(offered) && Served(offered, s, n, ptr, served, live, live + {l}, l, lost, lost') && LiveOk(head, l)
    requires CoalescedWith(served, l.block, after)
    ensures TakenFrom(offered, s, n) && SlackOf(s, n) <= 32
    ensures after == offered - {s} + {Span(s.addr, s.size - SlackOf(s, n))}
    ensures after == offered <==> SlackOf(s, n) == 0
  {
    AllocThenFreeIff(offered, s, l.block.size, after);
  }

  /** A chunk that was added stays in the free memory, so the old state does not come back. */
  lemma ChunkStays(free: set<Span>, chunks: set<nat>, live: set<Live>, lost: set<nat>, chunks': set<nat>, offered: set<Span>,
                   s: Span, slack: nat, after: set<Span>)
    requires Separated(free) && Accounted(chunks, free, live, lost) && exists c :: OfferedWith(free, chunks, chunks', offered, c)
    requires s in offered && slack <= 32 && slack <= s.size && after == offered - {s} + {Span(s.addr, s.size - slack)}
    ensures after != free
  {
    var c :| OfferedWith(free, chunks, chunks', offered, c);
    var t := CoalescedHoldsBlock(free, ChunkSpan(c), offered);
    var x := ChunkSpan(c).addr;
    var t' := if t == s then Span(s.addr, s.size - slack) else t;
    assert t' in after && Holds(t', x);
    forall u | u in free ensures !Holds(u, x) { NewChunkDisjoint(chunks, free, live, lost, c, u); }
  }

  // ---- scanning ----------------------------------------------------------------------------

  /** Nothing before ring position `i` fits. */
  ghost predicate Scanned(r: seq<nat>, f: set<Span>, l: Layout, i: nat)
  {
    forall s :: s in f && (i < |r| ==> Node(s) < r[i]) ==> !Fits(s, l)
  }

  lemma ScanStart(r: seq<nat>, f: set<Span>, l: Layout)
    requires Shape(r, f)
    ensures Scanned(r, f, l, 1)
  {
    forall s | s in f ensures 1 < |r| && r[1] <= Node(s) {
      var j := NodeOfSpan(r, f, s);
      assert j > 1 ==> r[1] < r[j];
    }
  }

  /** A block about to be cut is not live yet and its slack is not lost yet. */
  lemma NewToTheBooks(head: nat, chunks: set<nat>, free: set<Span>, live: set<Live>, lost: set<nat>,
                      s: Span, l: Layout, p: Placement)
    requires Accounted(chunks, free, live, lost) && LivesOk(head, live, free) && SpanOk(head, s) && s in free
    requires WordAligned(free) && l.size >= 1 && l.shift >= MIN_SHIFT && PlacedWell(s.addr, s.size, l, HEAP, p)
    ensures p.usedSize <= s.size && LiveOk(head, Live(p.userPtr, Front(s, p.usedSize), l))
    ensures Live(p.userPtr, Front(s, p.usedSize), l) !in live
    ensures lost !! SlackBytes(s, p.usedSize)
  {
    PlacedIsLive(head, s, l, p);
    var cut := Live(p.userPtr, Front(s, p.usedSize), l);
    assert !Disjoint(cut.block, s);
    assert forall k :: k in live ==> Disjoint(k.block, s);
    assert lost !! SlackBytes(s, p.usedSize) by {
      forall x | x in SlackBytes(s, p.usedSize) ensures x !in lost {
        assert Holds(s, x) && Covers(free, x);
      }
    }
  }

  lemma ScanStep(r: seq<nat>, f: set<Span>, l: Layout, i: nat, t: Span)
    requires Shape(r, f) && 1 <= i < |r| && Scanned(r, f, l, i)
    requires t in f && r[i] == Node(t) && !Fits(t, l)
    ensures Scanned(r, f, l, i + 1)
  {
    forall s | s in f ensures s == t || Node(s) < r[i] || (i + 1 < |r| && r[i + 1] <= Node(s)) {
      var j := NodeOfSpan(r, f, s);
      if j == i { SameAddrSameSpan(r[0], f, s, t); }
      assert i + 1 < j ==> r[i + 1] < r[j];
      assert j < i ==> r[j] < r[i];
    }
  }

  lemma LowestFit(r: seq<nat>, f: set<Span>, l: Layout, i: nat, t: Span)
    requires Shape(r, f) && 1 <= i < |r| && Scanned(r, f, l, i) && t in f && r[i] == Node(t)
    ensures forall s :: s in f && s.addr < t.addr ==> !Fits(s, l)
  {
  }

  lemma NothingLeft(r: seq<nat>, f: set<Span>, l: Layout, i: nat)
    requires Shape(r, f) && 1 <= i <= |r| && Scanned(r, f, l, i) && (i < |r| ==> r[i] == r[0])
    ensures forall s :: s in f ==> !Fits(s, l)
  {
    if i < |r| { HeadIsNotAfter(r, f, i); }
  }

  lemma NothingOnRing(r: seq<nat>, f: set<Span>)
    requires Shape(r, f) && |r| == 1
    ensures f == {}
  {
    forall s | s in f ensures false {
      var i := NodeOfSpan(r, f, s);
    }
  }

  // ---- helpers of the cut --------------------------------------------------------------------

  lemma TakeFrontAligned(free: set<Span>, s: Span, used: nat)
    requires WordAligned(free) && s in free && used <= s.size && used % 8 == 0
    ensures WordAligned(TakeFront(free, s, used))
  {
  }

  lemma RestIsClear(head: nat, free: set<Span>, s: Span, used: nat)
    requires SpansOk(head, free) && s in free && 0 < used && used + MIN_FREE_BLOCK_SIZE <= s.size
    ensures SpanOk(head, Rest(s, used)) && DisjointFrom(Rest(s, used), free - {s})
  {
    assert SpanOk(head, s);
    forall t | t in free - {s} ensures Disjoint(Rest(s, used), t) { assert Disjoint(s, t); }
  }

  lemma RestCovers(free: set<Span>, s: Span, used: nat)
    requires s in free && used <= s.size
    ensures forall x: nat :: Covers(free - {s} + {Rest(s, used)}, x) ==> Covers(free, x)
  {
    forall x: nat | Covers(free - {s} + {Rest(s, used)}, x) ensures Covers(free, x) {
      CoversPlus(free - {s}, Rest(s, used), x);
      CoversPlus(free - {s}, s, x);
      assert free == free - {s} + {s};
    }
  }

  lemma FrontCovers(free: set<Span>, s: Span, used: nat)
    requires s in free && used <= s.size
    ensures forall x: nat :: Covers({Front(s, used)}, x) ==> Covers(free, x)
  {
    forall x: nat | Covers({Front(s, used)}, x) ensures Covers(free, x) {
      assert Holds(s, x);
    }
  }

  // ---- conservation ----------------------------------------------------------------------------

  ghost function LiveBytes(live: set<Live>): (r: set<nat>)
    ensures forall x: nat :: x in r <==> LiveHolds(live, x)
  {
    var r := set l, x | l in live && x in BytesOf(l.block) :: x;
    assert forall x: nat, l :: l in live && Holds(l.block, x) ==> x in BytesOf(l.block);
    r
  }

  ghost function ChunkBytes(chunks: set<nat>): (r: set<nat>)
    ensures forall x: nat :: x in r <==> Owned(chunks, x)
  {
    var r := set c, x | c in chunks && x in BytesOf(ChunkSpan(c)) :: x;
    assert forall x: nat :: Owned(chunks, x) ==> x in BytesOf(ChunkSpan((x - KERNEL_VMA) / CHUNK_SIZE));
    r
  }

  lemma {:induction false} ChunkBytesCount(chunks: set<nat>)
    ensures |ChunkBytes(chunks)| == |chunks| * CHUNK_SIZE
    decreases |chunks|
  {
    if chunks == {} {
      assert ChunkBytes(chunks) == {};
    } else {
      var c :| c in chunks;
      var rest := chunks - {c};
      ChunkBytesCount(rest);
      BytesOfCount(ChunkSpan(c));
      assert chunks == rest + {c};
      forall x: nat ensures x in ChunkBytes(chunks) <==> x in ChunkBytes(rest) || x in BytesOf(ChunkSpan(c)) {
        OwnedChunk(rest, c, x);
      }
      assert ChunkBytes(chunks) == ChunkBytes(rest) + BytesOf(ChunkSpan(c));
      assert ChunkBytes(rest) !! BytesOf(ChunkSpan(c));
    }
  }

  /** Bytes obtained from the buddy allocator are free bytes plus live bytes plus lost bytes. */
  lemma Conservation(chunks: set<nat>, head: nat, free: set<Span>, live: set<Live>, lost: set<nat>)
    requires Accounted(chunks, free, live, lost) && LivesOk(head, live, free)
    ensures Balanced(chunks, free, live, lost)
  {
    ChunkBytesCount(chunks);
    assert FreeBytes(free) !! LiveBytes(live) by {
      forall x | x in FreeBytes(free) ensures x !in LiveBytes(live) {
        var s :| s in free && Holds(s, x);
        LiveNotInSpan(live, free, s, x);
      }
    }
    var known := FreeBytes(free) + LiveBytes(live);
    assert known !! lost;
    assert ChunkBytes(chunks) == known + lost;
  }

  // ---- whole runs --------------------------------------------------------------------------------

  /** What a client may do: allocate, free something it holds, write inside something it holds. */
  datatype HeapOp =
    | OpAlloc(layout: Layout)
    | OpFree(index: nat)
    | OpWrite(index: nat, offset: nat, value: nat)

  /** A pointer held by the client and the size it asked for. */
  datatype Held = Held(ptr: nat, size: nat)

  ghost predicate Holding(live: set<Live>, held: seq<Held>, ls: seq<Live>)
  {
    && |ls| == |held|
    && (forall i :: 0 <= i < |held| ==> ls[i] in live && ls[i].ptr == held[i].ptr && held[i].size <= ls[i].layout.size)
    && (forall i, j :: 0 <= i < j < |ls| ==> ls[i] != ls[j])
  }

  lemma DropHeld(live: set<Live>, held: seq<Held>, ls: seq<Live>, i: nat)
    requires Holding(live, held, ls) && i < |held|
    ensures Holding(live - {ls[i]}, held[..i] + held[i + 1..], ls[..i] + ls[i + 1..])
  {
    var h', l' := held[..i] + held[i + 1..], ls[..i] + ls[i + 1..];
    assert forall k :: 0 <= k < |l'| ==> l'[k] == ls[if k < i then k else k + 1];
    assert forall k :: 0 <= k < |h'| ==> h'[k] == held[if k < i then k else k + 1];
  }

  lemma AddHeld(live: set<Live>, held: seq<Held>, ls: seq<Live>, e: Held, l: Live)
    requires Holding(live, held, ls) && l !in live && l.ptr == e.ptr && e.size <= l.layout.size
    ensures Holding(live + {l}, held + [e], ls + [l])
  {
  }

  /** The lost bytes have grown by a multiple of 8, by at most 32 for each of `n` requests. */
  ghost predicate LostAtMost(before: set<nat>, after: set<nat>, n: nat)
  {
    before <= after && |after| <= |before| + 32 * n && (|after| - |before|) % 8 == 0
  }

  lemma LostThen(a: set<nat>, b: set<nat>, c: set<nat>, m: nat, n: nat)
    requires LostAtMost(a, b, m) && LostAtMost(b, c, n)
    ensures LostAtMost(a, c, m + n)
  {
  }

  function Requests(op: HeapOp): (n: nat) { if op.OpAlloc? then 1 else 0 }

  /** The number of allocation requests among the operations. */
  function Allocs(ops: seq<HeapOp>): (n: nat)
  {
    if ops == [] then 0 else Allocs(ops[..|ops| - 1]) + Requests(ops[|ops| - 1])
  }

  lemma AllocsNext(ops: seq<HeapOp>, i: nat)
    requires i < |ops|
    ensures Allocs(ops[..i + 1]) == Allocs(ops[..i]) + Requests(ops[i])
  {
    assert ops[..i + 1][..i] == ops[..i];
  }

  /** The books balance: bytes obtained are free bytes plus live bytes plus lost bytes. */
  ghost predicate Balanced(chunks: set<nat>, free: set<Span>, live: set<Live>, lost: set<nat>)
  {
    |chunks| * CHUNK_SIZE == |FreeBytes(free)| + |LiveBytes(live)| + |lost|
  }

  /** What a step of a run depends on and changes: the heap's books, whether the page allocator has a chunk, and who holds what. */
  datatype Ledger = Ledger(free: set<Span>, live: set<Live>, lost: set<nat>, chunks: set<nat>, chunkLeft: bool,
                           held: seq<Held>, ls: seq<Live>)

  ghost function LedgerOf(h: KernelHeap, held: seq<Held>, ls: seq<Live>): (a: Ledger)
    requires |h.buddy.lists| == BG.MAX_ORDER
    reads h, h.buddy
  {
    Ledger(h.free, h.live, h.lost, h.chunks, h.buddy.lists[CHUNK_ORDER] != [], held, ls)
  }

  /** The same, except that the page allocator may have changed. */
  ghost predicate SameLedger(a: Ledger, b: Ledger)
  {
    b.free == a.free && b.live == a.live && b.lost == a.lost && b.chunks == a.chunks && b.held == a.held && b.ls == a.ls
  }

  /** A request can be served: its layout is valid, and a free span has room for it or a chunk can be added that has. */
  ghost predicate CanServe(a: Ledger, layout: Layout)
  {
    var size, shift := Max(layout.size, 1), Max(layout.shift, 3);
    && size + Pow2(shift) - 1 <= ISIZE_MAX
    && (RoomLeft(a.free, size, shift) || (Max(32, Pow2(shift)) + (size + 7) / 8 * 8 <= CHUNK_SIZE && a.chunkLeft))
  }

  /** The request was served from span `s` of the offered ones as the live block `l`, which its owner now holds. */
  ghost predicate ServedStep(a: Ledger, layout: Layout, b: Ledger, offered: set<Span>, s: Span, l: Live)
  {
    var n := Layout(Max(layout.size, 1), Max(layout.shift, 3));
    && Offered(a.free, a.chunks, n, b.chunks, offered)
    && Served(offered, s, n, l.ptr, b.free, a.live, b.live, l, a.lost, b.lost)
    && b.held == a.held + [Held(l.ptr, layout.size)] && b.ls == a.ls + [l]
  }

  /** The block held under the index goes back and is coalesced; without such a block nothing happens. */
  ghost predicate FreedStep(a: Ledger, index: nat, b: Ledger)
  {
    if index < |a.held| && |a.ls| == |a.held| then
      && b.live == a.live - {a.ls[index]} && CoalescedWith(a.free, a.ls[index].block, b.free)
      && b.lost == a.lost && b.chunks == a.chunks
      && b.held == a.held[..index] + a.held[index + 1..] && b.ls == a.ls[..index] + a.ls[index + 1..]
    else SameLedger(a, b)
  }

  /** What one operation of a run does. */
  ghost predicate Stepped(a: Ledger, op: HeapOp, b: Ledger)
  {
    match op
    case OpAlloc(layout) =>
      if CanServe(a, layout) then exists offered, s, l :: ServedStep(a, layout, b, offered, s, l) else SameLedger(a, b)
    case OpFree(index) => FreedStep(a, index, b)
    case OpWrite(_, _, _) => SameLedger(a, b)
  }

  ghost predicate TracedAt(trace: seq<Ledger>, ops: seq<HeapOp>, i: nat)
    requires i < |ops| && i + 1 < |trace|
  {
    Stepped(trace[i], ops[i], trace[i + 1])
  }

  /** The trace goes from `a` to `b` through the first `n` operations, each doing what it says. */
  ghost predicate Traced(a: Ledger, trace: seq<Ledger>, ops: seq<HeapOp>, n: nat, b: Ledger)
    requires n <= |ops|
  {
    && |trace| == n + 1 && trace[0] == a && trace[n] == b
    && forall i: nat {:trigger TracedAt(trace, ops, i)} :: i < n ==> TracedAt(trace, ops, i)
  }

  lemma TraceNext(a: Ledger, trace: seq<Ledger>, ops: seq<HeapOp>, n: nat, b: Ledger, c: Ledger)
    requires n < |ops| && Traced(a, trace, ops, n, b) && Stepped(b, ops[n], c)
    ensures Traced(a, trace + [c], ops, n + 1, c)
  {
    var trace' := trace + [c];
    forall i: nat | i < n + 1 ensures TracedAt(trace', ops, i) {
      assert i < n ==> TracedAt(trace, ops, i);
    }
  }

  /** Any interleaving of allocations, frees and owner writes does what its operations say, keeps the heap sound and its books balanced. */
  method Run(h: KernelHeap, ops: seq<HeapOp>) returns (held: seq<Held>, ghost ls: seq<Live>, ghost trace: seq<Ledger>)
    requires h.Valid()
    modifies h.mem, h`ring, h`free, h`live, h`lost, h`chunks, h.buddy`lists, h.buddy.metadata, h.buddy.freeHeads
    ensures h.Valid() && Holding(h.live, held, ls)
    ensures Traced(old(LedgerOf(h, [], [])), trace, ops, |ops|, LedgerOf(h, held, ls))
    ensures Balanced(h.chunks, h.free, h.live, h.lost) && LostAtMost(old(h.lost), h.lost, Allocs(ops))
  {
    held, ls := [], [];
    trace := [LedgerOf(h, held, ls)];
    ghost var n := 0;
    for i := 0 to |ops|
      invariant h.Valid() && Holding(h.live, held, ls) && n == Allocs(ops[..i]) && LostAtMost(old(h.lost), h.lost, n)
      invariant Traced(old(LedgerOf(h, [], [])), trace, ops, i, LedgerOf(h, held, ls))
    {
      ghost var lost1, b := h.lost, LedgerOf(h, held, ls);
      AllocsNext(ops, i);
      held, ls := RunOne(h, ops[i], held, ls);
      TraceNext(old(LedgerOf(h, [], [])), trace, ops, i, b, LedgerOf(h, held, ls));
      trace := trace + [LedgerOf(h, held, ls)];
      LostThen(old(h.lost), lost1, h.lost, n, Requests(ops[i]));
      n := n + Requests(ops[i]);
    }
    assert ops[..|ops|] == ops;
    Conservation(h.chunks, h.head, h.free, h.live, h.lost);
  }

  method RunOne(h: KernelHeap, op: HeapOp, held: seq<Held>, ghost ls: seq<Live>)
    returns (held': seq<Held>, ghost ls': seq<Live>)
    requires h.Valid() && Holding(h.live, held, ls)
    modifies h.mem, h`ring, h`free, h`live, h`lost, h`chunks, h.buddy`lists, h.buddy.metadata, h.buddy.freeHeads
    ensures h.Valid() && Holding(h.live, held', ls') && LostAtMost(old(h.lost), h.lost, Requests(op))
    ensures Stepped(old(LedgerOf(h, held, ls)), op, LedgerOf(h, held', ls'))
    ensures Grown(old(h.buddy.PageMarks()), h.buddy.PageMarks(), old(h.chunks), h.chunks)
  {
    match op {
      case OpAlloc(layout) => held', ls' := AllocOne(h, layout, held, ls);
      case OpFree(index) => held', ls' := FreeOne(h, index, held, ls);
      case OpWrite(index, offset, value) =>
        held', ls' := held, ls;
        WriteOne(h, index, offset, value, held, ls);
    }
  }

  method AllocOne(h: KernelHeap, layout: Layout, held: seq<Held>, ghost ls: seq<Live>)
    returns (held': seq<Held>, ghost ls': seq<Live>)
    requires h.Valid() && Holding(h.live, held, ls)
    modifies h.mem, h`ring, h`free, h`live, h`lost, h`chunks, h.buddy`lists, h.buddy.metadata, h.buddy.freeHeads
    ensures h.Valid() && Holding(h.live, held', ls') && LostAtMost(old(h.lost), h.lost, 1)
    ensures Stepped(old(LedgerOf(h, held, ls)), OpAlloc(layout), LedgerOf(h, held', ls'))
    ensures Grown(old(h.buddy.PageMarks()), h.buddy.PageMarks(), old(h.chunks), h.chunks)
  {
    held', ls' := held, ls;
    ghost var a := LedgerOf(h, held, ls);
    var r, l, offered, s := h.Alloc(layout);
    if r.Allocated? {
      ServedLoses(offered, s, l.layout, r.ptr, h.free, old(h.live), h.live, l, old(h.lost), h.lost);
      AddHeld(old(h.live), held, ls, Held(r.ptr, layout.size), l);
      held', ls' := held + [Held(r.ptr, layout.size)], ls + [l];
      ServedIsStep(a, layout, LedgerOf(h, held', ls'), r.ptr, offered, s, l);
    }
  }

  lemma ServedIsStep(a: Ledger, layout: Layout, b: Ledger, ptr: nat, offered: set<Span>, s: Span, l: Live)
    requires CanServe(a, layout) && NormalizeLayout(layout, MIN_SHIFT).Some?
    requires var n := NormalizeLayout(layout, MIN_SHIFT).value;
             Offered(a.free, a.chunks, n, b.chunks, offered) && Served(offered, s, n, ptr, b.free, a.live, b.live, l, a.lost, b.lost)
    requires b.held == a.held + [Held(ptr, layout.size)] && b.ls == a.ls + [l] && l.ptr == ptr
    ensures Stepped(a, OpAlloc(layout), b)
  {
    NormalizedExactly(layout, MIN_SHIFT);
    assert ServedStep(a, layout, b, offered, s, l);
  }

  method FreeOne(h: KernelHeap, index: nat, held: seq<Held>, ghost ls: seq<Live>)
    returns (held': seq<Held>, ghost ls': seq<Live>)
    requires h.Valid() && Holding(h.live, held, ls)
    modifies h.mem, h`ring, h`free, h`live
    ensures h.Valid() && Holding(h.live, held', ls')
    ensures h.lost == old(h.lost) && h.chunks == old(h.chunks)
    ensures FreedStep(old(LedgerOf(h, held, ls)), index, LedgerOf(h, held', ls'))
  {
    held', ls' := held, ls;
    if index < |held| {
      ghost var l := ls[index];
      assert LiveOk(h.head, l);
      DropHeld(h.live, held, ls, index);
      h.Dealloc(held[index].ptr, l);
      held', ls' := held[..index] + held[index + 1..], ls[..index] + ls[index + 1..];
    }
  }

  method WriteOne(h: KernelHeap, index: nat, offset: nat, value: nat, held: seq<Held>, ghost ls: seq<Live>)
    requires h.Valid() && Holding(h.live, held, ls)
    modifies h.mem
    ensures h.Valid()
  {
    if index < |held| && offset < held[index].size {
      h.UserWrite(held[index].ptr + offset, value, ls[index]);
    }
  }

  // ---- a request that loses bytes --------------------------------------------------------------

  lemma AlignedIsItsOwnRounding(x: nat, shift: nat)
    requires Aligned(x, shift) && x + Pow2(shift) <= USIZE_MAX
    ensures AlignUp(x, shift) == Some(x)
  {
    AlignUpFacts(x, shift);
    AlignUpLeast(x, shift, x);
  }

  /** A word-aligned request of `size` bytes at a word-aligned address uses `size + 32` bytes. */
  lemma WordPlacement(start: nat, size: nat)
    requires 1 <= size && start % 8 == 0 && size % 8 == 0 && start + size + 64 <= USIZE_MAX
    ensures UserPtrForBlock(start, Layout(size, MIN_SHIFT), HEAP) == Some(start + 32)
    ensures UsedEnd(start + 32, Layout(size, MIN_SHIFT), HEAP) == Some(start + 32 + size)
  {
    assert Pow2(3) == 8;
    WordSum(start, 32);
    WordSum(start + 32, size);
    AlignedIsModulo(start + 32, 3);
    AlignedIsModulo(start + 32 + size, 3);
    AlignedIsItsOwnRounding(start + 32, 3);
    AlignedIsItsOwnRounding(start + 32 + size, 3);
  }

  lemma ChunkWordAligned(c: nat)
    ensures ChunkSpan(c).addr % 8 == 0
  {
    assert ChunkSpan(c).addr == 8 * (KERNEL_VMA / 8 + c * 524288);
  }

  lemma BlockPlacement(start: nat, blockSize: nat, size: nat)
    requires 1 <= size && start % 8 == 0 && size % 8 == 0 && size + 32 <= blockSize && start + size + 64 <= USIZE_MAX
    ensures AllocationForBlock(start, blockSize, Layout(size, MIN_SHIFT), HEAP) == Some(Placement(start + 32, size + 32))
  {
    WordPlacement(start, size);
  }

  lemma WordLayout(size: nat)
    requires 1 <= size <= CHUNK_SIZE
    ensures NormalizeLayout(Layout(size, MIN_SHIFT), MIN_SHIFT) == Some(Layout(size, MIN_SHIFT))
  {
    assert Pow2(3) == 8;
  }

  lemma ChunkPlacement(c: nat, size: nat)
    requires 1 <= size && size % 8 == 0 && size + 32 <= CHUNK_SIZE && End(ChunkSpan(c)) + 0x1000_0000 <= USIZE_MAX
    ensures NormalizeLayout(Layout(size, MIN_SHIFT), MIN_SHIFT) == Some(Layout(size, MIN_SHIFT))
    ensures AllocationForBlock(ChunkSpan(c).addr, CHUNK_SIZE, Layout(size, MIN_SHIFT), HEAP) ==
              Some(Placement(ChunkSpan(c).addr + 32, size + 32))
  {
    WordLayout(size);
    ChunkWordAligned(c);
    BlockPlacement(ChunkSpan(c).addr, CHUNK_SIZE, size);
  }

  /** A small request round-trips on a whole chunk without loss. */
  lemma SmallRoundTrip(c: nat, after: set<Span>, free: set<Span>, lost: set<nat>, lost': set<nat>)
    requires End(ChunkSpan(c)) + 0x1000_0000 <= USIZE_MAX
    requires RoundTripped(free, Layout(8, MIN_SHIFT), {ChunkSpan(c)}, ChunkSpan(c), after, lost, lost')
    ensures after == {ChunkSpan(c)}
  {
    ChunkPlacement(c, 8);
    assert {ChunkSpan(c)} - {ChunkSpan(c)} == {};
  }

  /** A request for all but 48 bytes of a chunk leaves 16 bytes that are lost, so the round trip does not restore. */
  lemma SixteenBytesLost(c: nat, after: set<Span>, lost: set<nat>, lost': set<nat>)
    requires End(ChunkSpan(c)) + 0x1000_0000 <= USIZE_MAX
    requires RoundTripped({ChunkSpan(c)}, Layout(CHUNK_SIZE - 48, MIN_SHIFT), {ChunkSpan(c)}, ChunkSpan(c), after, lost, lost')
    ensures after == {Span(ChunkSpan(c).addr, CHUNK_SIZE - 16)} && after != {ChunkSpan(c)} && |lost'| == |lost| + 16
  {
    ChunkPlacement(c, CHUNK_SIZE - 48);
    var s := ChunkSpan(c);
    assert {s} - {s} == {};
    assert Span(s.addr, CHUNK_SIZE - 16) in after && Span(s.addr, CHUNK_SIZE - 16) != s;
    SlackBytesCount(s, CHUNK_SIZE - 16);
  }

  /** Coalescing a chunk with nothing gives the chunk. */
  lemma AloneInFree(c: nat, offered: set<Span>)
    requires CoalescedWith({}, ChunkSpan(c), offered)
    ensures offered == {ChunkSpan(c)}
  {
    forall x: nat ensures Covers(offered, x) <==> Covers({ChunkSpan(c)}, x) { CoversPlus({}, ChunkSpan(c), x); }
    assert {} + {ChunkSpan(c)} == {ChunkSpan(c)};
    SeparatedIsCanonical(offered, {ChunkSpan(c)});
  }

  lemma ChunkInReach(ms: seq<BG.Mark>, chunks: set<nat>, c: nat)
    requires ChunksHeld(ms, chunks) && c in chunks && |ms| + 1 < BL.CODE_LIMIT
    ensures End(ChunkSpan(c)) + 0x1000_0000 <= USIZE_MAX
  {
    assert BG.IsBlock(ms, c * CHUNK_PAGES, CHUNK_ORDER, false);
  }

  lemma SmallFitsChunk()
    ensures !TooLarge(Layout(8, MIN_SHIFT)) && NormalizeLayout(Layout(8, MIN_SHIFT), MIN_SHIFT) == Some(Layout(8, MIN_SHIFT))
  {
    assert Pow2(3) == 8;
    WordPlacement(0, 8);
  }

  /** From an empty free list: one round trip that brings in a chunk, and one that loses 16 bytes of it. */
  method LoseSixteenBytes(h: KernelHeap) returns (ok: bool, ghost c: nat)
    requires h.Valid() && h.free == {}
    modifies h.mem, h`ring, h`free, h`live, h`lost, h`chunks, h.buddy`lists, h.buddy.metadata, h.buddy.freeHeads
    ensures h.Valid() && h.live == old(h.live)
    ensures ok <==> old(h.buddy.lists)[CHUNK_ORDER] != []
    ensures ok ==> h.free == {Span(ChunkSpan(c).addr, CHUNK_SIZE - 16)} && |h.lost| == |old(h.lost)| + 16
  {
    ok, c := BringInChunk(h);
    if ok {
      ghost var lost0 := h.lost;
      ChunkPlacement(c, CHUNK_SIZE - 48);
      assert Fits(ChunkSpan(c), Layout(CHUNK_SIZE - 48, MIN_SHIFT));
      var r, offered, s := h.AllocateThenFree(Layout(CHUNK_SIZE - 48, MIN_SHIFT));
      assert s == ChunkSpan(c);
      SixteenBytesLost(c, h.free, lost0, h.lost);
    }
  }

  method BringInChunk(h: KernelHeap) returns (ok: bool, ghost c: nat)
    requires h.Valid() && h.free == {}
    modifies h.mem, h`ring, h`free, h`live, h`lost, h`chunks, h.buddy`lists, h.buddy.metadata, h.buddy.freeHeads
    ensures h.Valid() && h.live == old(h.live)
    ensures ok <==> old(h.buddy.lists)[CHUNK_ORDER] != []
    ensures ok ==> h.free == {ChunkSpan(c)} && |h.lost| == |old(h.lost)| && End(ChunkSpan(c)) + 0x1000_0000 <= USIZE_MAX
  {
    c := 0;
    SmallFitsChunk();
    ghost var f0, chunks0, lost0 := h.free, h.chunks, h.lost;
    var r, offered, s := h.AllocateThenFree(Layout(8, MIN_SHIFT));
    ok := r.Allocated?;
    if ok {
      c :| OfferedWith(f0, chunks0, h.chunks, offered, c);
      AloneInFree(c, offered);
      ChunkInReach(h.buddy.PageMarks(), h.chunks, c);
      SmallRoundTrip(c, h.free, f0, lost0, h.lost);
      ChunkPlacement(c, 8);
    }
  }

  /** A page allocator filled from one chunk of memory can give that chunk. */
  lemma WholeChunkListed(m: seq<BL.PageInfo>, heads: seq<Option<nat>>, lists: BL.Lists)
    requires BL.Consistent(m, heads, lists, 0, 0) && BS.Coalesced(lists) && |m| == CHUNK_PAGES
    requires forall q :: 0 <= q < |m| ==> m[q].isFree
    ensures lists[CHUNK_ORDER] != []
  {
    ChunkPowers();
    AlignedZero(CHUNK_ORDER);
    var b, j := BS.FreeRunInOneBlock(m, heads, lists, 0, CHUNK_ORDER);
    assert j == CHUNK_ORDER;
  }

  /** A single area has no seam, and all its pages are free. */
  lemma OneAreaFilled(ms: seq<BG.Mark>, areas: seq<BR.Range>)
    requires areas == [BR.Range(0, CHUNK_SIZE)] && |ms| == CHUNK_PAGES
    requires forall q :: 0 <= q < |ms| && AR.InSomeArea(q, areas) && BR.PageClear(q, []) ==> ms[q].isFree
    ensures !AR.Seam(areas, []) && forall q :: 0 <= q < |ms| ==> ms[q].isFree
  {
    forall q | 0 <= q < |ms| ensures ms[q].isFree { assert AR.InArea(q, areas[0]); }
  }

  /** From nothing: a page allocator over 4 MiB, a heap on it, and the run that loses 16 bytes. */
  method LoseSixteenBytesFromBoot() returns (h: KernelHeap, ghost c: nat)
    ensures h.Valid() && h.live == {} && h.free == {Span(ChunkSpan(c).addr, CHUNK_SIZE - 16)} && |h.lost| == 16
  {
    var areas := [BR.Range(0, CHUNK_SIZE)];
    var buddy := new BA.BuddyAllocator(CHUNK_PAGES, areas, []);
    OneAreaFilled(buddy.PageMarks(), areas);
    WholeChunkListed(buddy.metadata[..], buddy.freeHeads[..], buddy.lists);
    HeadBeyond(buddy.PageMarks());
    h := new KernelHeap(buddy, KERNEL_VMA + CHUNK_SIZE);
    var ok;
    ok, c := LoseSixteenBytes(h);
  }

  lemma HeadBeyond(ms: seq<BG.Mark>)
    requires |ms| == CHUNK_PAGES
    ensures HeadReserved(KERNEL_VMA + CHUNK_SIZE, ms, {})
  {
  }
}
