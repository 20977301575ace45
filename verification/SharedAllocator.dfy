/**
  One page allocator for everyone: the kernel heap, the page tables and the owners of whole blocks
  (process stacks and code pages) draw on it in any order.
*/
module SharedAllocator {
  import opened Basics
  import opened PowersOfTwo
  import BG = BuddyGeometry
  import BL = BuddyLists
  import BR = BuddyRegion
  import AR = BuddyAreas
  import opened BuddySpec
  import BA = BuddyAllocator
  import RF = BuddyRefinement
  import KH = KernelHeap
  import PT = PageTables
  import PM = PageMapper
  import AS = AddressSpaces

  // ---- who holds what ----------------------------------------------------------------

  /** Byte `x` of the kernel's mapping lies in the pages of block `b`. */
  predicate InBlock(x: nat, b: Block)
  {
    x >= KERNEL_VMA && b.pfn <= (x - KERNEL_VMA) / PAGE_SIZE < b.pfn + Pow2(b.order)
  }

  /** Block `b` is held by a direct owner: live, and neither a chunk, a table nor under the heap's list head. */
  ghost predicate HeldApart(ms: seq<BG.Mark>, head: nat, chunks: set<nat>, frames: set<nat>, b: Block)
  {
    && BG.IsBlock(ms, b.pfn, b.order, false)
    && (forall c :: c in chunks ==> b.pfn != c * KH.CHUNK_PAGES)
    && b.pfn !in frames
    && (forall x :: head <= x < head + 16 ==> !InBlock(x, b))
  }

  ghost predicate AllApart(ms: seq<BG.Mark>, head: nat, chunks: set<nat>, frames: set<nat>, held: seq<Block>)
  {
    && (forall i {:trigger HeldApart(ms, head, chunks, frames, held[i])} :: 0 <= i < |held| ==> HeldApart(ms, head, chunks, frames, held[i]))
    && (forall i, j :: 0 <= i < j < |held| ==> held[i].pfn != held[j].pfn)
  }

  /** Everything that any of the three kinds of owners holds. */
  ghost predicate IsOwned(chunks: set<nat>, frames: set<nat>, held: seq<Block>, b: Block)
  {
    || (b.order == KH.CHUNK_ORDER && exists c :: c in chunks && b.pfn == c * KH.CHUNK_PAGES)
    || (b.order == 0 && b.pfn in frames)
    || b in held
  }

  /** A chunk, a table and a held block are three different things. */
  lemma KindsDiffer(ms: seq<BG.Mark>, head: nat, chunks: set<nat>, frames: set<nat>, held: seq<Block>, c: nat, t: nat, i: nat)
    requires KH.ChunksHeld(ms, chunks) && PM.TablesHeld(ms, frames) && AllApart(ms, head, chunks, frames, held)
    requires c in chunks && t in frames && i < |held|
    ensures c * KH.CHUNK_PAGES != t && c * KH.CHUNK_PAGES != held[i].pfn && t != held[i].pfn
  {
    assert BG.IsBlock(ms, c * KH.CHUNK_PAGES, KH.CHUNK_ORDER, false) && BG.IsBlock(ms, t, 0, false);
    assert HeldApart(ms, head, chunks, frames, held[i]);
  }

  lemma OwnedIsLive(ms: seq<BG.Mark>, head: nat, chunks: set<nat>, frames: set<nat>, held: seq<Block>, a: Block)
    requires KH.ChunksHeld(ms, chunks) && PM.TablesHeld(ms, frames) && AllApart(ms, head, chunks, frames, held)
    requires IsOwned(chunks, frames, held, a)
    ensures BG.IsBlock(ms, a.pfn, a.order, false)
  {
    if a in held {
      var i :| 0 <= i < |held| && held[i] == a;
      assert HeldApart(ms, head, chunks, frames, held[i]);
    }
  }

  /** No two things that are held share a page, and nothing held shares a page with any other block. */
  lemma OwnersDisjoint(ms: seq<BG.Mark>, head: nat, chunks: set<nat>, frames: set<nat>, held: seq<Block>, a: Block, x: nat, j: nat, f: bool)
    requires BG.Geometry(ms)
    requires KH.ChunksHeld(ms, chunks) && PM.TablesHeld(ms, frames) && AllApart(ms, head, chunks, frames, held)
    requires IsOwned(chunks, frames, held, a) && BG.IsBlock(ms, x, j, f)
    ensures BG.IsBlock(ms, a.pfn, a.order, false)
    ensures a == Block(x, j) || a.pfn + Pow2(a.order) <= x || x + Pow2(j) <= a.pfn
  {
    OwnedIsLive(ms, head, chunks, frames, held, a);
    BG.BlocksDisjoint(ms, a.pfn, a.order, false, x, j, f);
  }

  // ---- what allocations and releases do to the others --------------------------------------

  /** Allocations by anyone leave the heap's chunks and list head alone. */
  lemma HeapUndisturbed(ms: seq<BG.Mark>, ms': seq<BG.Mark>, head: nat, chunks: set<nat>)
    requires KeepsLive(ms, ms') && KH.ChunksHeld(ms, chunks) && KH.HeadReserved(head, ms, chunks)
    ensures KH.ChunksHeld(ms', chunks) && KH.HeadReserved(head, ms', chunks)
  {
    forall c | c in chunks ensures BG.IsBlock(ms', c * KH.CHUNK_PAGES, KH.CHUNK_ORDER, false) {
      assert BG.IsBlock(ms, c * KH.CHUNK_PAGES, KH.CHUNK_ORDER, false);
      assert StaysLive(ms, ms', c * KH.CHUNK_PAGES, KH.CHUNK_ORDER);
    }
    forall x | head <= x < head + 16 ensures KH.OutOfReach(x, ms', chunks) {
      assert KH.OutOfReach(x, ms, chunks);
      if x >= KERNEL_VMA { assert StaysTaken(ms, ms', (x - KERNEL_VMA) / PAGE_SIZE); }
    }
  }

  lemma TablesUndisturbed(ms: seq<BG.Mark>, ms': seq<BG.Mark>, frames: set<nat>)
    requires KeepsLive(ms, ms') && PM.TablesHeld(ms, frames)
    ensures PM.TablesHeld(ms', frames)
  {
    forall t | t in frames ensures BG.IsBlock(ms', t, 0, false) { assert StaysLive(ms, ms', t, 0); }
  }

  lemma HeldUndisturbed(ms: seq<BG.Mark>, ms': seq<BG.Mark>, head: nat, chunks: set<nat>, frames: set<nat>, held: seq<Block>)
    requires KeepsLive(ms, ms') && AllApart(ms, head, chunks, frames, held)
    ensures AllApart(ms', head, chunks, frames, held)
  {
    forall i | 0 <= i < |held| ensures HeldApart(ms', head, chunks, frames, held[i]) {
      assert HeldApart(ms, head, chunks, frames, held[i]) && StaysLive(ms, ms', held[i].pfn, held[i].order);
    }
  }

  /** A new chunk is none of the held blocks. */
  lemma HeldAfterGrowth(ms: seq<BG.Mark>, ms': seq<BG.Mark>, head: nat, chunks: set<nat>, chunks': set<nat>, frames: set<nat>, held: seq<Block>)
    requires KH.Grown(ms, ms', chunks, chunks') && AllApart(ms, head, chunks, frames, held)
    ensures KeepsLive(ms, ms') && AllApart(ms', head, chunks', frames, held)
  {
    if chunks' == chunks && ms' == ms {
    } else {
      var c: nat :| KH.GrownBy(ms, ms', chunks, chunks', c);
      AllocatedKeepsLive(ms, ms', c * KH.CHUNK_PAGES, KH.CHUNK_ORDER);
      HeldUndisturbed(ms, ms', head, chunks, frames, held);
      forall i | 0 <= i < |held| ensures HeldApart(ms', head, chunks', frames, held[i]) {
        assert HeldApart(ms, head, chunks, frames, held[i]) && HeldApart(ms', head, chunks, frames, held[i]);
        assert ms[c * KH.CHUNK_PAGES].isFree;
      }
    }
  }

  /** New tables are none of the held blocks. */
  lemma HeldAfterTables(ms: seq<BG.Mark>, ms': seq<BG.Mark>, head: nat, chunks: set<nat>, frames: set<nat>, frames': set<nat>, n: nat, held: seq<Block>)
    requires PM.NewTables(ms, ms', frames, frames', n) && AllApart(ms, head, chunks, frames, held)
    ensures KeepsLive(ms, ms') && AllApart(ms', head, chunks, frames', held)
  {
    TookKeepsLive(ms, ms', frames' - frames);
    HeldUndisturbed(ms, ms', head, chunks, frames, held);
    forall i | 0 <= i < |held| ensures HeldApart(ms', head, chunks, frames', held[i]) {
      assert HeldApart(ms, head, chunks, frames, held[i]) && HeldApart(ms', head, chunks, frames, held[i]);
      assert TookPage(ms, ms', frames' - frames, held[i].pfn);
    }
  }

  /** A block just allocated to a direct owner is apart from all that was held before. */
  lemma HeldAfterTake(ms: seq<BG.Mark>, ms': seq<BG.Mark>, head: nat, chunks: set<nat>, frames: set<nat>, held: seq<Block>, p: nat, k: nat)
    requires Allocated(ms, ms', p, k) && AllApart(ms, head, chunks, frames, held)
    requires KH.ChunksHeld(ms, chunks) && KH.HeadReserved(head, ms, chunks) && PM.TablesHeld(ms, frames)
    ensures KeepsLive(ms, ms') && AllApart(ms', head, chunks, frames, held + [Block(p, k)])
  {
    AllocatedKeepsLive(ms, ms', p, k);
    HeldUndisturbed(ms, ms', head, chunks, frames, held);
    var b := Block(p, k);
    assert ms[p].isFree && BG.IsBlock(ms', p, k, false);
    forall c | c in chunks ensures p != c * KH.CHUNK_PAGES { assert BG.IsBlock(ms, c * KH.CHUNK_PAGES, KH.CHUNK_ORDER, false); }
    forall x | head <= x < head + 16 ensures !InBlock(x, b) { assert KH.OutOfReach(x, ms, chunks); }
    assert HeldApart(ms', head, chunks, frames, b);
    var held' := held + [b];
    forall i | 0 <= i < |held'| ensures HeldApart(ms', head, chunks, frames, held'[i]) && (i < |held| ==> held'[i].pfn != p) {
      if i < |held| { assert HeldApart(ms, head, chunks, frames, held[i]) && HeldApart(ms', head, chunks, frames, held[i]); }
    }
  }

  /** Releasing a held block leaves everyone else's blocks live and the list head out of reach. */
  lemma AfterGive(ms: seq<BG.Mark>, ms': seq<BG.Mark>, head: nat, chunks: set<nat>, frames: set<nat>, held: seq<Block>, i: nat)
    requires i < |held| && Allocated(ms', ms, held[i].pfn, held[i].order) && AllApart(ms, head, chunks, frames, held)
    requires KH.ChunksHeld(ms, chunks) && KH.HeadReserved(head, ms, chunks) && PM.TablesHeld(ms, frames)
    ensures KH.ChunksHeld(ms', chunks) && KH.HeadReserved(head, ms', chunks) && PM.TablesHeld(ms', frames)
    ensures AllApart(ms', head, chunks, frames, held[..i] + held[i + 1..])
  {
    var b := held[i];
    assert HeldApart(ms, head, chunks, frames, b);
    forall c | c in chunks ensures BG.IsBlock(ms', c * KH.CHUNK_PAGES, KH.CHUNK_ORDER, false) {
      assert BG.IsBlock(ms, c * KH.CHUNK_PAGES, KH.CHUNK_ORDER, false);
    }
    forall t | t in frames ensures BG.IsBlock(ms', t, 0, false) { assert BG.IsBlock(ms, t, 0, false); }
    forall x | head <= x < head + 16 ensures KH.OutOfReach(x, ms', chunks) {
      assert KH.OutOfReach(x, ms, chunks) && !InBlock(x, b);
    }
    var rest := held[..i] + held[i + 1..];
    forall j | 0 <= j < |rest| ensures HeldApart(ms', head, chunks, frames, rest[j]) {
      var j0 := if j < i then j else j + 1;
      assert rest[j] == held[j0] && HeldApart(ms, head, chunks, frames, held[j0]);
    }
  }

  // ---- user pages ------------------------------------------------------------------------------

  /** Page `frame` lies in held block `i`, which belongs to space `k`. */
  ghost predicate NamedBy(held: seq<Block>, owners: seq<Option<nat>>, k: nat, frame: nat, i: nat)
  {
    && i < |held| && i < |owners| && owners[i] == Some(k)
    && held[i].pfn <= frame < held[i].pfn + Pow2(held[i].order)
  }

  ghost predicate IsNamed(held: seq<Block>, owners: seq<Option<nat>>, op: AS.SpaceOp)
  {
    op.OpMap? && PT.Contains(op.call.flags, PT.USER) ==>
      exists i :: NamedBy(held, owners, op.index, AS.LeafOf(op.call).frame, i)
  }

  /** Every user mapping names a page of a block that is held and belongs to the space. */
  ghost predicate AllNamed(log: seq<AS.SpaceOp>, held: seq<Block>, owners: seq<Option<nat>>)
  {
    forall n {:trigger IsNamed(held, owners, log[n])} :: 0 <= n < |log| ==> IsNamed(held, owners, log[n])
  }

  /** A block that belongs to no space may go; the rest keep their owners. */
  lemma NamedAfterGive(log: seq<AS.SpaceOp>, held: seq<Block>, owners: seq<Option<nat>>, i: nat)
    requires AllNamed(log, held, owners) && i < |held| == |owners| && owners[i].None?
    ensures AllNamed(log, held[..i] + held[i + 1..], owners[..i] + owners[i + 1..])
  {
    var h', o' := held[..i] + held[i + 1..], owners[..i] + owners[i + 1..];
    forall n | 0 <= n < |log| ensures IsNamed(h', o', log[n]) {
      assert IsNamed(held, owners, log[n]);
      if log[n].OpMap? && PT.Contains(log[n].call.flags, PT.USER) {
        var j: nat :| NamedBy(held, owners, log[n].index, AS.LeafOf(log[n].call).frame, j);
        assert NamedBy(h', o', log[n].index, AS.LeafOf(log[n].call).frame, if j < i then j else j - 1);
      }
    }
  }

  lemma NamedAfterTake(log: seq<AS.SpaceOp>, held: seq<Block>, owners: seq<Option<nat>>, b: Block)
    requires AllNamed(log, held, owners) && |held| == |owners|
    ensures AllNamed(log, held + [b], owners + [None])
  {
    forall n | 0 <= n < |log| ensures IsNamed(held + [b], owners + [None], log[n]) {
      assert IsNamed(held, owners, log[n]);
      if log[n].OpMap? && PT.Contains(log[n].call.flags, PT.USER) {
        var j: nat :| NamedBy(held, owners, log[n].index, AS.LeafOf(log[n].call).frame, j);
        assert NamedBy(held + [b], owners + [None], log[n].index, AS.LeafOf(log[n].call).frame, j);
      }
    }
  }

  /** Giving block `i` to a space that may have it, and one more operation that is named. */
  lemma NamedAfterMap(log: seq<AS.SpaceOp>, held: seq<Block>, owners: seq<Option<nat>>, i: nat, k: nat, op: AS.SpaceOp)
    requires AllNamed(log, held, owners) && i < |owners| && (owners[i].None? || owners[i] == Some(k))
    requires IsNamed(held, owners[i := Some(k)], op)
    ensures AllNamed(log + [op], held, owners[i := Some(k)])
  {
    var o' := owners[i := Some(k)];
    forall n | 0 <= n < |log + [op]| ensures IsNamed(held, o', (log + [op])[n]) {
      if n < |log| {
        assert IsNamed(held, owners, log[n]);
        if log[n].OpMap? && PT.Contains(log[n].call.flags, PT.USER) {
          var j: nat :| NamedBy(held, owners, log[n].index, AS.LeafOf(log[n].call).frame, j);
          assert NamedBy(held, o', log[n].index, AS.LeafOf(log[n].call).frame, j);
        }
      }
    }
  }

  ghost predicate IsUserLeaf(ts: PT.Tables, root: nat, v: PT.VPage)
  {
    PT.ValidPage(v) && PT.Leaf(ts, root, v).Some? && PT.HasUser(PT.Leaf(ts, root, v).value)
  }

  /** User leaves of different spaces name different frames, and none names a table or a page of the heap. */
  ghost predicate UserPagesApart(ts: PT.Tables, roots: seq<nat>, chunks: set<nat>)
  {
    && (forall k, v {:trigger IsUserLeaf(ts, roots[k], v)} :: 0 <= k < |roots| && IsUserLeaf(ts, roots[k], v) ==>
          var x := PT.Leaf(ts, roots[k], v).value.frame;
          x !in ts && forall c :: c in chunks ==> !(c * KH.CHUNK_PAGES <= x < c * KH.CHUNK_PAGES + KH.CHUNK_PAGES))
    && (forall j, k, u, v {:trigger IsUserLeaf(ts, roots[j], u), IsUserLeaf(ts, roots[k], v)} ::
          0 <= j < k < |roots| && IsUserLeaf(ts, roots[j], u) && IsUserLeaf(ts, roots[k], v) ==>
            PT.Leaf(ts, roots[j], u).value.frame != PT.Leaf(ts, roots[k], v).value.frame)
  }

  /** The held block behind a user leaf. */
  lemma LeafIsNamed(ts: PT.Tables, roots: seq<nat>, log: seq<AS.SpaceOp>, held: seq<Block>, owners: seq<Option<nat>>, k: nat, v: PT.VPage)
    returns (i: nat)
    requires AS.SpacesRefine(ts, roots, log) && AS.AllUserLow(log) && AllNamed(log, held, owners)
    requires k < |roots| && IsUserLeaf(ts, roots[k], v)
    ensures NamedBy(held, owners, k, PT.Leaf(ts, roots[k], v).value.frame, i)
  {
    assert AS.SeenAt(ts, roots[k], log, k, v);
    var n := AS.UserLeafIsOwn(log, k, v);
    assert IsNamed(held, owners, log[n]);
    i :| NamedBy(held, owners, k, AS.LeafOf(log[n].call).frame, i);
  }

  lemma UserPagesStayApart(h: KH.KernelHeap, m: PM.Mapper, roots: seq<nat>, log: seq<AS.SpaceOp>, held: seq<Block>, owners: seq<Option<nat>>)
    requires Sound(h, m, held) && AS.SpacesRefine(m.tables, roots, log) && AS.AllUserLow(log) && AllNamed(log, held, owners)
    ensures UserPagesApart(m.tables, roots, h.chunks)
  {
    var ms, ts := h.buddy.PageMarks(), m.tables;
    KH.ChunkPowers10();
    forall k, v | 0 <= k < |roots| && IsUserLeaf(ts, roots[k], v)
      ensures var x := PT.Leaf(ts, roots[k], v).value.frame;
              x !in ts && forall c :: c in h.chunks ==> !(c * KH.CHUNK_PAGES <= x < c * KH.CHUNK_PAGES + KH.CHUNK_PAGES)
    {
      var i := LeafIsNamed(ts, roots, log, held, owners, k, v);
      PageOfHeld(ms, h.head, h.chunks, ts.Keys, held, i, PT.Leaf(ts, roots[k], v).value.frame);
    }
    forall j, k, u, v | 0 <= j < k < |roots| && IsUserLeaf(ts, roots[j], u) && IsUserLeaf(ts, roots[k], v)
      ensures PT.Leaf(ts, roots[j], u).value.frame != PT.Leaf(ts, roots[k], v).value.frame
    {
      var a := LeafIsNamed(ts, roots, log, held, owners, j, u);
      var b := LeafIsNamed(ts, roots, log, held, owners, k, v);
      HeldPagesDiffer(ms, h.head, h.chunks, ts.Keys, held, a, b, PT.Leaf(ts, roots[j], u).value.frame, PT.Leaf(ts, roots[k], v).value.frame);
    }
  }

  /** A page of a held block is no table and no page of a chunk. */
  lemma PageOfHeld(ms: seq<BG.Mark>, head: nat, chunks: set<nat>, frames: set<nat>, held: seq<Block>, i: nat, x: nat)
    requires BG.Geometry(ms) && KH.ChunksHeld(ms, chunks) && PM.TablesHeld(ms, frames) && AllApart(ms, head, chunks, frames, held)
    requires i < |held| && held[i].pfn <= x < held[i].pfn + Pow2(held[i].order)
    ensures x !in frames
    ensures forall c :: c in chunks ==> !(c * KH.CHUNK_PAGES <= x < c * KH.CHUNK_PAGES + KH.CHUNK_PAGES)
  {
    var b := held[i];
    assert HeldApart(ms, head, chunks, frames, held[i]);
    if x in frames {
      BG.BlocksDisjoint(ms, b.pfn, b.order, false, x, 0, false);
    }
    forall c | c in chunks ensures !(c * KH.CHUNK_PAGES <= x < c * KH.CHUNK_PAGES + KH.CHUNK_PAGES) {
      KH.ChunkPowers10();
      BG.BlocksDisjoint(ms, b.pfn, b.order, false, c * KH.CHUNK_PAGES, KH.CHUNK_ORDER, false);
    }
  }

  lemma HeldPagesDiffer(ms: seq<BG.Mark>, head: nat, chunks: set<nat>, frames: set<nat>, held: seq<Block>, a: nat, b: nat, x: nat, y: nat)
    requires BG.Geometry(ms) && AllApart(ms, head, chunks, frames, held) && a < |held| && b < |held| && a != b
    requires held[a].pfn <= x < held[a].pfn + Pow2(held[a].order) && held[b].pfn <= y < held[b].pfn + Pow2(held[b].order)
    ensures x != y
  {
    assert HeldApart(ms, head, chunks, frames, held[a]) && HeldApart(ms, head, chunks, frames, held[b]);
    BG.BlocksDisjoint(ms, held[a].pfn, held[a].order, false, held[b].pfn, held[b].order, false);
  }

  // ---- whole runs ----------------------------------------------------------------------------

  /**
    Requests to the heap, operations on address spaces, direct page requests, and mapping a page of
    a held block into a space, which then owns the block.
  */
  datatype KernelOp =
    | OnHeap(heapOp: KH.HeapOp)
    | OnSpaces(spaceOp: AS.SpaceOp)
    | MapHeld(space: nat, block: nat, nth: nat, virt: nat, flags: PT.Flags)
    | TakePages(order: nat)
    | TakePagesBelow(below: nat, limit: nat)
    | GivePages(index: nat)

  /** Heap and mapper are sound on the same page allocator, and all owners hold different blocks. */
  ghost predicate Sound(h: KH.KernelHeap, m: PM.Mapper, held: seq<Block>)
    reads h, h.mem, m, h.buddy, h.buddy.metadata, h.buddy.freeHeads, m.buddy, m.buddy.metadata, m.buddy.freeHeads
  {
    && h.Valid() && m.Valid() && h.buddy == m.buddy
    && AllApart(h.buddy.PageMarks(), h.head, h.chunks, m.tables.Keys, held)
  }

  /** Whatever is held is a live block that shares no page with any other block, free or live. */
  ghost predicate OwnersKeepApart(ms: seq<BG.Mark>, chunks: set<nat>, frames: set<nat>, held: seq<Block>)
  {
    && (forall a {:trigger IsOwned(chunks, frames, held, a)} :: IsOwned(chunks, frames, held, a) ==> BG.IsBlock(ms, a.pfn, a.order, false))
    && (forall a, x: nat, j: nat, f {:trigger IsOwned(chunks, frames, held, a), BG.IsBlock(ms, x, j, f)} ::
          IsOwned(chunks, frames, held, a) && BG.IsBlock(ms, x, j, f) ==>
            a == Block(x, j) || a.pfn + Pow2(a.order) <= x || x + Pow2(j) <= a.pfn)
    && (forall c, t, i :: c in chunks && t in frames && 0 <= i < |held| ==>
          c * KH.CHUNK_PAGES != t && c * KH.CHUNK_PAGES != held[i].pfn && t != held[i].pfn)
  }

  /** What the kernel keeps track of: roots, heap pointers, and the blocks it holds with the space each belongs to. */
  datatype Books = Books(roots: seq<nat>, heap: seq<KH.Held>, pages: seq<nat>, owners: seq<Option<nat>>)

  /** The same in terms of the specifications: operations on spaces so far, live heap blocks, held blocks. */
  datatype Trace = Trace(log: seq<AS.SpaceOp>, live: seq<KH.Live>, held: seq<Block>)

  ghost predicate Matching(b: Books, t: Trace)
  {
    |b.pages| == |b.owners| == |t.held| && forall i :: 0 <= i < |b.pages| ==> b.pages[i] == t.held[i].pfn * PAGE_SIZE
  }

  /** Everything is sound and the books are right. */
  ghost predicate InOrder(h: KH.KernelHeap, m: PM.Mapper, b: Books, t: Trace)
    reads h, h.mem, m, h.buddy, h.buddy.metadata, h.buddy.freeHeads, m.buddy, m.buddy.metadata, m.buddy.freeHeads
  {
    && Sound(h, m, t.held) && Matching(b, t) && KH.Holding(h.live, b.heap, t.live)
    && AS.RootsOk(m.pos, b.roots) && AS.SpacesRefine(m.tables, b.roots, t.log)
  }

  // ---- what each operation does -----------------------------------------------------------

  /** The heap's ledger, the free lists and the books at one moment of a run. */
  datatype Snap = Snap(ledger: KH.Ledger, lists: BL.Lists, books: Books, trace: Trace)

  ghost function SnapOf(h: KH.KernelHeap, b: Books, t: Trace): (s: Snap)
    requires |h.buddy.lists| == BG.MAX_ORDER
    reads h, h.buddy
  {
    Snap(KH.LedgerOf(h, b.heap, t.live), h.buddy.lists, b, t)
  }

  ghost predicate DidHeap(s: Snap, o: KH.HeapOp, s': Snap)
  {
    && KH.Stepped(s.ledger, o, s'.ledger)
    && s'.books == s.books.(heap := s'.books.heap) && s'.trace == s.trace.(live := s'.trace.live)
  }

  ghost predicate DidSpace(s: Snap, o: AS.SpaceOp, s': Snap)
  {
    && KH.SameLedger(s.ledger, s'.ledger)
    && s'.books == s.books.(roots := s'.books.roots) && s'.trace == s.trace.(log := s.trace.log + [o])
  }

  /** A direct request gets the block the page allocator chooses, if there is one, and its owner holds it from then on. */
  ghost predicate DidTake(s: Snap, order: nat, limit: Option<nat>, s': Snap)
    requires |s.lists| == BG.MAX_ORDER
  {
    && KH.SameLedger(s.ledger, s'.ledger)
    && match RF.Choice(s.lists, order, order, limit)
       case None => s'.books == s.books && s'.trace == s.trace
       case Some(c) =>
         && s'.books == s.books.(pages := s.books.pages + [c.pfn * PAGE_SIZE], owners := s.books.owners + [None])
         && s'.trace == s.trace.(held := s.trace.held + [Block(c.pfn, order)])
  }

  /** A held block that belongs to no space goes back to the free lists; otherwise nothing happens. */
  ghost predicate DidGive(s: Snap, i: nat, s': Snap)
    requires |s.lists| == BG.MAX_ORDER
  {
    && KH.SameLedger(s.ledger, s'.ledger)
    && if i < |s.books.owners| == |s.books.pages| == |s.trace.held| && s.books.owners[i].None? then
      && s.trace.held[i].order < BG.MAX_ORDER && s'.lists == FreeLists(s.lists, s.trace.held[i].pfn, s.trace.held[i].order)
      && s'.books == s.books.(pages := s.books.pages[..i] + s.books.pages[i + 1..], owners := s.books.owners[..i] + s.books.owners[i + 1..])
      && s'.trace == s.trace.(held := s.trace.held[..i] + s.trace.held[i + 1..])
    else s'.books == s.books && s'.trace == s.trace && s'.lists == s.lists
  }

  /** The mapping that a request for page `nth` of a held block stands for. */
  ghost function HeldMapping(op: KernelOp, held: seq<Block>): (o: AS.SpaceOp)
    requires op.MapHeld? && op.block < |held|
  {
    AS.OpMap(op.space, PM.Call(op.virt, held[op.block].pfn * PAGE_SIZE + op.nth * PAGE_SIZE, op.flags))
  }

  /** The block is held and belongs to nobody else, it has a page `nth`, and no user page would be in the kernel half. */
  ghost predicate MayMap(op: KernelOp, held: seq<Block>, owners: seq<Option<nat>>)
    requires op.MapHeld?
  {
    && op.block < |owners| == |held| && (owners[op.block].None? || owners[op.block] == Some(op.space))
    && op.nth < Pow2(held[op.block].order) && AS.UserLow(HeldMapping(op, held))
  }

  /** Page `nth` of a held block is mapped if it may be, and the block then belongs to the space. */
  ghost predicate DidMapHeld(s: Snap, op: KernelOp, s': Snap)
    requires op.MapHeld?
  {
    var i := op.block;
    && KH.SameLedger(s.ledger, s'.ledger)
    && if MayMap(op, s.trace.held, s.books.owners) then
      && s'.trace == s.trace.(log := s.trace.log + [HeldMapping(op, s.trace.held)])
      && s'.books == s.books.(roots := s'.books.roots, owners := s.books.owners[i := Some(op.space)])
    else s'.books == s.books && s'.trace == s.trace
  }

  /** What one operation of a run does. */
  ghost predicate Did(s: Snap, op: KernelOp, s': Snap)
    requires |s.lists| == BG.MAX_ORDER
  {
    match op
    case OnHeap(o) => DidHeap(s, o, s')
    case OnSpaces(o) => DidSpace(s, o, s')
    case MapHeld(_, _, _, _, _) => DidMapHeld(s, op, s')
    case TakePages(order) => DidTake(s, order, None, s')
    case TakePagesBelow(order, limit) => DidTake(s, order, Some(limit), s')
    case GivePages(i) => DidGive(s, i, s')
  }

  ghost predicate DidAt(steps: seq<Snap>, ops: seq<KernelOp>, i: nat)
    requires i < |ops| && i + 1 < |steps|
  {
    |steps[i].lists| == BG.MAX_ORDER && Did(steps[i], ops[i], steps[i + 1])
  }

  /** The steps lead from `a` through the first `n` operations, each doing what it says. */
  ghost predicate Followed(a: Snap, steps: seq<Snap>, ops: seq<KernelOp>, n: nat)
  {
    && n <= |ops| && |steps| == n + 1 && steps[0] == a
    && forall i: nat {:trigger DidAt(steps, ops, i)} :: i < n ==> DidAt(steps, ops, i)
  }

  lemma FollowedNext(a: Snap, steps: seq<Snap>, ops: seq<KernelOp>, n: nat, z: Snap)
    requires n < |ops| && Followed(a, steps, ops, n) && |steps[n].lists| == BG.MAX_ORDER && Did(steps[n], ops[n], z)
    ensures Followed(a, steps + [z], ops, n + 1)
  {
    var steps' := steps + [z];
    forall i: nat | i < n + 1 ensures DidAt(steps', ops, i) {
      assert i < n ==> DidAt(steps, ops, i);
    }
  }

  /** The books before the first operation of a run. */
  function NoBooks(roots: seq<nat>): (b: Books) { Books(roots, [], [], []) }

  ghost function NoTrace(before: seq<AS.SpaceOp>): (t: Trace) { Trace(before, [], []) }

  /** The operation maps a user page in the kernel half. */
  predicate UserHigh(op: KernelOp)
  {
    op.OnSpaces? && !AS.UserLow(op.spaceOp)
  }

  /** The operation maps a user page without naming a held block. */
  predicate UserUnnamed(op: KernelOp)
  {
    op.OnSpaces? && op.spaceOp.OpMap? && PT.Contains(op.spaceOp.call.flags, PT.USER)
  }

  function Requests(op: KernelOp): (n: nat) { if op.OnHeap? then KH.Requests(op.heapOp) else 0 }

  /** The number of allocation requests to the heap. */
  function Allocs(ops: seq<KernelOp>): (n: nat)
  {
    if ops == [] then 0 else Allocs(ops[..|ops| - 1]) + Requests(ops[|ops| - 1])
  }

  /** What one operation adds to the log of operations on spaces. */
  ghost predicate Logs(op: KernelOp, log: seq<AS.SpaceOp>, log': seq<AS.SpaceOp>)
  {
    match op
    case OnSpaces(o) => log' == log + [o]
    case MapHeld(k, _, _, virt, flags) => log' == log || exists phys :: log' == log + [AS.OpMap(k, PM.Call(virt, phys, flags))]
    case _ => log' == log
  }

  /** The log after a run: the operations on spaces and the mappings of held blocks, in order. */
  ghost predicate LogOf(before: seq<AS.SpaceOp>, ops: seq<KernelOp>, log: seq<AS.SpaceOp>)
    decreases |ops|
  {
    if ops == [] then log == before
    else
      var init, last := ops[..|ops| - 1], ops[|ops| - 1];
      exists mid :: LogOf(before, init, mid) && Logs(last, mid, log)
  }

  /** What `done` operations have added to the log of operations on spaces and to the bytes lost. */
  ghost predicate SoFar(before: seq<AS.SpaceOp>, ops: seq<KernelOp>, done: nat, log: seq<AS.SpaceOp>, lost0: set<nat>, lost: set<nat>)
  {
    done <= |ops| && LogOf(before, ops[..done], log) && KH.LostAtMost(lost0, lost, Allocs(ops[..done]))
  }

  lemma NextOp(before: seq<AS.SpaceOp>, ops: seq<KernelOp>, done: nat, ok: bool, log: seq<AS.SpaceOp>, log': seq<AS.SpaceOp>,
               lost0: set<nat>, lost: set<nat>, lost': set<nat>)
    requires done < |ops| && SoFar(before, ops, done, log, lost0, lost) && KH.LostAtMost(lost, lost', Requests(ops[done]))
    requires if ok then Logs(ops[done], log, log') else log' == log && Requests(ops[done]) == 0
    ensures SoFar(before, ops, if ok then done + 1 else done, log', lost0, lost')
  {
    KH.LostThen(lost0, lost, lost', Allocs(ops[..done]), Requests(ops[done]));
    assert ops[..done + 1][..done] == ops[..done];
  }

  ghost predicate NoUserHigh(ops: seq<KernelOp>)
  {
    forall i :: 0 <= i < |ops| ==> !UserHigh(ops[i])
  }

  ghost predicate NoUserUnnamed(ops: seq<KernelOp>)
  {
    forall i :: 0 <= i < |ops| ==> !UserUnnamed(ops[i])
  }

  /**
    Heap requests, operations on address spaces and direct page requests in any order, on one page
    allocator: every operation does what it says (`steps`), every component stays sound, the heap's books balance and it loses at most 32 bytes
    per allocation, every address space stays as its own operations say, and no chunk, table or held
    block ever shares a page with another. If user pages are only mapped below the kernel half, user
    rights stay closed; if they are only mapped from held blocks, user pages of different spaces are
    different and none is a table or a page of the heap. The run stops at the first operation on
    address spaces that finds no table frame.
  */
  method Run(h: KH.KernelHeap, m: PM.Mapper, roots: seq<nat>, ghost before: seq<AS.SpaceOp>, ops: seq<KernelOp>)
    returns (done: nat, b: Books, ghost t: Trace, ghost steps: seq<Snap>)
    requires Sound(h, m, []) && AS.Standing(m, roots, before)
    modifies h.mem, h`ring, h`free, h`live, h`lost, h`chunks, m`tables, m`pos, h.buddy`lists, h.buddy.metadata, h.buddy.freeHeads
    ensures InOrder(h, m, b, t) && SoFar(before, ops, done, t.log, old(h.lost), h.lost)
    ensures Followed(old(SnapOf(h, NoBooks(roots), NoTrace(before))), steps, ops, done)
    ensures done == |ops| ==> steps[done] == SnapOf(h, b, t)
    ensures OwnersKeepApart(h.buddy.PageMarks(), h.chunks, m.tables.Keys, t.held)
    ensures KH.Balanced(h.chunks, h.free, h.live, h.lost)
    ensures old(PM.AllClosed(m.tables, m.pos)) && NoUserHigh(ops) ==> PM.AllClosed(m.tables, m.pos)
    ensures Unshared(before) && NoUserUnnamed(ops) ==> UserPagesApart(m.tables, b.roots, h.chunks)
    ensures done < |ops| ==> OutOfFrames(m, ops[done])
  {
    done, b, t, steps := RunAll(h, m, roots, before, ops);
    OwnersApart(h, m, t.held);
    KH.Conservation(h.chunks, h.head, h.free, h.live, h.lost);
    if UserNamed(b, t) { UserPagesStayApart(h, m, b.roots, t.log, t.held, b.owners); }
  }

  /** The loop of the run. */
  method RunAll(h: KH.KernelHeap, m: PM.Mapper, roots: seq<nat>, ghost before: seq<AS.SpaceOp>, ops: seq<KernelOp>)
    returns (done: nat, b: Books, ghost t: Trace, ghost steps: seq<Snap>)
    requires Sound(h, m, []) && AS.Standing(m, roots, before)
    modifies h.mem, h`ring, h`free, h`live, h`lost, h`chunks, m`tables, m`pos, h.buddy`lists, h.buddy.metadata, h.buddy.freeHeads
    ensures InOrder(h, m, b, t) && SoFar(before, ops, done, t.log, old(h.lost), h.lost)
    ensures Followed(old(SnapOf(h, NoBooks(roots), NoTrace(before))), steps, ops, done)
    ensures done == |ops| ==> steps[done] == SnapOf(h, b, t)
    ensures old(PM.AllClosed(m.tables, m.pos)) && NoUserHigh(ops) ==> PM.AllClosed(m.tables, m.pos)
    ensures Unshared(before) && NoUserUnnamed(ops) ==> UserNamed(b, t)
    ensures done < |ops| ==> OutOfFrames(m, ops[done])
  {
    done, b, t := 0, NoBooks(roots), NoTrace(before);
    ghost var first := SnapOf(h, b, t);
    steps := [first];
    if Unshared(before) { UnsharedIsNamed(b, t); }
    ghost var low, named := PM.AllClosed(m.tables, m.pos) && NoUserHigh(ops), Unshared(before) && NoUserUnnamed(ops);
    var ok := true;
    while done < |ops| && ok
      invariant InOrder(h, m, b, t) && SoFar(before, ops, done, t.log, old(h.lost), h.lost)
      invariant (low ==> PM.AllClosed(m.tables, m.pos)) && (named ==> UserNamed(b, t))
      invariant if ok then AS.Standing(m, b.roots, t.log) else done < |ops| && OutOfFrames(m, ops[done])
      invariant Followed(first, steps, ops, done)
      invariant ok ==> steps[done] == SnapOf(h, b, t)
      decreases |ops| - done, ok
    {
      ok, b, t, steps := RunNext(h, m, before, ops, done, b, t, steps, old(h.lost), low, named);
      if ok {
        done := done + 1;
      }
    }
  }

  method RunNext(h: KH.KernelHeap, m: PM.Mapper, ghost before: seq<AS.SpaceOp>, ops: seq<KernelOp>, done: nat, b: Books, ghost t: Trace,
                 ghost steps: seq<Snap>, ghost lost0: set<nat>, ghost low: bool, ghost named: bool)
    returns (ok: bool, b': Books, ghost t': Trace, ghost steps': seq<Snap>)
    requires done < |ops| && InOrder(h, m, b, t) && AS.Standing(m, b.roots, t.log) && SoFar(before, ops, done, t.log, lost0, h.lost)
    requires |steps| == done + 1 && Followed(steps[0], steps, ops, done) && steps[done] == SnapOf(h, b, t)
    requires (low ==> NoUserHigh(ops) && PM.AllClosed(m.tables, m.pos)) && (named ==> NoUserUnnamed(ops) && UserNamed(b, t))
    modifies h.mem, h`ring, h`free, h`live, h`lost, h`chunks, m`tables, m`pos, h.buddy`lists, h.buddy.metadata, h.buddy.freeHeads
    ensures InOrder(h, m, b', t') && SoFar(before, ops, if ok then done + 1 else done, t'.log, lost0, h.lost)
    ensures (low ==> PM.AllClosed(m.tables, m.pos)) && (named ==> UserNamed(b', t'))
    ensures if ok then AS.Standing(m, b'.roots, t'.log) else OutOfFrames(m, ops[done])
    ensures Followed(steps[0], steps', ops, if ok then done + 1 else done) && (ok ==> steps'[done + 1] == SnapOf(h, b', t'))
  {
    ghost var lost1 := h.lost;
    ok, b', t' := Step(h, m, ops[done], b, t);
    NextOp(before, ops, done, ok, t.log, t'.log, lost0, lost1, h.lost);
    steps' := steps;
    if ok {
      FollowedNext(steps[0], steps, ops, done, SnapOf(h, b', t'));
      steps' := steps + [SnapOf(h, b', t')];
    }
  }

  /** The operation needed a table frame and there is none. */
  ghost predicate OutOfFrames(m: PM.Mapper, op: KernelOp)
    requires m.Valid()
    reads m, m.buddy, m.buddy.metadata, m.buddy.freeHeads
  {
    (op.OnSpaces? || op.MapHeld?) && !PM.FrameLeft(m.buddy.lists)
  }

  /** Nothing user-accessible was mapped yet. */
  ghost predicate Unshared(log: seq<AS.SpaceOp>)
  {
    forall n :: 0 <= n < |log| && log[n].OpMap? ==> !PT.Contains(log[n].call.flags, PT.USER)
  }

  /** User pages so far are low and come from held blocks of their spaces. */
  ghost predicate UserNamed(b: Books, t: Trace)
  {
    AS.AllUserLow(t.log) && AllNamed(t.log, t.held, b.owners)
  }

  lemma UnsharedIsNamed(b: Books, t: Trace)
    requires Unshared(t.log)
    ensures UserNamed(b, t)
  {
  }

  method Step(h: KH.KernelHeap, m: PM.Mapper, op: KernelOp, b: Books, ghost t: Trace) returns (ok: bool, b': Books, ghost t': Trace)
    requires InOrder(h, m, b, t) && AS.Standing(m, b.roots, t.log)
    modifies h.mem, h`ring, h`free, h`live, h`lost, h`chunks, m`tables, m`pos, h.buddy`lists, h.buddy.metadata, h.buddy.freeHeads
    ensures InOrder(h, m, b', t') && KH.LostAtMost(old(h.lost), h.lost, Requests(op))
    ensures old(PM.AllClosed(m.tables, m.pos)) && !UserHigh(op) ==> PM.AllClosed(m.tables, m.pos)
    ensures UserNamed(b, t) && !UserUnnamed(op) ==> UserNamed(b', t')
    ensures ok ==> Logs(op, t.log, t'.log) && AS.Standing(m, b'.roots, t'.log)
    ensures ok ==> Did(old(SnapOf(h, b, t)), op, SnapOf(h, b', t'))
    ensures !ok ==> t'.log == t.log && (op.OnSpaces? || op.MapHeld?) && !PM.FrameLeft(m.buddy.lists)
  {
    match op {
      case OnHeap(o) => ok, b', t' := HeapStep(h, m, o, b, t);
      case OnSpaces(o) =>
        ok, b', t' := SpaceStep(h, m, o, b, t);
        NamedUnlessUser(op, b, t, b', t');
      case MapHeld(_, _, _, _, _) => ok, b', t' := MapHeldStep(h, m, op, b, t);
      case _ => ok, b', t' := PageStep(h, m, op, b, t);
    }
  }

  /** A direct request to the page allocator. */
  method PageStep(h: KH.KernelHeap, m: PM.Mapper, op: KernelOp, b: Books, ghost t: Trace) returns (ok: bool, b': Books, ghost t': Trace)
    requires InOrder(h, m, b, t) && AS.Standing(m, b.roots, t.log) && (op.TakePages? || op.TakePagesBelow? || op.GivePages?)
    modifies h.buddy`lists, h.buddy.metadata, h.buddy.freeHeads
    ensures ok && InOrder(h, m, b', t') && b'.roots == b.roots && t'.log == t.log
    ensures Did(old(SnapOf(h, b, t)), op, SnapOf(h, b', t'))
    ensures UserNamed(b, t) ==> UserNamed(b', t')
  {
    if op.GivePages? {
      ok, b', t' := GiveStep(h, m, op.index, b, t);
    } else {
      ok, b', t' := TakeStep(h, m, op, b, t);
    }
  }

  /** The list head lies in a reserved range of physical memory. */
  predicate HeadIn(head: nat, r: BR.Range)
  {
    head >= KERNEL_VMA && r.start <= head - KERNEL_VMA && head - KERNEL_VMA + 16 <= r.end
  }

  /** A reserved page is never free, so the list head stays out of reach. */
  lemma ReservedHead(ms: seq<BG.Mark>, head: nat, reserved: seq<BR.Range>, r: BR.Range)
    requires r in reserved && HeadIn(head, r)
    requires forall q :: 0 <= q < |ms| && ms[q].isFree ==> BR.PageClear(q, reserved)
    ensures KH.HeadReserved(head, ms, {})
  {
    forall x | head <= x < head + 16 ensures KH.OutOfReach(x, ms, {}) {
      var q := (x - KERNEL_VMA) / PAGE_SIZE;
      assert q * PAGE_SIZE <= x - KERNEL_VMA < (q + 1) * PAGE_SIZE;
      assert !BR.PageClear(q, reserved);
    }
  }

  /** The kernel's start: page allocator, heap and first address space, ready for any run. */
  method Start(total: nat, areas: seq<BR.Range>, reserved: seq<BR.Range>, head: nat, ghost r: BR.Range)
    returns (h: KH.KernelHeap, m: PM.Mapper, kernel: Option<nat>)
    requires total + 1 < BL.CODE_LIMIT && BR.NonEmpty(reserved) && AR.AreasDisjoint(areas)
    requires r in reserved && HeadIn(head, r)
    ensures Sound(h, m, []) && h.live == {} && h.chunks == {}
    ensures fresh(h) && fresh(m) && fresh(h.mem) && fresh(h.buddy) && fresh(h.buddy.metadata) && fresh(h.buddy.freeHeads)
    ensures PM.AllClosed(m.tables, m.pos)
    ensures kernel.None? ==> !PM.FrameLeft(m.buddy.lists)
    ensures kernel.Some? ==> AS.Standing(m, [kernel.value], [])
  {
    var buddy := new BA.BuddyAllocator(total, areas, reserved);
    ReservedHead(buddy.PageMarks(), head, reserved, r);
    h := new KH.KernelHeap(buddy, head);
    m := new PM.Mapper(buddy);
    kernel := StartMapper(h, m);
  }

  method StartMapper(h: KH.KernelHeap, m: PM.Mapper) returns (kernel: Option<nat>)
    requires h.Valid() && m.Valid() && h.buddy == m.buddy && m.tables == map[]
    modifies m`tables, m`pos, m.buddy`lists, m.buddy.metadata, m.buddy.freeHeads
    ensures Sound(h, m, []) && PM.AllClosed(m.tables, m.pos)
    ensures kernel.None? ==> !PM.FrameLeft(m.buddy.lists)
    ensures kernel.Some? ==> AS.Standing(m, [kernel.value], [])
  {
    ghost var ms, frames := m.buddy.PageMarks(), m.tables.Keys;
    kernel := AS.Boot(m);
    TookKeepsLive(ms, m.buddy.PageMarks(), m.tables.Keys - frames);
    HeapUndisturbed(ms, m.buddy.PageMarks(), h.head, h.chunks);
  }

  /** The kernel from boot through any run. */
  method RunFromBoot(total: nat, areas: seq<BR.Range>, reserved: seq<BR.Range>, head: nat, ghost r: BR.Range, ops: seq<KernelOp>)
    returns (h: KH.KernelHeap, m: PM.Mapper, done: nat, b: Books, ghost t: Trace)
    requires total + 1 < BL.CODE_LIMIT && BR.NonEmpty(reserved) && AR.AreasDisjoint(areas)
    requires r in reserved && HeadIn(head, r)
    ensures h.Valid() && m.Valid() && h.buddy == m.buddy
    ensures b.roots == [] ==> !PM.FrameLeft(m.buddy.lists)
    ensures b.roots != [] ==>
              && InOrder(h, m, b, t) && done <= |ops| && LogOf([], ops[..done], t.log)
              && OwnersKeepApart(h.buddy.PageMarks(), h.chunks, m.tables.Keys, t.held)
              && KH.Balanced(h.chunks, h.free, h.live, h.lost)
              && (NoUserHigh(ops) ==> PM.AllClosed(m.tables, m.pos))
              && (NoUserUnnamed(ops) ==> UserPagesApart(m.tables, b.roots, h.chunks))
  {
    var kernel;
    h, m, kernel := Start(total, areas, reserved, head, r);
    if kernel.None? {
      return h, m, 0, Books([], [], [], []), Trace([], [], []);
    }
    ghost var steps;
    done, b, t, steps := Run(h, m, [kernel.value], [], ops);
  }

  lemma OwnersApart(h: KH.KernelHeap, m: PM.Mapper, held: seq<Block>)
    requires Sound(h, m, held)
    ensures OwnersKeepApart(h.buddy.PageMarks(), h.chunks, m.tables.Keys, held)
  {
    var ms, chunks, frames := h.buddy.PageMarks(), h.chunks, m.tables.Keys;
    forall a | IsOwned(chunks, frames, held, a) ensures BG.IsBlock(ms, a.pfn, a.order, false) {
      OwnedIsLive(ms, h.head, chunks, frames, held, a);
    }
    forall a, x: nat, j: nat, f | IsOwned(chunks, frames, held, a) && BG.IsBlock(ms, x, j, f)
      ensures a == Block(x, j) || a.pfn + Pow2(a.order) <= x || x + Pow2(j) <= a.pfn
    {
      OwnersDisjoint(ms, h.head, chunks, frames, held, a, x, j, f);
    }
    forall c, t, i | c in chunks && t in frames && 0 <= i < |held|
      ensures c * KH.CHUNK_PAGES != t && c * KH.CHUNK_PAGES != held[i].pfn && t != held[i].pfn
    {
      KindsDiffer(ms, h.head, chunks, frames, held, c, t, i);
    }
  }

  method HeapStep(h: KH.KernelHeap, m: PM.Mapper, op: KH.HeapOp, b: Books, ghost t: Trace) returns (ok: bool, b': Books, ghost t': Trace)
    requires InOrder(h, m, b, t) && AS.Standing(m, b.roots, t.log)
    modifies h.mem, h`ring, h`free, h`live, h`lost, h`chunks, h.buddy`lists, h.buddy.metadata, h.buddy.freeHeads
    ensures ok && InOrder(h, m, b', t') && KH.LostAtMost(old(h.lost), h.lost, KH.Requests(op))
    ensures b' == b.(heap := b'.heap) && t' == t.(live := t'.live)
    ensures DidHeap(old(SnapOf(h, b, t)), op, SnapOf(h, b', t'))
  {
    ghost var ms, chunks := h.buddy.PageMarks(), h.chunks;
    var heap, ls := KH.RunOne(h, op, b.heap, t.live);
    HeldAfterGrowth(ms, h.buddy.PageMarks(), h.head, chunks, h.chunks, m.tables.Keys, t.held);
    TablesUndisturbed(ms, h.buddy.PageMarks(), m.tables.Keys);
    return true, b.(heap := heap), t.(live := ls);
  }

  method SpaceStep(h: KH.KernelHeap, m: PM.Mapper, op: AS.SpaceOp, b: Books, ghost t: Trace) returns (ok: bool, b': Books, ghost t': Trace)
    requires InOrder(h, m, b, t) && AS.Standing(m, b.roots, t.log)
    modifies m`tables, m`pos, h.buddy`lists, h.buddy.metadata, h.buddy.freeHeads
    ensures InOrder(h, m, b', t') && (!ok ==> !PM.FrameLeft(m.buddy.lists))
    ensures b' == b.(roots := b'.roots) && t' == t.(log := if ok then t.log + [op] else t.log)
    ensures KH.SameLedger(old(KH.LedgerOf(h, b.heap, t.live)), KH.LedgerOf(h, b'.heap, t'.live))
    ensures ok ==> AS.Standing(m, b'.roots, t'.log)
    ensures AS.UserLow(op) && old(PM.AllClosed(m.tables, m.pos)) ==> PM.AllClosed(m.tables, m.pos)
  {
    ghost var ms, frames := h.buddy.PageMarks(), m.tables.Keys;
    var roots;
    ok, roots := AS.RunOne(m, op, b.roots, t.log);
    HeldAfterTables(ms, h.buddy.PageMarks(), h.head, h.chunks, frames, m.tables.Keys, 3, t.held);
    HeapUndisturbed(ms, h.buddy.PageMarks(), h.head, h.chunks);
    b', t' := b.(roots := roots), t;
    if ok {
      t' := t.(log := t.log + [op]);
    }
  }

  /** An operation on spaces that maps no user page adds nothing that needs a name. */
  lemma NamedUnlessUser(op: KernelOp, b: Books, t: Trace, b': Books, t': Trace)
    requires op.OnSpaces? && b'.owners == b.owners && t'.held == t.held && (t'.log == t.log || t'.log == t.log + [op.spaceOp])
    ensures UserNamed(b, t) && !UserUnnamed(op) ==> UserNamed(b', t')
  {
    if UserNamed(b, t) && !UserUnnamed(op) {
      forall n | 0 <= n < |t'.log| ensures AS.UserLow(t'.log[n]) && IsNamed(t'.held, b'.owners, t'.log[n]) {
        if n < |t.log| { assert AS.UserLow(t.log[n]) && IsNamed(t.held, b.owners, t.log[n]); }
      }
    }
  }

  /** Map page `nth` of a held block into a space, unless the block belongs to another or a user page would be high. */
  method MapHeldStep(h: KH.KernelHeap, m: PM.Mapper, op: KernelOp, b: Books, ghost t: Trace) returns (ok: bool, b': Books, ghost t': Trace)
    requires op.MapHeld? && InOrder(h, m, b, t) && AS.Standing(m, b.roots, t.log)
    modifies m`tables, m`pos, h.buddy`lists, h.buddy.metadata, h.buddy.freeHeads
    ensures InOrder(h, m, b', t') && (!ok ==> t'.log == t.log && !PM.FrameLeft(m.buddy.lists))
    ensures ok ==> Logs(op, t.log, t'.log) && AS.Standing(m, b'.roots, t'.log)
    ensures ok ==> DidMapHeld(old(SnapOf(h, b, t)), op, SnapOf(h, b', t'))
    ensures UserNamed(b, t) ==> UserNamed(b', t')
    ensures old(PM.AllClosed(m.tables, m.pos)) ==> PM.AllClosed(m.tables, m.pos)
  {
    var allowed, o := HeldPage(h, m, op, b, t);
    if !allowed {
      return true, b, t;
    }
    ok, b', t' := SpaceStep(h, m, o, b, t);
    if ok {
      b' := b'.(owners := b'.owners[op.block := Some(op.space)]);
      NamedMapping(b, t, op.block, op.space, o, b', t');
    }
  }

  /** Whether a page of a held block may be mapped, and the mapping. */
  method HeldPage(h: KH.KernelHeap, m: PM.Mapper, op: KernelOp, b: Books, ghost t: Trace) returns (allowed: bool, o: AS.SpaceOp)
    requires op.MapHeld? && InOrder(h, m, b, t)
    ensures allowed <==> MayMap(op, t.held, b.owners)
    ensures allowed ==>
              && o == HeldMapping(op, t.held)
              && t.held[op.block].pfn <= AS.LeafOf(o.call).frame < t.held[op.block].pfn + Pow2(t.held[op.block].order)
  {
    var i := op.block;
    o := AS.OpCreate;
    if i >= |b.pages| || (b.owners[i].Some? && b.owners[i].value != op.space) {
      return false, o;
    }
    var pfn := b.pages[i] / PAGE_SIZE;
    assert HeldApart(h.buddy.PageMarks(), h.head, h.chunks, m.tables.Keys, t.held[i]) && pfn == t.held[i].pfn;
    var call := PM.Call(op.virt, b.pages[i] + op.nth * PAGE_SIZE, op.flags);
    o := AS.OpMap(op.space, call);
    if op.nth >= Pow2(h.buddy.metadata[pfn].order) || !AS.UserLow(o) {
      return false, o;
    }
    FrameOfHeld(h, m, t.held, i, op.nth, call);
    return true, o;
  }

  /** The frame of page `nth` of a held block. */
  lemma FrameOfHeld(h: KH.KernelHeap, m: PM.Mapper, held: seq<Block>, i: nat, nth: nat, call: PM.Call)
    requires Sound(h, m, held) && i < |held| && nth < Pow2(held[i].order) && call.phys == held[i].pfn * PAGE_SIZE + nth * PAGE_SIZE
    ensures AS.LeafOf(call).frame == held[i].pfn + nth
  {
    assert HeldApart(h.buddy.PageMarks(), h.head, h.chunks, m.tables.Keys, held[i]);
    BG.BlockPages(h.buddy.PageMarks(), held[i].pfn, held[i].order, false);
    assert call.phys / PAGE_SIZE == held[i].pfn + nth;
  }

  lemma NamedMapping(b: Books, t: Trace, i: nat, k: nat, o: AS.SpaceOp, b': Books, t': Trace)
    requires i < |b.owners| == |t.held| && (b.owners[i].None? || b.owners[i] == Some(k)) && o.OpMap? && o.index == k && AS.UserLow(o)
    requires t.held[i].pfn <= AS.LeafOf(o.call).frame < t.held[i].pfn + Pow2(t.held[i].order)
    requires b'.owners == b.owners[i := Some(k)] && t'.held == t.held && t'.log == t.log + [o]
    ensures UserNamed(b, t) ==> UserNamed(b', t')
  {
    if UserNamed(b, t) {
      assert NamedBy(t.held, b'.owners, k, AS.LeafOf(o.call).frame, i);
      NamedAfterMap(t.log, t.held, b.owners, i, k, o);
      forall n | 0 <= n < |t'.log| ensures AS.UserLow(t'.log[n]) {
        if n < |t.log| { assert AS.UserLow(t.log[n]); }
      }
    }
  }

  method TakeStep(h: KH.KernelHeap, m: PM.Mapper, op: KernelOp, b: Books, ghost t: Trace) returns (ok: bool, b': Books, ghost t': Trace)
    requires InOrder(h, m, b, t) && AS.Standing(m, b.roots, t.log) && (op.TakePages? || op.TakePagesBelow?)
    modifies h.buddy`lists, h.buddy.metadata, h.buddy.freeHeads
    ensures ok && InOrder(h, m, b', t') && b'.roots == b.roots && t'.log == t.log
    ensures DidTake(old(SnapOf(h, b, t)), if op.TakePages? then op.order else op.below, if op.TakePages? then None else Some(op.limit),
                    SnapOf(h, b', t'))
    ensures UserNamed(b, t) ==> UserNamed(b', t')
  {
    var order := if op.TakePages? then op.order else op.below;
    ghost var p;
    var r;
    r, p := TakeBlock(h, m, order, if op.TakePages? then None else Some(op.limit), t.held);
    if r.None? {
      return true, b, t;
    }
    if UserNamed(b, t) { NamedAfterTake(t.log, t.held, b.owners, Block(p, order)); }
    return true, b.(pages := b.pages + [r.value], owners := b.owners + [None]), t.(held := t.held + [Block(p, order)]);
  }

  /** A direct request to the page allocator, with or without a limit. */
  method TakeBlock(h: KH.KernelHeap, m: PM.Mapper, order: nat, limit: Option<nat>, ghost held: seq<Block>) returns (r: Option<nat>, ghost p: nat)
    requires Sound(h, m, held)
    modifies h.buddy`lists, h.buddy.metadata, h.buddy.freeHeads
    ensures Sound(h, m, if r.Some? then held + [Block(p, order)] else held)
    ensures r.Some? ==> r.value == p * PAGE_SIZE
    ensures |old(h.buddy.lists)| == BG.MAX_ORDER
    ensures match RF.Choice(old(h.buddy.lists), order, order, limit)
            case None => r.None?
            case Some(c) => r.Some? && p == c.pfn
  {
    ghost var ms, l0 := h.buddy.PageMarks(), h.buddy.lists;
    ghost var o;
    if limit.None? {
      r, o := h.buddy.Allocate(order);
    } else {
      r, o := h.buddy.AllocateBelow(order, limit.value);
    }
    if r.Some? { RF.ChoiceIs(l0, order, order, limit, r.value / PAGE_SIZE, o); } else { RF.NoChoice(l0, order, order, limit); }
    p := 0;
    if r.None? {
      assert h.buddy.PageMarks() == ms;
      return;
    }
    p := r.value / PAGE_SIZE;
    HeldAfterTake(ms, h.buddy.PageMarks(), h.head, h.chunks, m.tables.Keys, held, p, order);
    HeapUndisturbed(ms, h.buddy.PageMarks(), h.head, h.chunks);
    TablesUndisturbed(ms, h.buddy.PageMarks(), m.tables.Keys);
  }

  /** Release a held block that belongs to no space. */
  method GiveStep(h: KH.KernelHeap, m: PM.Mapper, index: nat, b: Books, ghost t: Trace) returns (ok: bool, b': Books, ghost t': Trace)
    requires InOrder(h, m, b, t) && AS.Standing(m, b.roots, t.log)
    modifies h.buddy`lists, h.buddy.metadata, h.buddy.freeHeads
    ensures ok && InOrder(h, m, b', t') && b'.roots == b.roots && t'.log == t.log
    ensures DidGive(old(SnapOf(h, b, t)), index, SnapOf(h, b', t'))
    ensures UserNamed(b, t) ==> UserNamed(b', t')
  {
    if index >= |b.pages| || b.owners[index].Some? {
      return true, b, t;
    }
    GiveBlock(h, m, index, b.pages[index], t.held);
    if UserNamed(b, t) { NamedAfterGive(t.log, t.held, b.owners, index); }
    b' := b.(pages := b.pages[..index] + b.pages[index + 1..], owners := b.owners[..index] + b.owners[index + 1..]);
    return true, b', t.(held := t.held[..index] + t.held[index + 1..]);
  }

  method GiveBlock(h: KH.KernelHeap, m: PM.Mapper, index: nat, addr: nat, ghost held: seq<Block>)
    requires Sound(h, m, held) && index < |held| && addr == held[index].pfn * PAGE_SIZE
    modifies h.buddy`lists, h.buddy.metadata, h.buddy.freeHeads
    ensures Sound(h, m, held[..index] + held[index + 1..])
    ensures |old(h.buddy.lists)| == BG.MAX_ORDER && held[index].order < BG.MAX_ORDER
    ensures h.buddy.lists == FreeLists(old(h.buddy.lists), held[index].pfn, held[index].order)
  {
    ghost var ms := h.buddy.PageMarks();
    assert HeldApart(ms, h.head, h.chunks, m.tables.Keys, held[index]) && addr / PAGE_SIZE == held[index].pfn;
    var ok := h.buddy.Deallocate(addr);
    AfterGive(ms, h.buddy.PageMarks(), h.head, h.chunks, m.tables.Keys, held, index);
  }
}
