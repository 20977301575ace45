/** The kernel heap's free memory as a set of spans, and the laws of coalescing. */
module HeapSpec {
  import opened PowersOfTwo
  import opened AllocLayout

  /** Bytes `addr..addr+size`. */
  datatype Span = Span(addr: nat, size: nat)

  function End(s: Span): (e: nat) { s.addr + s.size }

  predicate Disjoint(a: Span, b: Span)
  {
    End(a) <= b.addr || End(b) <= a.addr
  }

  /** Disjoint with a gap between them. */
  predicate Apart(a: Span, b: Span)
  {
    End(a) < b.addr || End(b) < a.addr
  }

  /** No two spans overlap. */
  ghost predicate PairwiseDisjoint(f: set<Span>)
  {
    forall s, t :: s in f && t in f && s != t ==> Disjoint(s, t)
  }

  /** No two spans overlap or touch: free memory is maximally coalesced. */
  ghost predicate Separated(f: set<Span>)
  {
    && (forall s :: s in f ==> s.size > 0)
    && (forall s, t :: s in f && t in f && s != t ==> Apart(s, t))
  }

  ghost predicate DisjointFrom(b: Span, f: set<Span>)
  {
    forall s :: s in f ==> Disjoint(b, s)
  }

  predicate Holds(s: Span, x: nat)
  {
    s.addr <= x < End(s)
  }

  ghost predicate Covers(f: set<Span>, x: nat)
  {
    exists s :: s in f && Holds(s, x)
  }

  /** `g` is the coalesced form of `f` together with the block `b`. */
  ghost predicate CoalescedWith(f: set<Span>, b: Span, g: set<Span>)
  {
    Separated(g) && forall x: nat :: Covers(g, x) <==> Covers(f, x) || Holds(b, x)
  }

  // ---- coalescing is canonical -----------------------------------------------

  /** There is only one separated set of spans covering given bytes. */
  lemma SeparatedIsCanonical(f: set<Span>, g: set<Span>)
    requires Separated(f) && Separated(g)
    requires forall x: nat :: Covers(f, x) <==> Covers(g, x)
    ensures f == g
  {
    forall s | s in f ensures s in g { SpanInBoth(f, g, s); }
    forall s | s in g ensures s in f { SpanInBoth(g, f, s); }
  }

  lemma SpanInBoth(f: set<Span>, g: set<Span>, s: Span)
    requires Separated(f) && Separated(g) && s in f
    requires forall x: nat :: Covers(f, x) <==> Covers(g, x)
    ensures s in g
  {
    assert Holds(s, s.addr) && Covers(f, s.addr);
    var t :| t in g && Holds(t, s.addr);
    CoveredNearby(g, t, s.addr);
    BesideNotCovered(f, s);
    BesideNotCovered(g, t);
    var last := (if End(t) < End(s) then End(t) else End(s)) - 1;
    CoveredNearby(f, s, last);
    CoveredNearby(g, t, last);
  }

  /** A separated set leaves a gap on both sides of each span. */
  lemma BesideNotCovered(f: set<Span>, s: Span)
    requires Separated(f) && s in f
    ensures s.addr > 0 ==> !Covers(f, s.addr - 1)
    ensures !Covers(f, End(s))
  {
    forall u | u in f ensures s.addr == 0 || !Holds(u, s.addr - 1)
                      ensures !Holds(u, End(s))
    {
      assert u == s || Apart(u, s);
    }
  }

  lemma CoveredNearby(f: set<Span>, t: Span, x: nat)
    requires t in f && Holds(t, x)
    ensures t.addr < x ==> Covers(f, x - 1)
    ensures x + 1 < End(t) ==> Covers(f, x + 1)
  {
    assert t.addr < x ==> Holds(t, x - 1);
    assert x + 1 < End(t) ==> Holds(t, x + 1);
  }

  // ---- the two steps of coalescing -------------------------------------------

  /** Two touching spans become one. */
  function Joined(s: Span, t: Span): (u: Span) { Span(s.addr, s.size + t.size) }

  /**
    `g` is `f` plus the block `b`, where `b` has been joined with what touched it
    from below; the span now holding `b` is `m`.
  */
  ghost predicate LeftJoined(f: set<Span>, b: Span, m: Span, g: set<Span>)
  {
    && m in g && m.size > 0 && End(m) == End(b)
    && (forall s :: s in g && s != m ==> s in f && (End(s) < m.addr || End(m) <= s.addr))
    && (forall x: nat :: Covers(g, x) <==> Covers(f, x) || Holds(b, x))
  }

  lemma NothingBelow(f: set<Span>, b: Span)
    requires b.size > 0 && DisjointFrom(b, f) && Separated(f)
    requires forall s :: s in f && s.addr < b.addr ==> End(s) < b.addr
    ensures LeftJoined(f, b, b, f + {b})
  {
    forall x: nat ensures Covers(f + {b}, x) <==> Covers(f, x) || Holds(b, x) { CoversPlus(f, b, x); }
    forall s | s in f + {b} && s != b ensures End(s) < b.addr || End(b) <= s.addr {
      assert Disjoint(b, s) && s.size > 0;
    }
  }

  lemma JoinedBelow(f: set<Span>, b: Span, p: Span)
    requires b.size > 0 && DisjointFrom(b, f) && Separated(f) && p in f && End(p) == b.addr
    ensures LeftJoined(f, b, Joined(p, b), f + {b} - {p} - {b} + {Joined(p, b)})
  {
    var m := Joined(p, b);
    var g := f + {b} - {p} - {b} + {m};
    assert !Disjoint(b, b);
    assert p.size > 0 && b !in f;
    forall x: nat ensures Covers(g, x) <==> Covers(f, x) || Holds(b, x) {
      JoinCovers(f + {b}, p, b, x);
      CoversPlus(f, b, x);
    }
    forall s | s in g && s != m ensures s in f && (End(s) < m.addr || End(m) <= s.addr) {
      assert Disjoint(b, s) && Apart(s, p) && s.size > 0;
    }
  }

  /** Joining two touching spans covers the same bytes. */
  lemma JoinCovers(f: set<Span>, s: Span, t: Span, x: nat)
    requires s in f && t in f && End(s) == t.addr
    ensures Covers(f - {s} - {t} + {Joined(s, t)}, x) <==> Covers(f, x)
  {
    var u := Joined(s, t);
    var g := f - {s} - {t} + {u};
    assert Holds(u, x) <==> Holds(s, x) || Holds(t, x);
    if Covers(f, x) {
      var v :| v in f && Holds(v, x);
      assert u in g && (v in g || Holds(u, x));
    }
    if Covers(g, x) {
      var v :| v in g && Holds(v, x);
      assert v in f || v == u;
    }
  }

  lemma NothingAbove(f: set<Span>, b: Span, m: Span, g: set<Span>)
    requires Separated(f) && LeftJoined(f, b, m, g)
    requires forall s :: s in g && s != m ==> s.addr != End(m)
    ensures CoalescedWith(f, b, g)
  {
  }

  lemma JoinedAbove(f: set<Span>, b: Span, m: Span, g: set<Span>, n: Span)
    requires Separated(f) && LeftJoined(f, b, m, g) && n in g && n != m && n.addr == End(m)
    ensures CoalescedWith(f, b, g - {m} - {n} + {Joined(m, n)})
  {
    var u := Joined(m, n);
    var h := g - {m} - {n} + {u};
    forall x: nat ensures Covers(h, x) <==> Covers(f, x) || Holds(b, x) { JoinCovers(g, m, n, x); }
    forall s | s in h && s != u ensures s in f && Apart(s, u) {
      assert s in g && s != m && n in f && Apart(s, n) && s.size > 0;
    }
    assert n.size > 0;
  }

  // ---- allocation ------------------------------------------------------------

  const HEAP := Geometry(24, 3, 8)
  const HEADER_SIZE := 24
  const BACK_PTR_SIZE := 8
  /** Header, back pointer and one user byte. */
  const MIN_FREE_BLOCK_SIZE := 33

  predicate Fits(s: Span, l: Layout)
  {
    AllocationForBlock(s.addr, s.size, l, HEAP).Some?
  }

  /** `size` bytes at `u`, aligned to `2^shift`, leave room for header and back pointer and end inside `s`. */
  predicate FitsAt(s: Span, size: nat, shift: nat, u: nat)
  {
    && s.addr + 32 + Pow2(shift) - 1 <= USIZE_MAX && u + size + 7 <= USIZE_MAX
    && Aligned(u, shift) && s.addr + 32 <= u < s.addr + 32 + Pow2(shift)
    && u + (size + 7) / 8 * 8 <= End(s)
  }

  /** What fits, in terms of addresses. */
  lemma FitsIff(s: Span, l: Layout)
    requires l.shift >= 3
    ensures Fits(s, l) <==> exists u: nat :: FitsAt(s, l.size, l.shift, u)
  {
    if Fits(s, l) {
      PlacementFacts(s.addr, s.size, l, HEAP);
      var p := AllocationForBlock(s.addr, s.size, l, HEAP).value;
      AcceptedIffRoom(s.addr, s.size, l, HEAP, p.userPtr, s.addr + p.usedSize);
      WordEnd(p.userPtr, l.shift, l.size, s.addr + p.usedSize);
      assert FitsAt(s, l.size, l.shift, p.userPtr);
    }
    if u: nat :| FitsAt(s, l.size, l.shift, u) {
      var e := u + (l.size + 7) / 8 * 8;
      WordEnd(u, l.shift, l.size, e);
      AcceptedIffRoom(s.addr, s.size, l, HEAP, u, e);
    }
  }

  /** Behind a word-aligned address the next word boundary is that of the size alone. */
  lemma WordEnd(u: nat, shift: nat, size: nat, e: nat)
    requires shift >= 3 && Aligned(u, shift)
    ensures Pow2(3) == 8
    ensures Aligned(e, 3) && u + size <= e < u + size + 8 <==> e == u + (size + 7) / 8 * 8
  {
    AlignedWeaken(u, shift, 3);
    EightAligned(u);
    EightAligned(e);
    NextWord(u / 8, size, e);
  }

  lemma EightAligned(x: nat)
    ensures Pow2(3) == 8 && (Aligned(x, 3) <==> x == 8 * (x / 8))
  {
    assert Pow2(3) == 8;
    AlignedIsModulo(x, 3);
  }

  lemma NextWord(n: nat, size: nat, e: nat)
    ensures e == 8 * (e / 8) && 8 * n + size <= e < 8 * n + size + 8 <==> e == 8 * n + (size + 7) / 8 * 8
  {
  }

  function Front(s: Span, used: nat): (r: Span) { Span(s.addr, used) }

  function Rest(s: Span, used: nat): (r: Span)
    requires used <= s.size
  {
    Span(s.addr + used, s.size - used)
  }

  /** The free memory after carving `used` bytes off the front of span `s`. */
  ghost function TakeFront(f: set<Span>, s: Span, used: nat): (g: set<Span>)
    requires used <= s.size
  {
    if s.size - used >= MIN_FREE_BLOCK_SIZE then f - {s} + {Rest(s, used)} else f - {s}
  }

  /** Bytes that leave the accounting: a remainder too small to be a free block. */
  function Slack(size: nat, used: nat): (n: nat)
    requires used <= size
  {
    if size - used >= MIN_FREE_BLOCK_SIZE then 0 else size - used
  }

  lemma TakeFrontSeparated(f: set<Span>, s: Span, used: nat)
    requires Separated(f) && s in f && 0 < used <= s.size
    ensures Separated(TakeFront(f, s, used))
    ensures DisjointFrom(Front(s, used), TakeFront(f, s, used))
  {
  }

  /** Re-inserting the remainder of the block just unlinked merges with nothing. */
  lemma RemainderStaysPut(f: set<Span>, s: Span, used: nat, g: set<Span>)
    requires Separated(f) && s in f && 0 < used < s.size
    requires CoalescedWith(f - {s}, Rest(s, used), g)
    ensures g == f - {s} + {Rest(s, used)}
  {
    var want := f - {s} + {Rest(s, used)};
    assert Separated(want);
    forall x: nat ensures Covers(want, x) <==> Covers(g, x) {
      CoversPlus(f - {s}, Rest(s, used), x);
    }
    SeparatedIsCanonical(g, want);
  }

  lemma CoversPlus(f: set<Span>, s: Span, x: nat)
    ensures Covers(f + {s}, x) <==> Covers(f, x) || Holds(s, x)
  {
    if Covers(f, x) {
      var t :| t in f && Holds(t, x);
      assert t in f + {s};
    }
    if Holds(s, x) { assert s in f + {s}; }
  }

  /**
    Allocating and freeing again restores the free memory exactly when the
    allocation lost no slack; otherwise the block comes back short by the slack.
  */
  lemma AllocThenFreeIff(f: set<Span>, s: Span, used: nat, g: set<Span>)
    requires Separated(f) && s in f && 0 < used <= s.size
    requires CoalescedWith(TakeFront(f, s, used), Front(s, used), g)
    ensures g == f - {s} + {Span(s.addr, s.size - Slack(s.size, used))}
    ensures g == f <==> Slack(s.size, used) == 0
  {
    var back := Span(s.addr, s.size - Slack(s.size, used));
    var want := f - {s} + {back};
    assert Separated(want);
    forall x: nat ensures Covers(want, x) <==> Covers(g, x) {
      CoversPlus(f - {s}, back, x);
      CoversPlus(f - {s}, Rest(s, used), x);
    }
    SeparatedIsCanonical(g, want);
    if back == s { assert want == f; } else { assert back !in f; }
  }

  // ---- byte accounting ---------------------------------------------------------

  ghost function BytesOf(s: Span): (r: set<nat>)
    ensures forall x: nat :: x in r <==> Holds(s, x)
  {
    set x: nat | s.addr <= x < End(s) && Holds(s, x)
  }

  lemma {:induction false} BytesOfCount(s: Span)
    ensures |BytesOf(s)| == s.size
    decreases s.size
  {
    if s.size == 0 {
      assert BytesOf(s) == {};
    } else {
      var t := Span(s.addr, s.size - 1);
      BytesOfCount(t);
      assert BytesOf(s) == BytesOf(t) + {End(t)};
    }
  }

  ghost function FreeBytes(f: set<Span>): (r: set<nat>)
    ensures forall x: nat :: x in r <==> Covers(f, x)
  {
    var r := set s, x | s in f && x in BytesOf(s) :: x;
    assert forall x: nat, s :: s in f && Holds(s, x) ==> x in BytesOf(s);
    r
  }
}
