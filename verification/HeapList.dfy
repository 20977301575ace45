/**
  The heap's free list in memory: block headers (size word, then a list node)
  on an address-ordered ring, and the in-place insertion that coalesces.
*/
module HeapList {
  import opened AllocLayout
  import List = IntrusiveList
  import opened HeapSpec

  /** The list node inside the header of a free block. */
  function Node(s: Span): (n: nat) { s.addr + 8 }

  /** A span that can hold a header and stays clear of the ring head. */
  predicate SpanOk(head: nat, s: Span)
  {
    && s.addr > 0 && s.size >= HEADER_SIZE && End(s) <= USIZE_MAX
    && (head + 16 <= s.addr || End(s) <= head)
  }

  ghost predicate SpansOk(head: nat, f: set<Span>)
  {
    PairwiseDisjoint(f) && forall s :: s in f ==> SpanOk(head, s)
  }

  /** `n` is the list node of a span in `f`. */
  ghost predicate IsNode(f: set<Span>, n: nat)
  {
    exists s :: s in f && Node(s) == n
  }

  ghost predicate OnRing(r: seq<nat>, s: Span)
  {
    exists i :: 1 <= i < |r| && r[i] == Node(s)
  }

  ghost predicate Ascending(r: seq<nat>)
  {
    forall i, j :: 1 <= i < j < |r| ==> r[i] < r[j]
  }

  /** After its head, the ring visits exactly the headers of `f`, lowest address first. */
  ghost predicate Shape(r: seq<nat>, f: set<Span>)
  {
    && |r| > 0 && Ascending(r) && SpansOk(r[0], f)
    && (forall i {:trigger IsNode(f, r[i])} :: 1 <= i < |r| ==> IsNode(f, r[i]))
    && (forall s {:trigger OnRing(r, s)} :: s in f ==> OnRing(r, s))
  }

  /** Every header records the size of its span. */
  ghost predicate SizesOk(w: List.Words, f: set<Span>)
  {
    forall s :: s in f ==> List.Get(w, s.addr) == s.size
  }

  ghost predicate FreeListOk(w: List.Words, r: seq<nat>, f: set<Span>)
  {
    List.Ring(w, r) && Shape(r, f) && SizesOk(w, f)
  }

  ghost predicate OutsideHeaders(head: nat, f: set<Span>, a: nat)
  {
    !(head <= a < head + 16) && forall s :: s in f ==> !(s.addr <= a < s.addr + HEADER_SIZE)
  }

  /** Memory changed only in the ring head and in the headers of spans in `f`. */
  ghost predicate OnlyHeaders(w: List.Words, w': List.Words, head: nat, f: set<Span>)
  {
    forall a: nat {:trigger OutsideHeaders(head, f, a)} :: OutsideHeaders(head, f, a) ==> List.Get(w', a) == List.Get(w, a)
  }

  lemma SpanAtNode(r: seq<nat>, f: set<Span>, i: nat) returns (s: Span)
    requires Shape(r, f) && 1 <= i < |r|
    ensures s in f && r[i] == Node(s) && SpanOk(r[0], s)
  {
    assert IsNode(f, r[i]);
    s :| s in f && Node(s) == r[i];
  }

  lemma NodeOfSpan(r: seq<nat>, f: set<Span>, s: Span) returns (i: nat)
    requires Shape(r, f) && s in f
    ensures 1 <= i < |r| && r[i] == Node(s)
  {
    assert OnRing(r, s);
    i :| 1 <= i < |r| && r[i] == Node(s);
  }

  /** Two spans of a disjoint set are the same as soon as they start at the same address. */
  lemma SameAddrSameSpan(head: nat, f: set<Span>, s: Span, t: Span)
    requires SpansOk(head, f) && s in f && t in f && s.addr == t.addr
    ensures s == t
  {
    assert SpanOk(head, s) && SpanOk(head, t);
  }

  // ---- shapes ------------------------------------------------------------------

  lemma ShapeInsert(r: seq<nat>, f: set<Span>, i: nat, b: Span)
    requires Shape(r, f) && i < |r| && SpanOk(r[0], b) && DisjointFrom(b, f)
    requires i > 0 ==> r[i] < Node(b)
    requires i + 1 < |r| ==> Node(b) < r[i + 1]
    ensures Shape(List.InsertAfter(r, i, Node(b)), f + {b})
  {
    var r' := List.InsertAfter(r, i, Node(b));
    AscendingInsert(r, i, Node(b));
    forall j | 1 <= j < |r'| ensures IsNode(f + {b}, r'[j]) { InsertedNode(r, f, i, b, j); }
    forall s | s in f + {b} ensures OnRing(r', s) { InsertedSpan(r, f, i, b, s); }
  }

  lemma InsertedNode(r: seq<nat>, f: set<Span>, i: nat, b: Span, j: nat)
    requires Shape(r, f) && i < |r| && 1 <= j <= |r|
    ensures IsNode(f + {b}, List.InsertAfter(r, i, Node(b))[j])
  {
    var r' := List.InsertAfter(r, i, Node(b));
    if j == i + 1 {
      assert b in f + {b};
    } else {
      var k := if j <= i then j else j - 1;
      var s := SpanAtNode(r, f, k);
      assert r'[j] == r[k] && s in f + {b};
    }
  }

  lemma InsertedSpan(r: seq<nat>, f: set<Span>, i: nat, b: Span, s: Span)
    requires Shape(r, f) && i < |r| && s in f + {b}
    ensures OnRing(List.InsertAfter(r, i, Node(b)), s)
  {
    var r' := List.InsertAfter(r, i, Node(b));
    if s == b {
      assert r'[i + 1] == Node(b);
    } else {
      var k := NodeOfSpan(r, f, s);
      assert r'[if k <= i then k else k + 1] == r[k];
    }
  }

  lemma AscendingInsert(r: seq<nat>, i: nat, x: nat)
    requires Ascending(r) && i < |r|
    requires i > 0 ==> r[i] < x
    requires i + 1 < |r| ==> x < r[i + 1]
    ensures Ascending(List.InsertAfter(r, i, x))
  {
    var r' := List.InsertAfter(r, i, x);
    forall j, k | 1 <= j < k < |r'| ensures r'[j] < r'[k] {
      if k == i + 1 {
        assert j < i ==> r[j] < r[i];
      } else if j == i + 1 {
        assert k - 1 > i + 1 ==> r[i + 1] < r[k - 1];
      }
    }
  }

  lemma {:induction false} ShapeRemove(r: seq<nat>, f: set<Span>, i: nat, s: Span)
    requires Shape(r, f) && 1 <= i < |r| && s in f && r[i] == Node(s)
    ensures Shape(List.DropAt(r, i), f - {s})
  {
    var r' := List.DropAt(r, i);
    forall j | 1 <= j < |r'| ensures IsNode(f - {s}, r'[j]) {
      var k := if j < i then j else j + 1;
      assert r'[j] == r[k];
      var t := SpanAtNode(r, f, k);
      assert t in f - {s};
    }
    forall t | t in f - {s} ensures OnRing(r', t) {
      var k := NodeOfSpan(r, f, t);
      if k == i { SameAddrSameSpan(r[0], f, s, t); }
      assert r'[if k < i then k else k - 1] == r[k];
    }
  }

  /** A span may grow as long as it stays clear of the others. */
  lemma {:induction false} ShapeResize(r: seq<nat>, f: set<Span>, s: Span, t: Span)
    requires Shape(r, f) && s in f && t.addr == s.addr
    requires SpanOk(r[0], t) && DisjointFrom(t, f - {s})
    ensures Shape(r, f - {s} + {t})
  {
    var g := f - {s} + {t};
    forall i | 1 <= i < |r| ensures IsNode(g, r[i]) {
      var u := SpanAtNode(r, f, i);
      assert u == s || u in g;
      assert t in g;
    }
    forall u | u in g ensures OnRing(r, u) {
      var k := NodeOfSpan(r, f, if u == t then s else u);
    }
  }

  // ---- link surgery ------------------------------------------------------------

  /** Linking in a block between ring positions `i` and `i + 1`. */
  lemma LinkIn(w: List.Words, r: seq<nat>, f: set<Span>, i: nat, b: Span)
    requires FreeListOk(w, r, f) && i < |r| && List.Get(w, b.addr) == b.size
    requires SpanOk(r[0], b) && DisjointFrom(b, f)
    requires i > 0 ==> r[i] < Node(b)
    requires i + 1 < |r| ==> Node(b) < r[i + 1]
    ensures var w' := List.InsertWords(w, Node(b), r[i], List.Succ(r, i));
            FreeListOk(w', List.InsertAfter(r, i, Node(b)), f + {b}) && OnlyHeaders(w, w', r[0], f + {b})
  {
    BlockAwayFromRing(r, f, b);
    List.RingInsert(w, r, i, Node(b));
    ShapeInsert(r, f, i, b);
    InsertOnlyLinks(w, r, f, i, b);
  }

  /** The link writes of an insertion stay in the headers and off the size words. */
  lemma InsertOnlyLinks(w: List.Words, r: seq<nat>, f: set<Span>, i: nat, b: Span)
    requires Shape(r, f) && SizesOk(w, f) && i < |r| && List.Get(w, b.addr) == b.size
    requires SpanOk(r[0], b) && DisjointFrom(b, f)
    ensures var w' := List.InsertWords(w, Node(b), r[i], List.Succ(r, i));
            SizesOk(w', f + {b}) && OnlyHeaders(w, w', r[0], f + {b})
  {
    var x := Node(b);
    NeighboursArePositions(r, f, i, b);
    WriteFourLinks(w, r[0], f + {b}, r[i], List.Succ(r, i), x, x, x, r[i], List.Succ(r, i));
  }

  lemma BlockAwayFromRing(r: seq<nat>, f: set<Span>, b: Span)
    requires Shape(r, f) && SpanOk(r[0], b) && DisjointFrom(b, f)
    ensures List.AwayFrom(Node(b), r)
  {
    forall j | 0 <= j < |r| ensures List.NodesApart(Node(b), r[j]) {
      if j > 0 {
        var s := SpanAtNode(r, f, j);
        assert Disjoint(b, s);
      }
    }
  }

  lemma NeighboursArePositions(r: seq<nat>, f: set<Span>, i: nat, b: Span)
    requires Shape(r, f) && i < |r|
    ensures IsPosition(r[0], f + {b}, r[i]) && IsPosition(r[0], f + {b}, List.Succ(r, i))
    ensures IsPosition(r[0], f + {b}, Node(b))
  {
    InsertedNode(r, f, i, b, i + 1);
    if i > 0 {
      var s := SpanAtNode(r, f, i);
      assert s in f + {b};
    }
    if i + 1 < |r| {
      var s := SpanAtNode(r, f, i + 1);
      assert s in f + {b};
    }
  }

  /** A ring position is the head or the node of a span. */
  ghost predicate IsPosition(head: nat, f: set<Span>, n: nat)
  {
    n == head || IsNode(f, n)
  }

  /** Writing a link word changes no size word and no word outside the headers. */
  lemma WriteLink(w: List.Words, head: nat, f: set<Span>, n: nat, off: nat, v: nat)
    requires SpansOk(head, f) && IsPosition(head, f, n) && (off == 0 || off == 8)
    ensures OnlyHeaders(w, w[n + off := v], head, f)
    ensures SizesOk(w, f) ==> SizesOk(w[n + off := v], f)
  {
    if n == head {
      forall s | s in f ensures s.addr != n + off { assert SpanOk(head, s); }
    } else {
      var t :| t in f && Node(t) == n;
      forall s | s in f ensures s.addr != n + off { assert SpanOk(head, s) && SpanOk(head, t); }
    }
  }

  lemma OnlyHeadersThen(w: List.Words, w1: List.Words, w2: List.Words, head: nat, f: set<Span>)
    requires OnlyHeaders(w, w1, head, f) && OnlyHeaders(w1, w2, head, f)
    ensures OnlyHeaders(w, w2, head, f)
  {
  }

  lemma WriteLinkThen(w0: List.Words, w: List.Words, head: nat, f: set<Span>, n: nat, off: nat, v: nat)
    requires SpansOk(head, f) && IsPosition(head, f, n) && (off == 0 || off == 8)
    requires OnlyHeaders(w0, w, head, f) && SizesOk(w, f)
    ensures OnlyHeaders(w0, w[n + off := v], head, f) && SizesOk(w[n + off := v], f)
  {
    WriteLink(w, head, f, n, off, v);
    OnlyHeadersThen(w0, w, w[n + off := v], head, f);
  }

  lemma WriteFourLinks(w: List.Words, head: nat, f: set<Span>, p: nat, n: nat, x: nat, a: nat, b: nat, c: nat, d: nat)
    requires SpansOk(head, f) && IsPosition(head, f, p) && IsPosition(head, f, n) && IsPosition(head, f, x)
    requires SizesOk(w, f)
    ensures var w' := w[p := a][n + 8 := b][x + 8 := c][x := d];
            OnlyHeaders(w, w', head, f) && SizesOk(w', f)
  {
    WriteLinkThen(w, w, head, f, p, 0, a);
    WriteLinkThen(w, w[p := a], head, f, n, 8, b);
    WriteLinkThen(w, w[p := a][n + 8 := b], head, f, x, 8, c);
    WriteLinkThen(w, w[p := a][n + 8 := b][x + 8 := c], head, f, x, 0, d);
  }

  /** Unlinking ring position `i`. */
  lemma LinkOut(w: List.Words, r: seq<nat>, f: set<Span>, i: nat, s: Span)
    requires FreeListOk(w, r, f) && 1 <= i < |r| && s in f && r[i] == Node(s)
    ensures var w' := List.RemoveWords(w, Node(s));
            FreeListOk(w', List.DropAt(r, i), f - {s}) && OnlyHeaders(w, w', r[0], f) && SizesOk(w', f)
  {
    List.RingRemove(w, r, i);
    ShapeRemove(r, f, i, s);
    assert List.LinkOk(w, r, i);
    assert IsPosition(r[0], f, List.Before(r, i)) && IsPosition(r[0], f, List.Succ(r, i)) && IsPosition(r[0], f, Node(s));
    var p, n, x := List.Prev(w, Node(s)), List.Next(w, Node(s)), Node(s);
    assert List.RemoveWords(w, x) == w[p := n][n + 8 := p][x + 8 := x][x := x];
    WriteFourLinks(w, r[0], f, p, n, x, n, p, x, x);
  }

  /** The span at ring position `i` takes over the one at `i + 1`, which starts where it ends. */
  lemma Join(w: List.Words, r: seq<nat>, f: set<Span>, i: nat, s: Span, t: Span)
    requires FreeListOk(w, r, f) && 1 <= i && i + 1 < |r|
    requires s in f && t in f && r[i] == Node(s) && r[i + 1] == Node(t) && End(s) == t.addr
    ensures var w' := List.RemoveWords(w[s.addr := s.size + t.size], Node(t));
            && FreeListOk(w', List.DropAt(r, i + 1), f - {s} - {t} + {Joined(s, t)})
            && OnlyHeaders(w, w', r[0], f)
  {
    var w1 := List.RemoveWords(w, Node(t));
    LinkOut(w, r, f, i + 1, t);
    Grow(w1, List.DropAt(r, i + 1), f - {t}, s, s.size + t.size, r[0], f, t);
    JoinWords(w, r, f, i, s, t);
    assert f - {t} - {s} + {Joined(s, t)} == f - {s} - {t} + {Joined(s, t)};
    OnlyHeadersThen(w, w1, w1[s.addr := s.size + t.size], r[0], f);
  }

  /** Overwriting one size word, when the span has room to grow into. */
  lemma Grow(w: List.Words, r: seq<nat>, f: set<Span>, s: Span, size: nat, head: nat, all: set<Span>, t: Span)
    requires FreeListOk(w, r, f) && s in f && r[0] == head && SpansOk(head, all) && t in all && f == all - {t}
    requires size == s.size + t.size && End(s) == t.addr
    ensures FreeListOk(w[s.addr := size], r, f - {s} + {Span(s.addr, size)})
    ensures OnlyHeaders(w, w[s.addr := size], head, all)
  {
    var u := Span(s.addr, size);
    var w' := w[s.addr := size];
    assert s in all;
    forall v | v in f - {s} ensures Disjoint(u, v) { assert Disjoint(s, v) && Disjoint(t, v); }
    assert SpanOk(head, u) by { assert SpanOk(head, s) && SpanOk(head, t); }
    ShapeResize(r, f, s, u);
    SizeWriteKeepsRing(w, r, f, s, size);
    assert SizesOk(w', f - {s} + {u});
  }

  /** The size write and the removal touch different words, so their order does not matter. */
  lemma JoinWords(w: List.Words, r: seq<nat>, f: set<Span>, i: nat, s: Span, t: Span)
    requires FreeListOk(w, r, f) && 1 <= i && i + 1 < |r|
    requires s in f && t in f && r[i] == Node(s) && r[i + 1] == Node(t)
    ensures List.RemoveWords(w, Node(t))[s.addr := s.size + t.size] ==
              List.RemoveWords(w[s.addr := s.size + t.size], Node(t))
  {
    assert List.LinkOk(w, r, i + 1);
    assert SpanOk(r[0], s) && SpanOk(r[0], t);
    if i + 2 < |r| {
      var n := SpanAtNode(r, f, i + 2);
    }
    assert s != t;
  }

  // ---- the list operations of the heap -------------------------------------------

  function SaturatingAdd(a: nat, b: nat): (r: nat)
  {
    if a + b <= USIZE_MAX then a + b else USIZE_MAX
  }

  predicate BlocksAreAdjacent(w: List.Words, left: nat, right: nat)
  {
    SaturatingAdd(left, List.Get(w, left)) == right
  }

  /** Walk to the insertion point of `block`: its future neighbours on the ring. */
  method FindSlot(mem: List.Memory, head: nat, block: nat, ghost r: seq<nat>, ghost f: set<Span>)
    returns (prev: nat, current: nat, ghost i: nat)
    requires FreeListOk(mem.words, r, f) && r[0] == head
    ensures i < |r| && prev == r[i] && current == List.Succ(r, i)
    ensures i > 0 ==> r[i] < block + 8
    ensures i + 1 < |r| ==> block + 8 <= r[i + 1]
  {
    prev := head;
    assert List.LinkOk(mem.words, r, 0);
    current := List.Next(mem.words, head);
    i := 0;
    while current != head
      invariant 0 <= i < |r| && prev == r[i] && current == List.Succ(r, i)
      invariant i > 0 ==> r[i] < block + 8
      decreases |r| - i
    {
      ghost var s := SpanAtNode(r, f, i + 1);
      if current - 8 >= block {
        return;
      }
      assert List.LinkOk(mem.words, r, i + 1);
      prev := current;
      current := List.Next(mem.words, current);
      i := i + 1;
    }
    HeadIsNoNode(r, f, i);
  }

  /** The walk meets the head again only after the last node. */
  lemma HeadIsNoNode(r: seq<nat>, f: set<Span>, i: nat)
    requires Shape(r, f) && i < |r| && List.Succ(r, i) == r[0]
    ensures i + 1 == |r|
  {
    if i + 1 < |r| {
      var s := SpanAtNode(r, f, i + 1);
    }
  }

  /** If the blocks touch, the left one absorbs the right one. */
  method AbsorbRight(mem: List.Memory, left: nat, right: nat,
                     ghost r: seq<nat>, ghost f: set<Span>, ghost i: nat, ghost s: Span, ghost t: Span)
    returns (absorbed: bool)
    requires FreeListOk(mem.words, r, f) && 1 <= i && i + 1 < |r|
    requires s in f && t in f && r[i] == Node(s) && r[i + 1] == Node(t) && left == s.addr && right == t.addr
    modifies mem
    ensures absorbed <==> End(s) == t.addr
    ensures !absorbed ==> mem.words == old(mem.words)
    ensures absorbed ==> FreeListOk(mem.words, List.DropAt(r, i + 1), f - {s} - {t} + {Joined(s, t)})
    ensures OnlyHeaders(old(mem.words), mem.words, r[0], f)
  {
    assert SpanOk(r[0], s);
    absorbed := BlocksAreAdjacent(mem.words, left, right);
    if absorbed {
      Join(mem.words, r, f, i, s, t);
      SizeWriteKeepsRing(mem.words, r, f, s, s.size + t.size);
      mem.words := mem.words[left := List.Get(mem.words, left) + List.Get(mem.words, right)];
      mem.ListRemove(right + 8, r, i + 1);
    }
  }

  lemma SizeWriteKeepsRing(w: List.Words, r: seq<nat>, f: set<Span>, s: Span, v: nat)
    requires FreeListOk(w, r, f) && s in f
    ensures List.Ring(w[s.addr := v], r)
  {
    forall j | 0 <= j < |r| ensures r[j] != s.addr && r[j] + 8 != s.addr {
      assert SpanOk(r[0], s);
      if j > 0 {
        var t := SpanAtNode(r, f, j);
      }
    }
    List.RingFrame(w, w[s.addr := v], r);
  }

  /** Put a block on the ring in address order, between `prev` and its successor. */
  method LinkBlock(mem: List.Memory, head: nat, block: nat, ghost r: seq<nat>, ghost f: set<Span>, ghost b: Span)
    returns (prev: nat, ghost i: nat)
    requires FreeListOk(mem.words, r, f) && r[0] == head
    requires b == Span(block, List.Get(mem.words, block)) && SpanOk(head, b) && DisjointFrom(b, f)
    modifies mem
    ensures i < |r| && prev == r[i]
    ensures i > 0 ==> r[i] < Node(b)
    ensures i + 1 < |r| ==> Node(b) < r[i + 1]
    ensures FreeListOk(mem.words, List.InsertAfter(r, i, Node(b)), f + {b})
    ensures OnlyHeaders(old(mem.words), mem.words, head, f + {b})
  {
    var current;
    prev, current, i := FindSlot(mem, head, block, r, f);
    if i + 1 < |r| {
      ghost var s := SpanAtNode(r, f, i + 1);
      assert Disjoint(b, s);
    }
    LinkIn(mem.words, r, f, i, b);
    BlockAwayFromRing(r, f, b);
    WriteLinks(mem, block + 8, prev, current);
  }

  /** The heap writes the four links of an insertion in its own order. */
  method WriteLinks(mem: List.Memory, node: nat, prev: nat, current: nat)
    requires List.NodesApart(node, prev) && List.NodesApart(node, current)
    modifies mem
    ensures mem.words == List.InsertWords(old(mem.words), node, prev, current)
  {
    mem.words := mem.words[node + 8 := prev];
    mem.words := mem.words[node := current];
    mem.words := mem.words[prev := node];
    mem.words := mem.words[current + 8 := node];
  }

  lemma InOrder(r: seq<nat>, i: nat, j: nat)
    requires Ascending(r)
    ensures 1 <= i < j < |r| ==> r[i] < r[j]
  {
  }

  /** Below the insertion point only the ring predecessor can touch the block. */
  lemma OnlyPredecessorTouches(r: seq<nat>, f: set<Span>, i: nat, b: Span, s: Span)
    requires Shape(r, f) && Separated(f) && i < |r| && s in f && s.addr < b.addr && DisjointFrom(b, f)
    requires i + 1 < |r| ==> Node(b) < r[i + 1]
    ensures i > 0
    ensures r[i] != Node(s) && r[i] < Node(b) ==> End(s) < b.addr
  {
    var j := NodeOfSpan(r, f, s);
    InOrder(r, i + 1, j);
    InOrder(r, j, i);
    if r[i] != Node(s) && r[i] < Node(b) {
      var p := SpanAtNode(r, f, i);
      assert Apart(s, p);
    }
  }

  /** Above the block only the ring successor can touch it. */
  lemma OnlySuccessorTouches(r: seq<nat>, f: set<Span>, k: nat, m: Span, s: Span)
    requires Shape(r, f) && 1 <= k < |r| && m in f && r[k] == Node(m) && s in f && s.addr == End(m)
    ensures k + 1 < |r| && r[k + 1] == Node(s)
  {
    assert SpanOk(r[0], m);
    var j := NodeOfSpan(r, f, s);
    InOrder(r, j, k);
    InOrder(r, k, k + 1);
    InOrder(r, k + 1, j);
    var n := SpanAtNode(r, f, k + 1);
    assert n != m && Disjoint(m, n);
  }

  /** The upper half of the insertion: join with what touches from below. */
  method JoinBelow(mem: List.Memory, head: nat, block: nat, prev: nat,
                   ghost r: seq<nat>, ghost f: set<Span>, ghost b: Span, ghost i: nat)
    returns (merged: nat, ghost r': seq<nat>, ghost f': set<Span>, ghost m: Span, ghost k: nat)
    requires Shape(r, f) && Separated(f) && r[0] == head && i < |r| && prev == r[i] && block == b.addr
    requires SpanOk(head, b) && DisjointFrom(b, f)
    requires i > 0 ==> r[i] < Node(b)
    requires i + 1 < |r| ==> Node(b) < r[i + 1]
    requires FreeListOk(mem.words, List.InsertAfter(r, i, Node(b)), f + {b})
    modifies mem
    ensures FreeListOk(mem.words, r', f') && r'[0] == head && LeftJoined(f, b, m, f')
    ensures 1 <= k < |r'| && r'[k] == Node(m) && merged == m.addr
    ensures f' == f + {b} || exists p :: p in f && m == Joined(p, b) && f' == f + {b} - {p} - {b} + {m}
    ensures OnlyHeaders(old(mem.words), mem.words, head, f + {b})
  {
    r' := List.InsertAfter(r, i, Node(b));
    f' := f + {b};
    merged, m, k := block, b, i + 1;
    assert r'[i + 1] == Node(b) && r'[i] == r[i] && r'[0] == head;
    ghost var below := false;
    if prev != head {
      ghost var p := SpanAtNode(r, f, i);
      var absorbed := AbsorbRight(mem, prev - 8, block, r', f', i, p, b);
      if absorbed {
        JoinedBelow(f, b, p);
        below := true;
        r' := List.DropAt(r', i + 1);
        f' := f' - {p} - {b} + {Joined(p, b)};
        merged, m, k := prev - 8, Joined(p, b), i;
      }
    }
    if !below {
      forall s | s in f && s.addr < b.addr ensures End(s) < b.addr {
        OnlyPredecessorTouches(r, f, i, b, s);
        HeadIsNotAfter(r, f, i);
        assert Disjoint(b, s);
      }
      NothingBelow(f, b);
    }
  }

  lemma HeadIsNotAfter(r: seq<nat>, f: set<Span>, i: nat)
    requires Shape(r, f) && i < |r|
    ensures r[i] == r[0] ==> i == 0
  {
    if i > 0 {
      var s := SpanAtNode(r, f, i);
    }
  }

  /** Insert a block in address order and coalesce it with both neighbours. */
  method InsertAndCoalesce(mem: List.Memory, head: nat, block: nat, ghost r: seq<nat>, ghost f: set<Span>, ghost b: Span)
    returns (ghost r': seq<nat>, ghost f': set<Span>)
    requires FreeListOk(mem.words, r, f) && r[0] == head && Separated(f)
    requires b == Span(block, List.Get(mem.words, block)) && SpanOk(head, b) && DisjointFrom(b, f)
    modifies mem
    ensures FreeListOk(mem.words, r', f') && r'[0] == head && CoalescedWith(f, b, f')
    ensures OnlyHeaders(old(mem.words), mem.words, head, f + {b})
  {
    var prev, i := LinkBlock(mem, head, block, r, f, b);
    ghost var w1 := mem.words;
    var merged, r2, f2, m, k := JoinBelow(mem, head, block, prev, r, f, b, i);
    ghost var w2 := mem.words;
    OnlyHeadersThen(old(mem.words), w1, w2, head, f + {b});
    r', f' := r2, f2;
    assert List.LinkOk(mem.words, r2, k);
    var next := List.Next(mem.words, merged + 8);
    ghost var above := false;
    if next != head {
      ghost var n := SpanAtNode(r2, f2, k + 1);
      var absorbed := AbsorbRight(mem, merged, next - 8, r2, f2, k, m, n);
      FewerHeaders(w2, mem.words, head, f, b, m, f2);
      OnlyHeadersThen(old(mem.words), w2, mem.words, head, f + {b});
      if absorbed {
        JoinedAbove(f, b, m, f2, n);
        above := true;
        r' := List.DropAt(r2, k + 1);
        f' := f2 - {m} - {n} + {Joined(m, n)};
      }
    }
    if !above {
      forall s | s in f2 && s != m ensures s.addr != End(m) {
        if s.addr == End(m) {
          OnlySuccessorTouches(r2, f2, k, m, s);
        }
      }
      NothingAbove(f, b, m, f2);
    }
  }

  /** Joining below introduces no header address that was not there before. */
  lemma FewerHeaders(w: List.Words, w': List.Words, head: nat, f: set<Span>, b: Span, m: Span, f': set<Span>)
    requires OnlyHeaders(w, w', head, f')
    requires f' == f + {b} || exists p :: p in f && m == Joined(p, b) && f' == f + {b} - {p} - {b} + {m}
    ensures OnlyHeaders(w, w', head, f + {b})
  {
    forall a: nat | OutsideHeaders(head, f + {b}, a) ensures List.Get(w', a) == List.Get(w, a) {
      assert OutsideHeaders(head, f', a);
    }
  }
}
