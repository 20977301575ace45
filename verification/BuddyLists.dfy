/**
  The per-order free lists of the buddy allocator: doubly linked lists threaded
  through the page metadata as `PFN+1` codes.
*/
module BuddyLists {
  import opened Basics
  import opened BuddyGeometry

  const CODE_LIMIT := 0x1_0000_0000

  /** Metadata of one page frame. `next` and `prev` are 32-bit codes: frame number plus one, 0 for none. */
  datatype PageInfo = PageInfo(order: nat, isHead: bool, isFree: bool, next: nat, prev: nat)

  function Encode(v: Option<nat>): (c: nat)
    ensures c < CODE_LIMIT
    ensures v.Some? && v.value + 1 < CODE_LIMIT ==> Decode(c) == v
    ensures v.None? ==> Decode(c) == v
  {
    match v
    case None => 0
    case Some(x) => (x + 1) % CODE_LIMIT
  }

  function Decode(c: nat): (v: Option<nat>)
  {
    if c == 0 then None else Some(c - 1)
  }

  function MarkOf(p: PageInfo): (r: Mark)
  {
    Mark(p.order, p.isHead, p.isFree)
  }

  ghost function Marks(m: seq<PageInfo>): (ms: seq<Mark>)
    ensures |ms| == |m|
    ensures forall i :: 0 <= i < |m| ==> ms[i] == MarkOf(m[i])
  {
    seq(|m|, i requires 0 <= i < |m| => MarkOf(m[i]))
  }

  // ---- one list --------------------------------------------------------

  ghost function At(l: seq<nat>, i: int): Option<nat>
  {
    if 0 <= i < |l| then Some(l[i]) else None
  }

  /** Node `i` of the list: a free head of order `k` whose links name its neighbours. */
  ghost predicate NodeOk(m: seq<PageInfo>, l: seq<nat>, k: nat, i: nat)
    requires i < |l|
  {
    && l[i] < |m|
    && MarkOf(m[l[i]]) == Mark(k, true, true)
    && Decode(m[l[i]].next) == At(l, i + 1)
    && Decode(m[l[i]].prev) == At(l, i - 1)
  }

  /** Following `next` from `head` visits exactly `l`, following `prev` goes back, nothing repeats. */
  ghost predicate ListOk(m: seq<PageInfo>, head: Option<nat>, l: seq<nat>, k: nat)
  {
    && head == At(l, 0)
    && Distinct(l)
    && forall i :: 0 <= i < |l| ==> NodeOk(m, l, k, i)
  }

  ghost function Without(l: seq<nat>, x: nat): (r: seq<nat>)
    requires x in l
  {
    var j := IndexOf(l, x);
    l[..j] + l[j + 1..]
  }

  lemma WithoutFacts(l: seq<nat>, x: nat)
    requires x in l && Distinct(l)
    ensures Distinct(Without(l, x))
    ensures forall y :: y in Without(l, x) <==> y in l && y != x
  {
    var j := IndexOf(l, x);
    var r := Without(l, x);
    forall y | y in l && y != x ensures y in r {
      var i :| 0 <= i < |l| && l[i] == y;
      assert if i < j then r[i] == y else r[i - 1] == y;
    }
    forall y | y in r ensures y in l && y != x {
      var i :| 0 <= i < |r| && r[i] == y;
      assert r[i] == if i < j then l[i] else l[i + 1];
    }
  }

  lemma WithoutFirst(l: seq<nat>, x: nat)
    ensures Without([x] + l, x) == l
  {
    assert IndexOf([x] + l, x) == 0;
  }

  lemma ListFrame(m: seq<PageInfo>, m': seq<PageInfo>, head: Option<nat>, l: seq<nat>, k: nat)
    requires ListOk(m, head, l, k) && |m'| == |m|
    requires forall x :: x in l ==> x < |m| && m'[x] == m[x]
    ensures ListOk(m', head, l, k)
  {
    forall i | 0 <= i < |l| ensures NodeOk(m', l, k, i) {
      assert NodeOk(m, l, k, i);
      assert l[i] in l;
    }
  }

  /** Prepending a node. */
  lemma ListPush(m: seq<PageInfo>, m': seq<PageInfo>, head: Option<nat>, l: seq<nat>, k: nat, x: nat)
    requires ListOk(m, head, l, k) && |m'| == |m| && |m| + 1 < CODE_LIMIT
    requires x < |m| && x !in l && MarkOf(m'[x]) == Mark(k, true, true)
    requires Decode(m'[x].next) == head && Decode(m'[x].prev) == None
    requires head.Some? ==> head.value < |m| && m'[head.value] == m[head.value].(prev := Encode(Some(x)))
    requires forall i :: 0 <= i < |m| && i != x && (head.Some? ==> i != head.value) ==> m'[i] == m[i]
    ensures ListOk(m', Some(x), [x] + l, k)
  {
    var l' := [x] + l;
    forall i | 0 <= i < |l'| ensures NodeOk(m', l', k, i) {
      if i > 0 {
        assert NodeOk(m, l, k, i - 1);
        assert l'[i] == l[i - 1];
        assert l[i - 1] in l;
      }
    }
  }

  /** Unlinking node `j`. */
  lemma ListRemove(m: seq<PageInfo>, m': seq<PageInfo>, head: Option<nat>, head': Option<nat>,
                   l: seq<nat>, k: nat, j: nat)
    requires ListOk(m, head, l, k) && |m'| == |m| && |m| + 1 < CODE_LIMIT && j < |l|
    requires forall i :: 0 <= i < |l| ==> l[i] < |m|
    requires head' == if j == 0 then At(l, 1) else head
    requires j > 0 ==> m'[l[j - 1]] == m[l[j - 1]].(next := Encode(At(l, j + 1)))
    requires j + 1 < |l| ==> m'[l[j + 1]] == m[l[j + 1]].(prev := Encode(At(l, j - 1)))
    requires forall i :: 0 <= i < |l| && i != j - 1 && i != j && i != j + 1 ==> m'[l[i]] == m[l[i]]
    ensures ListOk(m', head', l[..j] + l[j + 1..], k)
  {
    var l' := l[..j] + l[j + 1..];
    assert head' == At(l', 0);
    forall i | 0 <= i < |l'| ensures NodeOk(m', l', k, i) {
      var i0 := if i < j then i else i + 1;
      assert NodeOk(m, l, k, i0);
      assert l'[i] == l[i0];
      assert At(l', i + 1) == if i0 + 1 == j then At(l, j + 1) else At(l, i0 + 1);
      assert At(l', i - 1) == if i0 == j + 1 then At(l, j - 1) else At(l, i0 - 1);
    }
  }

  // ---- all lists -------------------------------------------------------

  type Lists = seq<seq<nat>>

  ghost predicate AllLists(m: seq<PageInfo>, heads: seq<Option<nat>>, lists: Lists)
  {
    && |m| + 1 < CODE_LIMIT
    && |heads| == |lists| == MAX_ORDER
    && forall k :: 0 <= k < MAX_ORDER ==> ListOk(m, heads[k], lists[k], k)
  }

  /** Outside the hole `lo..hi`, the lists hold exactly the pages marked free head. */
  ghost predicate ListsMatch(ms: seq<Mark>, lists: Lists, lo: nat, hi: nat)
    requires |lists| == MAX_ORDER
  {
    && (forall k, x :: 0 <= k < MAX_ORDER && x in lists[k] ==> !(lo <= x < hi))
    && (forall p :: 0 <= p < |ms| && !(lo <= p < hi) && ms[p].isHead && ms[p].isFree ==>
          ms[p].order < MAX_ORDER && p in lists[ms[p].order])
  }

  /** The allocator's invariant around a hole. */
  ghost predicate Consistent(m: seq<PageInfo>, heads: seq<Option<nat>>, lists: Lists, lo: nat, hi: nat)
  {
    && AllLists(m, heads, lists)
    && GeometryExcept(Marks(m), lo, hi)
    && ListsMatch(Marks(m), lists, lo, hi)
  }

  lemma ListedIsFreeHead(m: seq<PageInfo>, heads: seq<Option<nat>>, lists: Lists, k: nat, x: nat)
    requires AllLists(m, heads, lists) && k < MAX_ORDER && x in lists[k]
    ensures x < |m| && MarkOf(m[x]) == Mark(k, true, true)
  {
    assert ListOk(m, heads[k], lists[k], k);
    var i :| 0 <= i < |lists[k]| && lists[k][i] == x;
    assert NodeOk(m, lists[k], k, i);
  }

  /** Only list `k` and its own pages changed. */
  lemma OtherListsKeep(m: seq<PageInfo>, m': seq<PageInfo>, heads: seq<Option<nat>>, heads': seq<Option<nat>>,
                       lists: Lists, lists': Lists, k: nat)
    requires AllLists(m, heads, lists) && |m'| == |m| && k < MAX_ORDER
    requires |heads'| == |lists'| == MAX_ORDER
    requires heads' == heads[k := heads'[k]] && lists' == lists[k := lists'[k]]
    requires forall i :: 0 <= i < |m| && (m[i].order != k || !m[i].isHead || !m[i].isFree) ==> m'[i] == m[i]
    requires ListOk(m', heads'[k], lists'[k], k)
    ensures AllLists(m', heads', lists')
  {
    forall j | 0 <= j < MAX_ORDER ensures ListOk(m', heads'[j], lists'[j], j) {
      if j != k {
        assert ListOk(m, heads[j], lists[j], j);
        forall x | x in lists[j] ensures x < |m| && m'[x] == m[x] {
          ListedIsFreeHead(m, heads, lists, j, x);
        }
        ListFrame(m, m', heads[j], lists[j], j);
      }
    }
  }

  /** Pages outside every list may change freely. */
  lemma UnlistedMayChange(m: seq<PageInfo>, m': seq<PageInfo>, heads: seq<Option<nat>>, lists: Lists)
    requires AllLists(m, heads, lists) && |m'| == |m|
    requires forall k, x :: 0 <= k < MAX_ORDER && x in lists[k] && x < |m| ==> m'[x] == m[x]
    ensures AllLists(m', heads, lists)
  {
    forall k | 0 <= k < MAX_ORDER ensures ListOk(m', heads[k], lists[k], k) {
      assert ListOk(m, heads[k], lists[k], k);
      forall x | x in lists[k] ensures x < |m| && m'[x] == m[x] {
        ListedIsFreeHead(m, heads, lists, k, x);
      }
      ListFrame(m, m', heads[k], lists[k], k);
    }
  }

  // ---- unlinking a block -------------------------------------------------

  /** The list neighbours that a listed page names are pages themselves. */
  lemma NeighboursOk(m: seq<PageInfo>, heads: seq<Option<nat>>, lists: Lists, k: nat, x: nat)
    requires AllLists(m, heads, lists) && k < MAX_ORDER && x in lists[k]
    ensures x < |m| && CanUnlink(m, x)
  {
    var l, j := lists[k], IndexOf(lists[k], x);
    assert ListOk(m, heads[k], l, k) && NodeOk(m, l, k, j);
    assert j > 0 ==> NodeOk(m, l, k, j - 1);
    assert j + 1 < |l| ==> NodeOk(m, l, k, j + 1);
  }

  predicate CanUnlink(m: seq<PageInfo>, x: nat)
    requires x < |m|
  {
    && (Decode(m[x].prev).Some? ==> Decode(m[x].prev).value < |m|)
    && (Decode(m[x].next).Some? ==> Decode(m[x].next).value < |m|)
  }

  /** The metadata after the neighbours of `x` have been pointed at each other. */
  ghost function UnlinkedInfo(m: seq<PageInfo>, x: nat): (r: seq<PageInfo>)
    requires x < |m| && CanUnlink(m, x)
  {
    var prev, next := Decode(m[x].prev), Decode(m[x].next);
    var m1 := if prev.Some? then m[prev.value := m[prev.value].(next := Encode(next))] else m;
    if next.Some? then m1[next.value := m1[next.value].(prev := Encode(prev))] else m1
  }

  /** Unlinking node `j` as the allocator does takes exactly that node off the list. */
  lemma UnlinkList(m: seq<PageInfo>, head: Option<nat>, l: seq<nat>, k: nat, j: nat)
    requires ListOk(m, head, l, k) && |m| + 1 < CODE_LIMIT && j < |l| && l[j] < |m| && CanUnlink(m, l[j])
    ensures ListOk(UnlinkedInfo(m, l[j]), if j == 0 then Decode(m[l[j]].next) else head, l[..j] + l[j + 1..], k)
    ensures j == 0 <==> Decode(m[l[j]].prev).None?
  {
    assert NodeOk(m, l, k, j);
    forall i | 0 <= i < |l| ensures l[i] < |m| {
      assert NodeOk(m, l, k, i);
    }
    ListRemove(m, UnlinkedInfo(m, l[j]), head, if j == 0 then Decode(m[l[j]].next) else head, l, k, j);
  }

  /** Unlinking writes only to pages of the same list. */
  lemma UnlinkTouches(m: seq<PageInfo>, head: Option<nat>, l: seq<nat>, k: nat, j: nat)
    requires ListOk(m, head, l, k) && j < |l| && l[j] < |m| && CanUnlink(m, l[j])
    ensures |UnlinkedInfo(m, l[j])| == |m|
    ensures forall i :: 0 <= i < |m| && (m[i].order != k || !m[i].isHead || !m[i].isFree) ==> UnlinkedInfo(m, l[j])[i] == m[i]
  {
    assert NodeOk(m, l, k, j);
    assert j > 0 ==> NodeOk(m, l, k, j - 1);
    assert j + 1 < |l| ==> NodeOk(m, l, k, j + 1);
  }

  /** Unlinking leaves the other lists alone. */
  lemma UnlinkOk(m: seq<PageInfo>, heads: seq<Option<nat>>, lists: Lists, k: nat, x: nat)
    requires AllLists(m, heads, lists) && k < MAX_ORDER && x in lists[k] && x < |m| && CanUnlink(m, x)
    ensures AllLists(UnlinkedInfo(m, x), if Decode(m[x].prev).Some? then heads else heads[k := Decode(m[x].next)],
                     lists[k := Without(lists[k], x)])
  {
    var l, j := lists[k], IndexOf(lists[k], x);
    var m', heads' := UnlinkedInfo(m, x), if Decode(m[x].prev).Some? then heads else heads[k := Decode(m[x].next)];
    assert ListOk(m, heads[k], l, k);
    UnlinkList(m, heads[k], l, k, j);
    UnlinkTouches(m, heads[k], l, k, j);
    OtherListsKeep(m, m', heads, heads', lists, lists[k := Without(l, x)], k);
  }

  lemma UnlinkedMarks(m: seq<PageInfo>, x: nat)
    requires x < |m| && CanUnlink(m, x)
    ensures Marks(UnlinkedInfo(m, x)) == Marks(m)
  {
  }
}
