/**
  The page allocator as an abstract data type: lists of free blocks and a map of live ones, without
  metadata, links or marks. Every run of requests on the real arrays refines it.
*/
module BuddyRefinement {
  import opened Basics
  import opened PowersOfTwo
  import opened BuddyGeometry
  import opened BuddyLists
  import opened BuddySpec
  import opened BuddyAllocator

  /** The free blocks of each order in list order, and the order of each live block by its first page. */
  datatype State = State(lists: Lists, live: map<nat, nat>)

  datatype Op = OpAllocate(order: nat) | OpAllocateBelow(below: nat, limit: nat) | OpDeallocate(addr: nat)

  datatype Reply = Address(addr: nat) | NoMemory | Released | Refused

  datatype Answer = Answer(state: State, reply: Reply)

  // ---- the abstract operations ---------------------------------------------------------

  /** The first `2^order` pages from `x` on end at or below the limit, if there is one. */
  predicate Acceptable(x: nat, order: nat, limit: Option<nat>)
  {
    limit.Some? ==> !EndsAbove(x, order, limit.value)
  }

  /** The first acceptable block of a list. */
  function FirstOf(l: seq<nat>, order: nat, limit: Option<nat>): (r: Option<nat>)
    ensures r.Some? ==> r.value in l && Acceptable(r.value, order, limit)
    ensures r.None? ==> forall x :: x in l ==> !Acceptable(x, order, limit)
  {
    if l == [] then None
    else if Acceptable(l[0], order, limit) then Some(l[0])
    else FirstOf(l[1..], order, limit)
  }

  /** The first acceptable block of the smallest order, `k` or above, that has one. */
  function Choice(lists: Lists, k: nat, order: nat, limit: Option<nat>): (r: Option<Block>)
    requires |lists| == MAX_ORDER
    ensures r.Some? ==> k <= r.value.order < MAX_ORDER && r.value.pfn in lists[r.value.order]
    decreases MAX_ORDER - k
  {
    if k >= MAX_ORDER then None
    else if FirstOf(lists[k], order, limit).Some? then Some(Block(FirstOf(lists[k], order, limit).value, k))
    else Choice(lists, k + 1, order, limit)
  }

  ghost function SpecAllocate(s: State, order: nat, limit: Option<nat>): (r: Answer)
    requires |s.lists| == MAX_ORDER
  {
    match Choice(s.lists, order, order, limit)
    case None => Answer(s, NoMemory)
    case Some(b) => Answer(State(AllocLists(s.lists, b.pfn, order, b.order), s.live[b.pfn := order]), Address(b.pfn * PAGE_SIZE))
  }

  ghost function SpecStep(s: State, op: Op): (r: Answer)
    requires Sized(s)
    ensures Sized(r.state)
  {
    match op
    case OpAllocate(order) => SpecAllocate(s, order, None)
    case OpAllocateBelow(order, limit) => SpecAllocate(s, order, Some(limit))
    case OpDeallocate(addr) =>
      var p := addr / PAGE_SIZE;
      if p in s.live then Answer(State(FreeLists(s.lists, p, s.live[p]), s.live - {p}), Released) else Answer(s, Refused)
  }

  ghost function SpecRun(s: State, ops: seq<Op>): (r: State)
    requires Sized(s)
    ensures Sized(r)
    decreases |ops|
  {
    if ops == [] then s else SpecRun(SpecStep(s, ops[0]).state, ops[1..])
  }

  ghost function SpecReplies(s: State, ops: seq<Op>): (r: seq<Reply>)
    requires Sized(s)
    decreases |ops|
  {
    if ops == [] then [] else [SpecStep(s, ops[0]).reply] + SpecReplies(SpecStep(s, ops[0]).state, ops[1..])
  }

  /** There is a list for every order, and every live block has an order. */
  ghost predicate Sized(s: State)
  {
    |s.lists| == MAX_ORDER && forall p :: p in s.live ==> s.live[p] < MAX_ORDER
  }

  // ---- the state an allocator stands for -------------------------------------------------

  ghost function LiveBlocks(ms: seq<Mark>): (r: map<nat, nat>)
  {
    map p | 0 <= p < |ms| && ms[p].isHead && !ms[p].isFree :: ms[p].order
  }

  ghost function Abs(ms: seq<Mark>, lists: Lists): (s: State)
  {
    State(lists, LiveBlocks(ms))
  }

  lemma AbsIsSized(ms: seq<Mark>, lists: Lists)
    requires Geometry(ms) && |lists| == MAX_ORDER
    ensures Sized(Abs(ms, lists))
  {
    forall p | p in LiveBlocks(ms) ensures LiveBlocks(ms)[p] < MAX_ORDER {
      BlocksDisjoint(ms, p, ms[p].order, false, p, ms[p].order, false);
    }
  }

  /** What one allocation does to the live blocks. */
  lemma AllocatedLive(ms: seq<Mark>, ms': seq<Mark>, p: nat, k: nat)
    requires Allocated(ms, ms', p, k)
    ensures p !in LiveBlocks(ms) && LiveBlocks(ms') == LiveBlocks(ms)[p := k]
  {
    var m, m' := LiveBlocks(ms), LiveBlocks(ms');
    forall x: nat ensures (x in m' <==> x in m || x == p) && (x in m' ==> m'[x] == if x == p then k else m[x]) {
      if x in m { assert IsBlock(ms, x, m[x], false); }
      if x in m' { assert IsBlock(ms', x, m'[x], false); }
      assert IsBlock(ms', p, k, false);
    }
  }

  /** What one release does to the live blocks. */
  lemma ReleasedLive(ms: seq<Mark>, ms': seq<Mark>, p: nat, k: nat)
    requires Allocated(ms', ms, p, k)
    ensures p in LiveBlocks(ms) && LiveBlocks(ms)[p] == k && LiveBlocks(ms') == LiveBlocks(ms) - {p}
  {
    AllocatedLive(ms', ms, p, k);
  }

  // ---- the choice of a block ---------------------------------------------------------------

  lemma {:induction false} FirstOfIs(l: seq<nat>, order: nat, limit: Option<nat>, p: nat)
    requires p in l && Acceptable(p, order, limit)
    requires forall i :: 0 <= i < IndexOf(l, p) ==> !Acceptable(l[i], order, limit)
    ensures FirstOf(l, order, limit) == Some(p)
  {
    if l[0] != p {
      assert !Acceptable(l[0], order, limit);
      assert forall i :: 0 <= i < IndexOf(l[1..], p) ==> l[1..][i] == l[i + 1];
      FirstOfIs(l[1..], order, limit, p);
    }
  }

  lemma {:induction false} ChoiceIs(lists: Lists, k: nat, order: nat, limit: Option<nat>, p: nat, o: nat)
    requires |lists| == MAX_ORDER && k <= o < MAX_ORDER && p in lists[o] && Acceptable(p, order, limit)
    requires forall j, x :: k <= j < o && x in lists[j] ==> !Acceptable(x, order, limit)
    requires forall i :: 0 <= i < IndexOf(lists[o], p) ==> !Acceptable(lists[o][i], order, limit)
    ensures Choice(lists, k, order, limit) == Some(Block(p, o))
    decreases o - k
  {
    if k == o { FirstOfIs(lists[o], order, limit, p); } else { ChoiceIs(lists, k + 1, order, limit, p, o); }
  }

  lemma {:induction false} NoChoice(lists: Lists, k: nat, order: nat, limit: Option<nat>)
    requires |lists| == MAX_ORDER
    requires forall j, x :: k <= j < MAX_ORDER && x in lists[j] ==> !Acceptable(x, order, limit)
    ensures Choice(lists, k, order, limit).None?
    decreases MAX_ORDER - k
  {
    if k < MAX_ORDER { NoChoice(lists, k + 1, order, limit); }
  }

  // ---- one step ------------------------------------------------------------------------------

  /** What each request keeps, besides refining the abstract one. */
  ghost predicate Kept(ms: seq<Mark>, lists: Lists, ms': seq<Mark>, lists': Lists)
    requires |lists| == |lists'| == MAX_ORDER
  {
    SameManaged(ms, ms') && (Coalesced(lists) ==> Coalesced(lists'))
  }

  method RunAllocate(a: BuddyAllocator, order: nat) returns (reply: Reply)
    requires a.Valid()
    modifies a`lists, a.metadata, a.freeHeads
    ensures a.Valid() && |a.lists| == |old(a.lists)| == MAX_ORDER && Kept(old(a.PageMarks()), old(a.lists), a.PageMarks(), a.lists)
    ensures Answer(Abs(a.PageMarks(), a.lists), reply) == SpecAllocate(Abs(old(a.PageMarks()), old(a.lists)), order, None)
  {
    ghost var l0, ms0 := a.lists, a.PageMarks();
    ConsistentIsWellPlaced(a.metadata[..], a.freeHeads[..], a.lists);
    var r, o := a.Allocate(order);
    if r.Some? {
      ghost var p := r.value / PAGE_SIZE;
      ChoiceIs(l0, order, order, None, p, o);
      AllocatedLive(ms0, a.PageMarks(), p, order);
      AllocationConserves(ms0, a.PageMarks(), p, order);
      if Coalesced(l0) { AllocKeepsCoalesced(l0, p, order, o); }
      return Address(r.value);
    }
    NoChoice(l0, order, order, None);
    return NoMemory;
  }

  method RunAllocateBelow(a: BuddyAllocator, order: nat, limit: nat) returns (reply: Reply)
    requires a.Valid()
    modifies a`lists, a.metadata, a.freeHeads
    ensures a.Valid() && |a.lists| == |old(a.lists)| == MAX_ORDER && Kept(old(a.PageMarks()), old(a.lists), a.PageMarks(), a.lists)
    ensures Answer(Abs(a.PageMarks(), a.lists), reply) == SpecAllocate(Abs(old(a.PageMarks()), old(a.lists)), order, Some(limit))
  {
    ghost var l0, ms0 := a.lists, a.PageMarks();
    ConsistentIsWellPlaced(a.metadata[..], a.freeHeads[..], a.lists);
    var r, o := a.AllocateBelow(order, limit);
    if r.Some? {
      ghost var p := r.value / PAGE_SIZE;
      ChoiceIs(l0, order, order, Some(limit), p, o);
      AllocatedLive(ms0, a.PageMarks(), p, order);
      AllocationConserves(ms0, a.PageMarks(), p, order);
      if Coalesced(l0) { AllocKeepsCoalesced(l0, p, order, o); }
      return Address(r.value);
    }
    NoChoice(l0, order, order, Some(limit));
    return NoMemory;
  }

  method RunDeallocate(a: BuddyAllocator, addr: nat) returns (reply: Reply)
    requires a.Valid()
    modifies a`lists, a.metadata, a.freeHeads
    ensures a.Valid() && |a.lists| == |old(a.lists)| == MAX_ORDER && Kept(old(a.PageMarks()), old(a.lists), a.PageMarks(), a.lists)
    ensures Sized(Abs(old(a.PageMarks()), old(a.lists)))
    ensures Answer(Abs(a.PageMarks(), a.lists), reply) == SpecStep(Abs(old(a.PageMarks()), old(a.lists)), OpDeallocate(addr))
  {
    ghost var l0, ms0, p := a.lists, a.PageMarks(), addr / PAGE_SIZE;
    ConsistentIsWellPlaced(a.metadata[..], a.freeHeads[..], a.lists);
    AbsIsSized(ms0, l0);
    var ok := a.Deallocate(addr);
    if ok {
      ghost var k := ms0[p].order;
      ReleasedLive(ms0, a.PageMarks(), p, k);
      AllocationConserves(a.PageMarks(), ms0, p, k);
      if Coalesced(l0) { FreeKeepsCoalesced(l0, p, k); }
      return Released;
    }
    assert p in LiveBlocks(ms0) ==> IsBlock(ms0, p, ms0[p].order, false);
    return Refused;
  }

  method RunOne(a: BuddyAllocator, op: Op) returns (reply: Reply)
    requires a.Valid()
    modifies a`lists, a.metadata, a.freeHeads
    ensures a.Valid() && |a.lists| == |old(a.lists)| == MAX_ORDER && Kept(old(a.PageMarks()), old(a.lists), a.PageMarks(), a.lists)
    ensures Sized(Abs(old(a.PageMarks()), old(a.lists)))
    ensures Answer(Abs(a.PageMarks(), a.lists), reply) == SpecStep(Abs(old(a.PageMarks()), old(a.lists)), op)
  {
    AbsIsSized(a.PageMarks(), a.lists);
    match op {
      case OpAllocate(order) => reply := RunAllocate(a, order);
      case OpAllocateBelow(order, limit) => reply := RunAllocateBelow(a, order, limit);
      case OpDeallocate(addr) => reply := RunDeallocate(a, addr);
    }
  }

  // ---- whole runs ----------------------------------------------------------------------------

  /** Any two different blocks, free or live, are aligned, in range and disjoint. */
  ghost predicate AllBlocksDisjoint(ms: seq<Mark>)
  {
    forall p: nat, k: nat, f: bool, q: nat, j: nat, g: bool ::
      IsBlock(ms, p, k, f) && IsBlock(ms, q, j, g) ==>
        && k < MAX_ORDER && Aligned(p, k) && p + Pow2(k) <= |ms|
        && (p != q ==> p + Pow2(k) <= q || q + Pow2(j) <= p)
  }

  lemma GeometryIsDisjoint(ms: seq<Mark>)
    requires Geometry(ms)
    ensures AllBlocksDisjoint(ms)
  {
    forall p: nat, k: nat, f: bool, q: nat, j: nat, g: bool | IsBlock(ms, p, k, f) && IsBlock(ms, q, j, g)
      ensures k < MAX_ORDER && Aligned(p, k) && p + Pow2(k) <= |ms|
      ensures p != q ==> p + Pow2(k) <= q || q + Pow2(j) <= p
    {
      BlocksDisjoint(ms, p, k, f, q, j, g);
    }
  }

  lemma KeptThen(ms: seq<Mark>, l: Lists, ms1: seq<Mark>, l1: Lists, ms2: seq<Mark>, l2: Lists)
    requires |l| == |l1| == |l2| == MAX_ORDER && Kept(ms, l, ms1, l1) && Kept(ms1, l1, ms2, l2)
    ensures Kept(ms, l, ms2, l2)
  {
  }

  /**
    Every run of requests, in any order and with any arguments, gives the replies of the abstract
    allocator and ends in its state; it keeps blocks disjoint, no page is gained or lost, and an
    allocator without free buddies stays without them.
  */
  method Run(a: BuddyAllocator, ops: seq<Op>) returns (replies: seq<Reply>)
    requires a.Valid()
    modifies a`lists, a.metadata, a.freeHeads
    ensures a.Valid() && AllBlocksDisjoint(a.PageMarks())
    ensures |a.lists| == |old(a.lists)| == MAX_ORDER && Kept(old(a.PageMarks()), old(a.lists), a.PageMarks(), a.lists)
    ensures Sized(Abs(old(a.PageMarks()), old(a.lists)))
    ensures Abs(a.PageMarks(), a.lists) == SpecRun(Abs(old(a.PageMarks()), old(a.lists)), ops)
    ensures replies == SpecReplies(Abs(old(a.PageMarks()), old(a.lists)), ops)
    decreases |ops|
  {
    if ops == [] {
      GeometryIsDisjoint(a.PageMarks());
      AbsIsSized(a.PageMarks(), a.lists);
      return [];
    }
    ghost var ms0, l0 := a.PageMarks(), a.lists;
    var r := RunOne(a, ops[0]);
    ghost var ms1, l1 := a.PageMarks(), a.lists;
    var rest := Run(a, ops[1..]);
    KeptThen(ms0, l0, ms1, l1, a.PageMarks(), a.lists);
    return [r] + rest;
  }
}
