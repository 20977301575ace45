/**
  Circular doubly linked lists embedded in memory. A node at address `n` is two
  words: `next` at `n` and `prev` at `n + 8`; address 0 is the null pointer.
*/
module IntrusiveList {

  /** Word-addressed memory: every access is to a whole aligned word. */
  type Words = map<nat, nat>

  function Get(w: Words, a: nat): (v: nat)
  {
    if a in w then w[a] else 0
  }

  function Next(w: Words, n: nat): (r: nat) { Get(w, n) }

  function Prev(w: Words, n: nat): (r: nat) { Get(w, n + 8) }

  // ---- rings -------------------------------------------------------------

  function Succ(r: seq<nat>, i: nat): (n: nat)
    requires i < |r|
  {
    if i + 1 < |r| then r[i + 1] else r[0]
  }

  function Before(r: seq<nat>, i: nat): (n: nat)
    requires i < |r|
  {
    if i > 0 then r[i - 1] else r[|r| - 1]
  }

  predicate NodesApart(a: nat, b: nat)
  {
    a + 16 <= b || b + 16 <= a
  }

  ghost predicate Apart(r: seq<nat>)
  {
    forall i, j :: 0 <= i < j < |r| ==> NodesApart(r[i], r[j])
  }

  ghost predicate AwayFrom(x: nat, r: seq<nat>)
  {
    forall i :: 0 <= i < |r| ==> NodesApart(x, r[i])
  }

  ghost predicate LinkOk(w: Words, r: seq<nat>, i: nat)
    requires i < |r|
  {
    r[i] != 0 && Next(w, r[i]) == Succ(r, i) && Prev(w, r[i]) == Before(r, i)
  }

  /** Following `next` goes once round `r`, following `prev` goes back. */
  ghost predicate Ring(w: Words, r: seq<nat>)
  {
    && |r| > 0 && Apart(r)
    && forall i :: 0 <= i < |r| ==> LinkOk(w, r, i)
  }

  ghost function InsertAfter(r: seq<nat>, i: nat, x: nat): (s: seq<nat>)
    requires i < |r|
  {
    r[..i + 1] + [x] + r[i + 1..]
  }

  ghost function DropAt(r: seq<nat>, i: nat): (s: seq<nat>)
    requires i < |r|
  {
    r[..i] + r[i + 1..]
  }

  /** The four link writes of an insertion, in whatever order they are made. */
  ghost function InsertWords(w: Words, x: nat, p: nat, n: nat): (w': Words)
  {
    w[p := x][n + 8 := x][x + 8 := p][x := n]
  }

  /** The four link writes of a removal: neighbours joined, the node pointing at itself. */
  ghost function RemoveWords(w: Words, x: nat): (w': Words)
  {
    var p, n := Prev(w, x), Next(w, x);
    w[p := n][n + 8 := p][x := x][x + 8 := x]
  }

  lemma ApartInsert(r: seq<nat>, i: nat, x: nat)
    requires Apart(r) && i < |r| && AwayFrom(x, r)
    ensures Apart(InsertAfter(r, i, x))
  {
    var s := InsertAfter(r, i, x);
    forall j, k | 0 <= j < k < |s| ensures NodesApart(s[j], s[k]) {
      if j == i + 1 {
        assert NodesApart(x, r[k - 1]);
      } else if k == i + 1 {
        assert NodesApart(x, r[j]);
      }
    }
  }

  lemma RingInsert(w: Words, r: seq<nat>, i: nat, x: nat)
    requires Ring(w, r) && i < |r| && x != 0 && AwayFrom(x, r)
    ensures Ring(InsertWords(w, x, r[i], Succ(r, i)), InsertAfter(r, i, x))
  {
    var s := InsertAfter(r, i, x);
    ApartInsert(r, i, x);
    forall j | 0 <= j < |s| ensures LinkOk(InsertWords(w, x, r[i], Succ(r, i)), s, j) {
      if j == i + 1 { InsertedLink(w, r, i, x); } else { InsertKeepsLink(w, r, i, x, if j <= i then j else j - 1); }
    }
  }

  /** The new node points at its neighbours. */
  lemma InsertedLink(w: Words, r: seq<nat>, i: nat, x: nat)
    requires i < |r| && x != 0
    ensures LinkOk(InsertWords(w, x, r[i], Succ(r, i)), InsertAfter(r, i, x), i + 1)
  {
    assert Before(InsertAfter(r, i, x), i + 1) == r[i];
    assert Succ(InsertAfter(r, i, x), i + 1) == Succ(r, i);
  }

  /** An old node keeps its links, except towards the new node. */
  lemma InsertKeepsLink(w: Words, r: seq<nat>, i: nat, x: nat, k: nat)
    requires Ring(w, r) && i < |r| && AwayFrom(x, r) && k < |r|
    ensures LinkOk(InsertWords(w, x, r[i], Succ(r, i)), InsertAfter(r, i, x), if k <= i then k else k + 1)
  {
    var s := InsertAfter(r, i, x);
    var j := if k <= i then k else k + 1;
    assert s[j] == r[k] && LinkOk(w, r, k) && NodesApart(x, r[k]);
    assert Succ(s, j) == if k == i then x else Succ(r, k);
    assert Before(s, j) == if r[k] == Succ(r, i) then x else Before(r, k);
  }

  lemma RingRemove(w: Words, r: seq<nat>, i: nat)
    requires Ring(w, r) && i < |r|
    ensures |r| > 1 ==> Ring(RemoveWords(w, r[i]), DropAt(r, i))
    ensures Ring(RemoveWords(w, r[i]), [r[i]])
  {
    var s := DropAt(r, i);
    assert LinkOk(w, r, i);
    assert LinkOk(RemoveWords(w, r[i]), [r[i]], 0);
    if |r| > 1 {
      forall j | 0 <= j < |s| ensures LinkOk(RemoveWords(w, r[i]), s, j) {
        RemoveKeepsLink(w, r, i, if j < i then j else j + 1);
      }
    }
  }

  /** Another node keeps its links, except around the removed node. */
  lemma RemoveKeepsLink(w: Words, r: seq<nat>, i: nat, k: nat)
    requires Ring(w, r) && i < |r| && k < |r| && k != i
    ensures LinkOk(RemoveWords(w, r[i]), DropAt(r, i), if k < i then k else k - 1)
  {
    var s := DropAt(r, i);
    var j := if k < i then k else k - 1;
    assert s[j] == r[k] && LinkOk(w, r, i) && LinkOk(w, r, k) && NodesApart(r[i], r[k]);
    assert Succ(s, j) == if Succ(r, k) == r[i] then Succ(r, i) else Succ(r, k);
    assert Before(s, j) == if Before(r, k) == r[i] then Before(r, i) else Before(r, k);
  }

  lemma RingFrame(w: Words, w': Words, r: seq<nat>)
    requires Ring(w, r)
    requires forall i :: 0 <= i < |r| ==> Get(w', r[i]) == Get(w, r[i]) && Get(w', r[i] + 8) == Get(w, r[i] + 8)
    ensures Ring(w', r)
  {
    forall i | 0 <= i < |r| ensures LinkOk(w', r, i) {
      assert LinkOk(w, r, i);
    }
  }

  // ---- the list operations -------------------------------------------------

  class Memory {
    var words: Words

    constructor (words: Words)
      ensures this.words == words
    {
      this.words := words;
    }

    method InitAt(n: nat)
      requires n != 0
      modifies this
      ensures words == old(words)[n := n][n + 8 := n] && Ring(words, [n])
    {
      words := words[n := n];
      words := words[n + 8 := n];
      assert LinkOk(words, [n], 0);
    }

    /** True exactly for null, uninitialised and one-node rings. */
    method ListEmpty(head: nat) returns (b: bool)
      ensures b <==> head == 0 || Prev(words, head) == 0 || Next(words, head) == 0 ||
                     (Next(words, head) == head && Prev(words, head) == head)
      ensures forall r :: Ring(words, r) && r[0] == head ==> (b <==> |r| == 1)
    {
      if head == 0 { b := true; }
      else if Prev(words, head) == 0 || Next(words, head) == 0 { b := true; }
      else { b := Next(words, head) == head && Prev(words, head) == head; }
      forall r | Ring(words, r) && r[0] == head ensures b <==> |r| == 1 {
        assert LinkOk(words, r, 0);
        if |r| > 1 { assert NodesApart(r[0], r[1]) && LinkOk(words, r, 1) && LinkOk(words, r, |r| - 1); }
      }
    }

    method ListInsert(x: nat, p: nat, n: nat, ghost r: seq<nat>, ghost i: nat)
      requires Ring(words, r) && i < |r| && r[i] == p && Succ(r, i) == n
      requires x != 0 && AwayFrom(x, r)
      modifies this
      ensures words == InsertWords(old(words), x, p, n) && Ring(words, InsertAfter(r, i, x))
    {
      RingInsert(words, r, i, x);
      words := words[p := x];
      words := words[n + 8 := x];
      words := words[x + 8 := p];
      words := words[x := n];
    }

    /** Insert right after the head. */
    method ListAdd(x: nat, head: nat, ghost r: seq<nat>)
      requires Ring(words, r) && r[0] == head && x != 0 && AwayFrom(x, r)
      modifies this
      ensures words == InsertWords(old(words), x, head, Next(old(words), head))
      ensures Ring(words, [head, x] + r[1..])
    {
      assert LinkOk(words, r, 0);
      ListInsert(x, head, Next(words, head), r, 0);
      assert InsertAfter(r, 0, x) == [head, x] + r[1..];
    }

    /** Insert right before the head, that is, at the tail. */
    method ListAppend(x: nat, head: nat, ghost r: seq<nat>)
      requires Ring(words, r) && r[0] == head && x != 0 && AwayFrom(x, r)
      modifies this
      ensures words == InsertWords(old(words), x, Prev(old(words), head), head)
      ensures Ring(words, r + [x])
    {
      assert LinkOk(words, r, 0);
      ListInsert(x, Prev(words, head), head, r, |r| - 1);
      assert InsertAfter(r, |r| - 1, x) == r + [x];
    }

    /** Unlink a node; it ends up as a one-node ring. */
    method ListRemove(x: nat, ghost r: seq<nat>, ghost i: nat)
      requires Ring(words, r) && i < |r| && r[i] == x
      modifies this
      ensures words == RemoveWords(old(words), x)
      ensures (|r| > 1 ==> Ring(words, DropAt(r, i))) && Ring(words, [x])
    {
      RingRemove(words, r, i);
      var p, n := Prev(words, x), Next(words, x);
      words := words[p := n];
      words := words[n + 8 := p];
      words := words[x := x];
      words := words[x + 8 := x];
    }

    /** Move a node to the front of a list, its own or another. */
    method ListMove(x: nat, head: nat, ghost r: seq<nat>, ghost i: nat, ghost target: seq<nat>)
      requires Ring(words, r) && 0 < i < |r| && r[i] == x
      requires Ring(words, target) && target[0] == head && (target == r || Apart(r + target))
      modifies this
      ensures var t := if target == r then DropAt(r, i) else target;
              Ring(words, [head, x] + t[1..])
      ensures target != r ==> Ring(words, DropAt(r, i))
    {
      ghost var w0 := words;
      ghost var t := if target == r then DropAt(r, i) else target;
      MoveApart(words, r, i, target);
      ListRemove(x, r, i);
      if target != r { RingFrame(w0, words, target); }
      ghost var w1 := words;
      ListAdd(x, head, t);
      if target != r {
        assert LinkOk(w1, target, 0);
        InsertElsewhere(w1, DropAt(r, i), x, target, 0);
      }
    }

    /** Move a node to the tail of a list, its own or another. */
    method ListMoveTail(x: nat, head: nat, ghost r: seq<nat>, ghost i: nat, ghost target: seq<nat>)
      requires Ring(words, r) && 0 < i < |r| && r[i] == x
      requires Ring(words, target) && target[0] == head && (target == r || Apart(r + target))
      modifies this
      ensures var t := if target == r then DropAt(r, i) else target;
              Ring(words, t + [x])
      ensures target != r ==> Ring(words, DropAt(r, i))
    {
      ghost var w0 := words;
      ghost var t := if target == r then DropAt(r, i) else target;
      MoveApart(words, r, i, target);
      ListRemove(x, r, i);
      if target != r { RingFrame(w0, words, target); }
      ghost var w1 := words;
      ListAppend(x, head, t);
      if target != r {
        AppendElsewhere(w1, DropAt(r, i), x, target);
      }
    }

    /**
      Safe iteration whose body may unlink the node it is at: every node is visited once, in order,
      and afterwards the ring holds exactly the nodes the body kept.
    */
    method VisitSafely(head: nat, keep: nat -> bool, ghost r: seq<nat>) returns (visited: seq<nat>)
      requires Ring(words, r) && r[0] == head
      modifies this
      ensures visited == r[1..] && Ring(words, [head] + Kept(r[1..], keep))
    {
      visited := [];
      assert LinkOk(words, r, 0);
      var pos := Next(words, head);
      ghost var ring := r;
      while pos != head
        invariant Visiting(r, visited, keep, ring) && Ring(words, ring) && pos == Succ(ring, |Kept(visited, keep)|)
        decreases |r| - |visited|
      {
        ghost var at := VisitAt(r, visited, keep, ring, pos);
        assert LinkOk(words, ring, at);
        var n := Next(words, pos);
        VisitStep(r, visited, pos, keep, ring);
        if !keep(pos) {
          ListRemove(pos, ring, at);
          ring := DropAt(ring, at);
        }
        visited := visited + [pos];
        pos := n;
      }
      AllVisited(r, visited, keep, ring);
    }
  }

  /** The nodes that were kept. */
  ghost function Kept(s: seq<nat>, keep: nat -> bool): (r: seq<nat>)
  {
    if s == [] then []
    else Kept(s[..|s| - 1], keep) + if keep(s[|s| - 1]) then [s[|s| - 1]] else []
  }

  lemma KeptNext(s: seq<nat>, x: nat, keep: nat -> bool)
    ensures Kept(s + [x], keep) == Kept(s, keep) + if keep(x) then [x] else []
  {
    assert (s + [x])[..|s|] == s;
  }

  /** Part of the ring has been visited: the ring is the head, the kept nodes and the nodes to come. */
  ghost predicate Visiting(r: seq<nat>, visited: seq<nat>, keep: nat -> bool, ring: seq<nat>)
  {
    && |visited| < |r| && visited == r[1..][..|visited|]
    && ring == [r[0]] + Kept(visited, keep) + r[1 + |visited|..]
  }

  lemma VisitAt(r: seq<nat>, visited: seq<nat>, keep: nat -> bool, ring: seq<nat>, pos: nat) returns (at: nat)
    requires Visiting(r, visited, keep, ring) && pos == Succ(ring, |Kept(visited, keep)|) && pos != r[0]
    ensures at == 1 + |Kept(visited, keep)| && 0 < at < |ring| && ring[at] == pos
    ensures |visited| + 1 < |r| && r[1 + |visited|] == pos
  {
    at := 1 + |Kept(visited, keep)|;
  }

  /** One visit: the ring after it is the head, the kept nodes and the nodes to come. */
  lemma VisitStep(r: seq<nat>, visited: seq<nat>, x: nat, keep: nat -> bool, ring: seq<nat>)
    requires Visiting(r, visited, keep, ring) && |visited| + 1 < |r| && r[1 + |visited|] == x
    ensures var at := 1 + |Kept(visited, keep)|;
            && at < |ring|
            && var ring' := if keep(x) then ring else DropAt(ring, at);
            && Visiting(r, visited + [x], keep, ring') && |Kept(visited + [x], keep)| < |ring'|
            && Succ(ring, at) == Succ(ring', |Kept(visited + [x], keep)|)
  {
    KeptNext(visited, x, keep);
    assert r[1 + |visited|..] == [x] + r[2 + |visited|..];
    var k, tail := Kept(visited, keep), r[2 + |visited|..];
    assert ring == [r[0]] + k + ([x] + tail);
    if keep(x) { KeepNode(r[0], k, x, tail); } else { DropNode(r[0], k, x, tail); }
  }

  lemma KeepNode(h: nat, k: seq<nat>, x: nat, tail: seq<nat>)
    ensures [h] + k + ([x] + tail) == [h] + (k + [x]) + tail
  {
  }

  lemma DropNode(h: nat, k: seq<nat>, x: nat, tail: seq<nat>)
    ensures DropAt([h] + k + ([x] + tail), 1 + |k|) == [h] + k + tail
    ensures Succ([h] + k + ([x] + tail), 1 + |k|) == Succ([h] + k + tail, |k|)
  {
  }

  /** The walk is back at the head only after the last node. */
  lemma AllVisited(r: seq<nat>, visited: seq<nat>, keep: nat -> bool, ring: seq<nat>)
    requires Visiting(r, visited, keep, ring) && Apart(ring) && Succ(ring, |Kept(visited, keep)|) == r[0]
    ensures visited == r[1..] && ring == [r[0]] + Kept(r[1..], keep)
  {
    var at := 1 + |Kept(visited, keep)|;
    assert at < |ring| ==> NodesApart(ring[0], ring[at]);
    assert |visited| == |r[1..]|;
  }

  /** A removal from one ring stays clear of a ring that is apart from it. */
  lemma MoveApart(w: Words, r: seq<nat>, i: nat, target: seq<nat>)
    requires Ring(w, r) && 0 < i < |r| && (target == r || Apart(r + target))
    ensures r[i] != 0 && AwayFrom(r[i], DropAt(r, i))
    ensures target != r ==> AwayFrom(r[i], target) && AwayFrom(Prev(w, r[i]), target) && AwayFrom(Next(w, r[i]), target)
    ensures target != r ==> forall j :: 0 <= j < |DropAt(r, i)| ==> AwayFrom(DropAt(r, i)[j], target)
  {
    assert LinkOk(w, r, i);
    if target != r {
      var t := r + target;
      forall j, k | 0 <= j < |r| && 0 <= k < |target| ensures NodesApart(r[j], target[k]) {
        assert t[j] == r[j] && t[|r| + k] == target[k];
      }
    }
  }

  /** An insertion into one ring leaves a ring that is apart from it alone. */
  lemma InsertElsewhere(w: Words, s: seq<nat>, x: nat, target: seq<nat>, i: nat)
    requires Ring(w, s) && Ring(w, target) && i < |target| && AwayFrom(x, s)
    requires forall j :: 0 <= j < |s| ==> AwayFrom(s[j], target)
    ensures Ring(InsertWords(w, x, target[i], Succ(target, i)), s)
  {
    forall j | 0 <= j < |s| ensures NodesApart(s[j], target[i]) && NodesApart(s[j], Succ(target, i)) && NodesApart(x, s[j]) {
      assert AwayFrom(s[j], target);
    }
    RingFrame(w, InsertWords(w, x, target[i], Succ(target, i)), s);
  }

  lemma AppendElsewhere(w: Words, s: seq<nat>, x: nat, target: seq<nat>)
    requires Ring(w, s) && Ring(w, target) && AwayFrom(x, s)
    requires forall j :: 0 <= j < |s| ==> AwayFrom(s[j], target)
    ensures Ring(InsertWords(w, x, Prev(w, target[0]), target[0]), s)
  {
    assert LinkOk(w, target, 0);
    InsertElsewhere(w, s, x, target, |target| - 1);
  }
}
