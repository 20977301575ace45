/** Definitions shared by all components. */
module Basics {
  /** Optional values, as in the source. */
  datatype Option<+T> = None | Some(value: T)

  type byte = x: int | 0 <= x < 256

  const PAGE_SIZE := 4096
  /** Where the kernel maps physical memory. */
  const KERNEL_VMA := 0xFFFF_8000_0000_0000

  function Min(a: nat, b: nat): (r: nat)
    ensures r <= a && r <= b && (r == a || r == b)
  {
    if a < b then a else b
  }

  function Max(a: nat, b: nat): (r: nat)
    ensures r >= a && r >= b && (r == a || r == b)
  {
    if a < b then b else a
  }

  function Zeros(n: nat): (r: seq<byte>)
    ensures |r| == n && forall i :: 0 <= i < n ==> r[i] == 0
  {
    seq(n, _ => 0)
  }

  /** No element occurs twice. */
  ghost predicate Distinct(l: seq<nat>)
  {
    forall i, j :: 0 <= i < j < |l| ==> l[i] != l[j]
  }

  /** The first position of an element. */
  function IndexOf(l: seq<nat>, x: nat): (j: nat)
    requires x in l
    ensures j < |l| && l[j] == x
    ensures x !in l[..j]
  {
    if l[0] == x then 0 else 1 + IndexOf(l[1..], x)
  }
}
