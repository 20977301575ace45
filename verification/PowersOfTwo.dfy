/**
  Power-of-two arithmetic shared by the memory managers.

  Everything is defined by halving, so that every proof below is an induction
  over linear arithmetic. `AlignedIsModulo` and `ClearLowIsFloor` tie the
  definitions to the usual division-based readings.
*/
module PowersOfTwo {

  function Pow2(k: nat): (r: nat)
    ensures r >= 1
    ensures k > 0 ==> r % 2 == 0
  {
    if k == 0 then 1 else 2 * Pow2(k - 1)
  }

  /** The low `k` bits of `p` are all zero. */
  predicate Aligned(p: nat, k: nat)
    decreases k
  {
    k == 0 || (p % 2 == 0 && Aligned(p / 2, k - 1))
  }

  /** `x` with its low `k` bits cleared: `x & !((1 << k) - 1)`. */
  function ClearLow(x: nat, k: nat): (r: nat)
    decreases k
  {
    if k == 0 then x else 2 * ClearLow(x / 2, k - 1)
  }

  /** Bitwise exclusive or on naturals. */
  function Xor(a: nat, b: nat): (r: nat)
    decreases a + b
  {
    if a == 0 && b == 0 then 0
    else 2 * Xor(a / 2, b / 2) + (if a % 2 == b % 2 then 0 else 1)
  }

  /** `usize::trailing_zeros` on a 64-bit word. */
  function TrailingZeros(n: nat): (r: nat)
  {
    if n == 0 then 64 else if n % 2 == 1 then 0 else 1 + TrailingZeros(n / 2)
  }

  /** Position of the highest set bit: `BITS - 1 - leading_zeros`. */
  function FloorLog2(n: nat): (r: nat)
    requires n > 0
  {
    if n == 1 then 0 else 1 + FloorLog2(n / 2)
  }

  /** The other half of the order-`k+1` block that contains the order-`k` block at `p`. */
  function Buddy(p: nat, k: nat): (r: nat)
  {
    if Aligned(p, k + 1) then p + Pow2(k)
    else if p >= Pow2(k) then p - Pow2(k)
    else 0
  }

  // ---- alignment -------------------------------------------------------

  lemma {:induction false} AlignedIsModulo(p: nat, k: nat)
    ensures Aligned(p, k) <==> p % Pow2(k) == 0
    decreases k
  {
    if k > 0 {
      AlignedIsModulo(p / 2, k - 1);
      HalvedRemainder(p, Pow2(k - 1));
    }
  }

  lemma HalvedRemainder(p: nat, h: nat)
    requires h > 0
    ensures p % (2 * h) == 2 * ((p / 2) % h) + p % 2
  {
    var q, r := (p / 2) / h, (p / 2) % h;
    assert p / 2 == h * q + r;
    assert 2 * (h * q) == (2 * h) * q;
    RemainderUnique(p, 2 * h, q, 2 * r + p % 2);
  }

  lemma RemainderUnique(a: nat, b: nat, q: nat, r: nat)
    requires b > 0 && a == b * q + r && r < b
    ensures a / b == q && a % b == r
  {
    var d := a / b - q;
    assert a == b * (a / b) + a % b;
    assert b * d == b * (a / b) - b * q;
    MultipleBounds(b, d);
  }

  lemma MultipleBounds(b: int, d: int)
    requires b > 0
    ensures d >= 1 ==> b * d >= b
    ensures d <= -1 ==> b * d <= -b
  {
  }

  lemma {:induction false} AlignedZero(k: nat)
    ensures Aligned(0, k)
    decreases k
  {
    if k > 0 { AlignedZero(k - 1); }
  }

  lemma {:induction false} AlignedWeaken(p: nat, k: nat, j: nat)
    requires Aligned(p, k) && j <= k
    ensures Aligned(p, j)
    decreases j
  {
    if j > 0 { AlignedWeaken(p / 2, k - 1, j - 1); }
  }

  /** Distinct aligned addresses are a whole block apart. */
  lemma {:induction false} AlignedGap(p: nat, q: nat, k: nat)
    requires Aligned(p, k) && Aligned(q, k) && p < q
    ensures p + Pow2(k) <= q
    decreases k
  {
    if k > 0 { AlignedGap(p / 2, q / 2, k - 1); }
  }

  /** The end of an aligned block is aligned to every smaller order. */
  lemma {:induction false} AlignedTop(p: nat, o: nat, k: nat)
    requires Aligned(p, o) && k <= o
    ensures Aligned(p + Pow2(o), k)
    decreases k
  {
    if k > 0 {
      AlignedTop(p / 2, o - 1, k - 1);
      assert (p + Pow2(o)) / 2 == p / 2 + Pow2(o - 1);
    }
  }

  lemma {:induction false} Pow2Monotone(j: nat, k: nat)
    requires j <= k
    ensures Pow2(j) <= Pow2(k)
    decreases k - j
  {
    if j < k { Pow2Monotone(j, k - 1); }
  }

  /** The two powers the page and chunk sizes are made of. */
  lemma ChunkPowers()
    ensures Pow2(10) == 1024 && Pow2(22) == 4194304
  {
    assert Pow2(10) == 1024;
    assert Pow2(12) == 4096;
    assert Pow2(14) == 16384;
    assert Pow2(16) == 65536;
    assert Pow2(18) == 262144;
    assert Pow2(20) == 1048576;
  }

  // ---- buddies ---------------------------------------------------------

  /** Everything the allocator relies on about the buddy of an aligned block. */
  lemma {:induction false} BuddyFacts(p: nat, k: nat)
    requires Aligned(p, k)
    ensures Aligned(p, k + 1) <==> Buddy(p, k) == p + Pow2(k)
    ensures !Aligned(p, k + 1) ==> p >= Pow2(k) && Buddy(p, k) == p - Pow2(k)
    ensures Aligned(Buddy(p, k), k)
    ensures Buddy(Buddy(p, k), k) == p
    ensures Aligned(if p < Buddy(p, k) then p else Buddy(p, k), k + 1)
    decreases k
  {
    if k == 0 {
      if p % 2 == 1 { assert Aligned(p - 1, 1); }
    } else {
      BuddyFacts(p / 2, k - 1);
      var h := Pow2(k - 1);
      assert Pow2(k) == 2 * h;
      assert Aligned(p, k + 1) <==> Aligned(p / 2, k);
      if Aligned(p, k + 1) {
        assert (p + 2 * h) / 2 == p / 2 + h;
      } else {
        assert p / 2 >= h;
        assert (p - 2 * h) / 2 == p / 2 - h;
      }
    }
  }

  lemma {:induction false} XorZero(a: nat)
    ensures Xor(a, 0) == a
  {
    if a > 0 { XorZero(a / 2); }
  }

  /** `pfn ^ (1 << k)` on an aligned frame number is plus or minus `2^k`. */
  lemma {:induction false} XorIsBuddy(p: nat, k: nat)
    requires Aligned(p, k)
    ensures Xor(p, Pow2(k)) == Buddy(p, k)
    decreases k
  {
    BuddyFacts(p, k);
    if k == 0 {
      XorZero(p / 2);
      assert Pow2(0) / 2 == 0;
      assert Aligned(p, 1) <==> p % 2 == 0;
    } else {
      XorIsBuddy(p / 2, k - 1);
      BuddyFacts(p / 2, k - 1);
      assert Pow2(k) / 2 == Pow2(k - 1);
      assert Aligned(p, k + 1) <==> Aligned(p / 2, k);
    }
  }

  /** The buddy, as computed by exclusive or, is the neighbour that completes the block of the next order. */
  lemma XorCompletes(p: nat, k: nat)
    requires Aligned(p, k)
    ensures var b := Xor(p, Pow2(k));
            && b == Buddy(p, k) && Aligned(b, k) && (b == p + Pow2(k) || b + Pow2(k) == p)
            && Aligned(if p < b then p else b, k + 1) && Pow2(k + 1) == Pow2(k) + Pow2(k)
  {
    BuddyFacts(p, k);
    XorIsBuddy(p, k);
  }

  /** The low half of a larger block has its buddy right above it. */
  lemma XorUpperHalf(p: nat, k: nat, o: nat)
    requires Aligned(p, o) && k < o
    ensures Xor(p, Pow2(k)) == p + Pow2(k) && Aligned(p + Pow2(k), k)
  {
    AlignedWeaken(p, o, k + 1);
    AlignedWeaken(p, o, k);
    BuddyFacts(p, k);
    XorIsBuddy(p, k);
  }

  // ---- rounding --------------------------------------------------------

  lemma {:induction false} ClearLowFacts(x: nat, k: nat)
    ensures ClearLow(x, k) <= x < ClearLow(x, k) + Pow2(k)
    ensures Aligned(ClearLow(x, k), k)
    decreases k
  {
    if k > 0 { ClearLowFacts(x / 2, k - 1); }
  }

  /** `ClearLow` is the greatest aligned number not above `x`. */
  lemma {:induction false} ClearLowGreatest(p: nat, x: nat, k: nat)
    requires Aligned(p, k) && p <= x
    ensures p <= ClearLow(x, k)
    ensures x < p + Pow2(k) ==> ClearLow(x, k) == p
  {
    ClearLowFacts(x, k);
    if ClearLow(x, k) < p { AlignedGap(ClearLow(x, k), p, k); }
    if p < ClearLow(x, k) { AlignedGap(p, ClearLow(x, k), k); }
  }

  lemma {:induction false} ClearLowMonotone(x: nat, y: nat, k: nat)
    requires x <= y
    ensures ClearLow(x, k) <= ClearLow(y, k)
    decreases k
  {
    if k > 0 { ClearLowMonotone(x / 2, y / 2, k - 1); }
  }

  lemma {:induction false} ClearLowShift(c: nat, x: nat, k: nat)
    requires Aligned(c, k)
    ensures ClearLow(c + x, k) == c + ClearLow(x, k)
    decreases k
  {
    if k > 0 {
      ClearLowShift(c / 2, x / 2, k - 1);
      assert (c + x) / 2 == c / 2 + x / 2;
    }
  }

  lemma {:induction false} ClearLowIsFloor(x: nat, k: nat)
    ensures ClearLow(x, k) == x - x % Pow2(k)
    decreases k
  {
    if k > 0 {
      ClearLowIsFloor(x / 2, k - 1);
      HalvedRemainder(x, Pow2(k - 1));
    }
  }

  // ---- bit counts ------------------------------------------------------

  /** A non-zero number is aligned to exactly the orders up to its trailing zeros. */
  lemma {:induction false} TrailingZerosIsAlignment(n: nat, k: nat)
    requires n > 0
    ensures Aligned(n, k) <==> k <= TrailingZeros(n)
    decreases k
  {
    if k > 0 && n % 2 == 0 { TrailingZerosIsAlignment(n / 2, k - 1); }
  }

  lemma {:induction false} FloorLog2Facts(n: nat)
    requires n > 0
    ensures Pow2(FloorLog2(n)) <= n < Pow2(FloorLog2(n) + 1)
  {
    if n > 1 { FloorLog2Facts(n / 2); }
  }

  /** Shifting left by a page: page addresses inherit the alignment of their frame numbers. */
  lemma TrailingZerosOfPage(pfn: nat)
    requires pfn > 0
    ensures TrailingZeros(pfn * 4096) == TrailingZeros(pfn) + 12
  {
    TrailingZerosTimes16(pfn);
    TrailingZerosTimes16(pfn * 16);
    TrailingZerosTimes16(pfn * 256);
  }

  lemma TrailingZerosTimes16(n: nat)
    requires n > 0
    ensures TrailingZeros(n * 16) == TrailingZeros(n) + 4
  {
    var n2 := n * 2;
    var n4 := n2 * 2;
    var n8 := n4 * 2;
    TrailingZerosDouble(n);
    TrailingZerosDouble(n2);
    TrailingZerosDouble(n4);
    TrailingZerosDouble(n8);
  }

  lemma TrailingZerosDouble(n: nat)
    requires n > 0
    ensures TrailingZeros(n * 2) == TrailingZeros(n) + 1
  {
    assert n * 2 / 2 == n;
  }
}
