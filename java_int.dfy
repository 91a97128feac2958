/**
 * Java's 32-bit int arithmetic where the core relies on it: two's-complement
 * wrap-around, Integer.highestOneBit and a left shift by one.
 */
module JavaInt {
  const INT_MIN: int := -0x8000_0000
  const INT_MAX: int := 0x7fff_ffff

  predicate IsInt(x: int)
  {
    INT_MIN <= x <= INT_MAX
  }

  /** The int that Java arithmetic yields for the exact value x. */
  function Int32(x: int): (r: int)
    ensures IsInt(r)
    ensures (x - r) % 0x1_0000_0000 == 0
    ensures IsInt(x) ==> r == x
  {
    (x - INT_MIN) % 0x1_0000_0000 + INT_MIN
  }

  /** Adding a multiple of 2^32 changes no int. */
  lemma Int32Periodic(x: int, q: int)
    ensures Int32(x + q * 0x1_0000_0000) == Int32(x)
  {
    var m := 0x1_0000_0000;
    var r := (x - INT_MIN) % m;
    var d := (x - INT_MIN) / m;
    assert x - INT_MIN == d * m + r;
    assert x + q * m - INT_MIN == (d + q) * m + r;
  }

  /** An int sum may wrap at every step or only at the end: the result is the same. */
  lemma Int32Add(a: int, b: int)
    ensures Int32(Int32(a) + b) == Int32(a + b)
  {
    var m := 0x1_0000_0000;
    var q := (a - INT_MIN) / m;
    assert Int32(a) == a - q * m;
    Int32Periodic(Int32(a) + b, q);
  }

  function Pow2(k: nat): (r: int)
    ensures r >= 1
  {
    if k == 0 then 1 else 2 * Pow2(k - 1)
  }

  lemma {:induction false} Pow2Add(a: nat, b: nat)
    ensures Pow2(a + b) == Pow2(a) * Pow2(b)
  {
    if a > 0 {
      Pow2Add(a - 1, b);
    }
  }

  lemma Pow2Thirty()
    ensures Pow2(30) == 0x4000_0000 && Pow2(31) == 0x8000_0000
  {
    assert Pow2(10) == 1024;
    Pow2Add(10, 10);
    Pow2Add(20, 10);
  }

  /** The largest power of two not above x. */
  function Pow2Floor(x: int): (r: int)
    requires x > 0
    ensures 0 < r <= x < 2 * r
    decreases x
  {
    if x == 1 then 1 else 2 * Pow2Floor(x / 2)
  }

  /** Between 2^k and 2^(k+1) the largest power of two is 2^k. */
  lemma {:induction false} Pow2FloorIs(x: int, k: nat)
    requires Pow2(k) <= x < Pow2(k + 1)
    ensures Pow2Floor(x) == Pow2(k)
  {
    if k > 0 {
      Pow2FloorIs(x / 2, k - 1);
    }
  }

  /** Integer.highestOneBit: 0 for 0, the sign bit (MIN_VALUE) for a negative value. */
  function HighestOneBit(x: int): (r: int)
    requires IsInt(x)
    ensures x == 0 ==> r == 0
    ensures x < 0 ==> r == INT_MIN
    ensures x > 0 ==> 0 < r <= x < 2 * r
  {
    if x < 0 then INT_MIN else if x == 0 then 0 else Pow2Floor(x)
  }

  /** x << 1 on an int. */
  function ShiftLeft1(x: int): (r: int)
    requires IsInt(x)
    ensures IsInt(r)
  {
    Int32(2 * x)
  }

  /** Below 2^30, doubling the highest one bit gives the next power of two above x. */
  lemma DoubledHighestBit(x: int)
    requires 0 < x < 0x4000_0000
    ensures ShiftLeft1(HighestOneBit(x)) == 2 * HighestOneBit(x) > x
  {
  }

  /** From 2^30 to MAX_VALUE the doubled highest one bit wraps to MIN_VALUE. */
  lemma DoubledHighestBitWraps(x: int)
    requires 0x4000_0000 <= x <= INT_MAX
    ensures ShiftLeft1(HighestOneBit(x)) == INT_MIN
  {
    Pow2Thirty();
    Pow2FloorIs(x, 30);
  }
}
