/** Two's-complement words and the few word-level helpers the signal code shares.
    A right shift of a signed word is Dafny's `/` by a positive power of two (floor). */
module FixedPoint {

  predicate IsInt16(x: int) { -32768 <= x <= 32767 }

  predicate IsInt32(x: int) { -0x8000_0000 <= x <= 0x7FFF_FFFF }

  /** The int16_t conversion. */
  function W16(x: int): (r: int)
    ensures IsInt16(r)
    ensures IsInt16(x) ==> r == x
  {
    if IsInt16(x) then x else (x + 0x8000) % 0x1_0000 - 0x8000
  }

  /** The int32_t conversion; also the reading of a signed overflow the code tolerates. */
  function W32(x: int): (r: int)
    ensures IsInt32(r)
    ensures IsInt32(x) ==> r == x
  {
    if IsInt32(x) then x else (x + 0x8000_0000) % 0x1_0000_0000 - 0x8000_0000
  }

  function Abs(x: int): nat { if x < 0 then -x else x }

  /** C's integer division, which truncates toward zero. */
  function TruncDiv(num: int, den: int): int
    requires den != 0
  {
    if (num < 0) == (den < 0) then Abs(num) / Abs(den) else -(Abs(num) / Abs(den))
  }

  /** WebRtcSpl_DivW32W16: division guarded against a zero denominator. */
  function DivW32W16(num: int, den: int): int {
    if den != 0 then TruncDiv(num, den) else 0x7FFF_FFFF
  }

  function Pow2(n: nat): (p: nat)
    ensures p > 0
  {
    if n == 0 then 1 else 2 * Pow2(n - 1)
  }

  lemma Pow2Monotone(m: nat, n: nat)
    requires m <= n
    ensures Pow2(m) <= Pow2(n)
  {
  }

  lemma Pow2Add(m: nat, n: nat)
    ensures Pow2(m + n) == Pow2(m) * Pow2(n)
  {
    if m > 0 {
      calc {
        Pow2(m + n);
        2 * Pow2((m - 1) + n);
        { Pow2Add(m - 1, n); }
        2 * (Pow2(m - 1) * Pow2(n));
        (2 * Pow2(m - 1)) * Pow2(n);
      }
    }
  }

  /** The number of bits of n: 32 less its leading zeros as a 32-bit word. */
  function BitLen(n: nat): (b: nat)
    ensures n == 0 <==> b == 0
    ensures n > 0 ==> Pow2(b - 1) <= n
    ensures n < Pow2(b)
  {
    if n == 0 then 0 else 1 + BitLen(n / 2)
  }

  /** WebRtcSpl_CountLeadingZeros32 on a 32-bit word. */
  function CountLeadingZeros(n: nat): int { 32 - BitLen(n) }

  /** WebRtcSpl_NormW32: how far a signed word can be shifted left; 0 for 0. */
  function NormW32(a: int): int {
    if a == 0 then 0 else CountLeadingZeros(if a < 0 then -a - 1 else a) - 1
  }

  // ---------------------------------------------------------------- division facts

  lemma DivLower(x: int, a: int, q: int)
    requires q > 0 && x * q <= a
    ensures x <= a / q
  {
    assert a < (a / q + 1) * q;
    MulCancel(x, a / q + 1, q);
  }

  lemma DivUpper(x: int, a: int, q: int)
    requires q > 0 && a < x * q
    ensures a / q < x
  {
  }

  lemma MulCancel(a: int, b: int, q: int)
    requires q > 0 && a * q < b * q
    ensures a < b
  {
  }

  lemma ScaleOrder(x: int, y: int, w: int)
    requires x <= y && w >= 0
    ensures x * w <= y * w
  {
  }

  lemma NonNegativeProduct(a: int, b: int)
    requires a >= 0 && b >= 0
    ensures a * b >= 0
  {
  }

  lemma DivBracket(a: int, p: int)
    requires p > 0
    ensures (a / p) * p <= a < (a / p + 1) * p
  {
  }

  lemma DivMonotone(a: nat, b: nat, p: nat, q: nat)
    requires a <= b && 0 < q <= p
    ensures 0 <= a / p <= b / q
  {
    DivLower(0, a, p);
    DivBracket(a, p);
    FactorOrder(a / p, q, p);
    DivLower(a / p, b, q);
  }

  lemma FactorOrder(x: nat, q: nat, p: nat)
    requires q <= p
    ensures x * q <= x * p
  {
  }

  lemma ProductBound(v: int, vMax: int, d: int, dMax: int)
    requires 0 <= v <= vMax && -dMax <= d <= dMax
    ensures -(vMax * dMax) <= v * d <= vMax * dMax
  {
  }
}
