/** The restoring division of division_operations.c (WebRtcSpl_DivResultInQ31). */
module Division {
  import opened FixedPoint

  /** The quotient in Q31, truncated toward zero. */
  function Q31(num: int, den: int): int
    requires den != 0
  {
    var q := Abs(num) * 0x8000_0000 / Abs(den);
    if (num < 0) == (den < 0) then q else -q
  }

  /** What the loop holds: the quotient so far and the remainder. */
  datatype Held = Held(div: nat, rem: nat)

  /** One round: double both, and subtract once if it fits. */
  function Round(h: Held, den: nat): Held {
    if 2 * h.rem >= den then Held(2 * h.div + 1, 2 * h.rem - den) else Held(2 * h.div, 2 * h.rem)
  }

  /** What is held after n rounds. */
  function Rounds(num: nat, den: nat, n: nat): Held {
    if n == 0 then Held(0, num) else Round(Rounds(num, den, n - 1), den)
  }

  lemma RoundKeeps(div: nat, rem: nat, den: nat, num: nat, p: nat)
    requires div * den + rem == num * p && rem < den
    ensures
      var h := Round(Held(div, rem), den);
      h.div * den + h.rem == num * (2 * p) && h.rem < den
  {
    assert (2 * div + 1) * den == 2 * (div * den) + den;
    assert (2 * div) * den == 2 * (div * den);
    assert num * (2 * p) == 2 * (num * p);
  }

  /** The invariant of the loop: quotient and remainder are those of num * 2^n. */
  lemma {:induction false} RoundsDivide(num: nat, den: nat, n: nat)
    requires num < den
    ensures
      var h := Rounds(num, den, n);
      h.div * den + h.rem == num * Pow2(n) && h.rem < den && h.div < Pow2(n)
  {
    hide Round;
    if n > 0 {
      RoundsDivide(num, den, n - 1);
      var h := Rounds(num, den, n - 1);
      RoundKeeps(h.div, h.rem, den, num, Pow2(n - 1));
    }
    var h := Rounds(num, den, n);
    QuotientBound(h.div, h.rem, den, num, Pow2(n));
  }

  lemma QuotientIsUnique(div: nat, rem: nat, den: nat, x: nat)
    requires rem < den && div * den + rem == x
    ensures x / den == div
  {
    assert (div + 1) * den == div * den + den;
    DivLower(div, x, den);
    DivUpper(div + 1, x, den);
  }

  lemma QuotientBound(div: nat, rem: nat, den: nat, num: nat, p: nat)
    requires div * den + rem == num * p && num < den && p > 0
    ensures div < p
  {
  }

  /** Neither the doubled remainder nor the next quotient leaves 32 bits in the round after n rounds. */
  predicate RoundFits(num: nat, den: nat, n: nat) {
    var h := Rounds(num, den, n);
    IsInt32(2 * h.rem) && IsInt32(2 * h.div + 1)
  }

  /** No value held in any of the 31 rounds leaves 32 bits. */
  lemma EveryRoundFits(num: nat, den: nat, n: nat)
    requires num < den <= 0x4000_0000 && n < 31
    ensures RoundFits(num, den, n)
  {
    hide Rounds, Pow2;
    RoundsDivide(num, den, n);
    PowersOfTwo(n);
  }

  /** The bound on the denominator is exact: every round fits for all numerators below the denominator, if and only
      if the denominator is at most 2^30. */
  lemma BoundIsExact(den: nat)
    ensures (forall num: nat, n: nat | num < den && n < 31 :: RoundFits(num, den, n)) <==> den <= 0x4000_0000
  {
    hide RoundFits;
    if den <= 0x4000_0000 {
      forall num: nat, n: nat | num < den && n < 31 ensures RoundFits(num, den, n) {
        EveryRoundFits(num, den, n);
      }
    } else {
      FirstRoundOverflows(den);
    }
  }

  lemma FirstRoundOverflows(den: nat)
    ensures !RoundFits(0x4000_0000, den, 0)
  {
  }

  /** The loop, on magnitudes. */
  method DivideMagnitudes(num: nat, den: nat) returns (div: nat)
    requires num < den <= 0x4000_0000
    ensures div == num * 0x8000_0000 / den && div == Rounds(num, den, 31).div
    ensures forall n: nat | n < 31 :: RoundFits(num, den, n)
  {
    hide Pow2, RoundFits;
    forall n: nat | n < 31 ensures RoundFits(num, den, n) {
      EveryRoundFits(num, den, n);
    }
    var numL: nat := num;
    div := 0;
    var k := 31;
    while k > 0
      invariant 0 <= k <= 31 && Held(div, numL) == Rounds(num, den, 31 - k)
    {
      div := 2 * div;
      numL := 2 * numL;
      if numL >= den {
        div := div + 1;
        numL := numL - den;
      }
      k := k - 1;
    }
    RoundsDivide(num, den, 31);
    PowersOfTwo(31);
    QuotientIsUnique(div, numL, den, num * 0x8000_0000);
  }

  /** For |num| < |den| <= 2^30 the result is the exact quotient. */
  method DivResultInQ31(num: int, den: int) returns (div: int)
    requires Abs(num) < Abs(den) <= 0x4000_0000
    ensures div == Q31(num, den)
  {
    var numL, denL := num, den;
    var changeSign := 0;
    if num == 0 {
      ZeroQuotient(den);
      return 0;
    }
    if num < 0 {
      changeSign := changeSign + 1;
      numL := -num;
    }
    if den < 0 {
      changeSign := changeSign + 1;
      denL := -den;
    }
    assert numL == Abs(num) && denL == Abs(den);
    hide Abs;
    div := DivideMagnitudes(numL, denL);
    if changeSign == 1 {
      div := -div;
    }
  }

  lemma ZeroQuotient(den: int)
    requires den != 0
    ensures Q31(0, den) == 0
  {
  }

  lemma PowersOfTwo(n: nat)
    requires n <= 31
    ensures Pow2(0) == 1 && Pow2(n + 1) == 2 * Pow2(n) && Pow2(31) == 0x8000_0000
    ensures n < 31 ==> Pow2(n) <= 0x4000_0000
  {
    Billion();
    assert Pow2(31) == 2 * Pow2(30);
    if n < 31 {
      hide Pow2;
      Pow2Monotone(n, 30);
    }
  }

  lemma Billion()
    ensures Pow2(30) == 0x4000_0000
  {
    assert Pow2(5) == 32;
    Pow2Add(5, 5);
    Pow2Add(10, 10);
    Pow2Add(20, 10);
  }

  /** What the quotient means: it is the greatest fraction of the form q / 2^31 not above
      |num| / |den|, with the sign of num / den. */
  lemma Q31IsNearestBelow(num: int, den: int)
    requires Abs(num) < Abs(den)
    ensures var q := Abs(Q31(num, den));
            && q * Abs(den) <= Abs(num) * 0x8000_0000 < (q + 1) * Abs(den)
            && q < 0x8000_0000
    ensures Q31(num, den) < 0 ==> (num < 0) != (den < 0)
    ensures Q31(num, den) > 0 ==> (num < 0) == (den < 0)
  {
    var x, d := Abs(num) * 0x8000_0000, Abs(den);
    DivLower(0, x, d);
    DivBracket(x, d);
    DivUpper(0x8000_0000, x, d);
  }
}
