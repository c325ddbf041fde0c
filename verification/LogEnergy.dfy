/** LogOfEnergy of vad_filterbank.c: a band of samples becomes a feature, and the energy
    indicator that gates the voice-activity decision is kept. */
module LogEnergy {
  import opened FixedPoint
  import opened EnergyScaling

  /** The energy of a band, and the shift it was taken at. */
  function BandShift(v: seq<int>): nat { Scaling(Largest(v), |v|) }

  /** The 32-bit sum, read as an unsigned word. */
  function BandEnergy(v: seq<int>): nat { Sum(v, BandShift(v)) % 0x1_0000_0000 }

  lemma EnergyIsSum(v: seq<int>)
    requires NoMinimum(v) && |v| < 0x8000_0000
    ensures BandEnergy(v) == Sum(v, BandShift(v))
  {
    hide Sum, Scaling, Largest;
    EnergyFits(v);
  }

  /** How far the energy is shifted right to be left with fifteen bits; left if negative. */
  function Normalizing(e: nat): int { 17 - CountLeadingZeros(e) }

  /** The energy with fifteen bits. */
  function Normalized(e: nat): nat {
    if Normalizing(e) < 0 then e * Pow2(-Normalizing(e)) else Shr(e, Normalizing(e))
  }

  /** 10 log10 of the energy in Q4, before the offset. */
  function Decibels(e: nat, shift: nat): int {
    var tot := shift + Normalizing(e);
    var log2 := W16(LOG_ENERGY_INT_PART + W16(Normalized(e) % 0x4000 / 16));
    var log := W16(LOG_CONST * log2 / 0x8_0000 + tot * LOG_CONST / 512);
    if log < 0 then 0 else log
  }

  function Feature(v: seq<int>, offset: int): int {
    if BandEnergy(v) == 0 then offset else W16(Decibels(BandEnergy(v), BandShift(v)) + offset)
  }

  /** The energy indicator after a band. */
  function Indicator(v: seq<int>, total: int): int {
    var e := BandEnergy(v);
    var tot := BandShift(v) + Normalizing(e);
    if e == 0 || total > MIN_ENERGY then total
    else if tot >= 0 then W16(total + (MIN_ENERGY + 1))
    else W16(total + W16(Shr(Normalized(e), -tot)))
  }

  function U32(x: int): (r: nat)
    ensures r < 0x1_0000_0000
    ensures 0 <= x < 0x1_0000_0000 ==> r == x
  {
    x % 0x1_0000_0000
  }

  /** What Energy returns, read as unsigned, is the energy of the band. */
  lemma BandIs(v: seq<int>, en: int, shift: nat)
    requires shift == Scaling(Largest(v), |v|) && en == W32(Sum(v, shift))
    ensures U32(en) == BandEnergy(v) && shift == BandShift(v)
  {
    hide Scaling, Largest, Sum;
  }

  lemma NormalizedIs(e: nat)
    ensures Normalized(e) == if Normalizing(e) < 0 then e * Pow2(-Normalizing(e)) else Shr(e, Normalizing(e))
  {
  }

  method LogOfEnergy(v: seq<int>, offset: int, totalEnergy: int) returns (logEnergy: int, total: int)
    requires Words(v)
    ensures logEnergy == Feature(v, offset)
    ensures total == Indicator(v, totalEnergy)
  {
    hide Scaling, Largest, Sum, W16, BitLen, Pow2, Shr, U32, W32, BandEnergy, BandShift, CountLeadingZeros, Normalized;
    total := totalEnergy;
    var en, totRshifts := Energy(v);
    var energy := U32(en);
    BandIs(v, en, totRshifts);
    if energy == 0 {
      logEnergy := offset;
      return;
    }
    var normalizingRshifts := 17 - CountLeadingZeros(energy);
    var log2Energy := LOG_ENERGY_INT_PART;
    var tot := totRshifts + normalizingRshifts;
    var e := energy;
    NormalizedIs(energy);
    if normalizingRshifts < 0 {
      NonNegativeProduct(e, Pow2(-normalizingRshifts));
      e := e * Pow2(-normalizingRshifts);
    } else {
      e := Shr(e, normalizingRshifts);
    }
    assert e == Normalized(energy);
    log2Energy := W16(log2Energy + W16(e % 0x4000 / 16));
    logEnergy := W16(LOG_CONST * log2Energy / 0x8_0000 + tot * LOG_CONST / 512);
    if logEnergy < 0 {
      logEnergy := 0;
    }
    logEnergy := W16(logEnergy + offset);
    if total <= MIN_ENERGY {
      if tot >= 0 {
        total := W16(total + (MIN_ENERGY + 1));
      } else {
        total := W16(total + W16(Shr(e, -tot)));
      }
    }
  }

  // ---------------------------------------------------------------- normalisation

  lemma BitLenBrackets(e: nat)
    requires e > 0
    ensures Pow2(BitLen(e) - 1) <= e < Pow2(BitLen(e))
  {
  }

  /** The normalised energy has exactly fifteen bits. */
  lemma NormalizedHasFifteenBits(e: nat)
    requires e > 0
    ensures 0x4000 <= Normalized(e) < 0x8000
  {
    Powers();
    var b, n := BitLen(e), Normalizing(e);
    hide Pow2, Shr, BitLen;
    BitLenBrackets(e);
    if n < 0 {
      Pow2Add(b - 1, -n);
      Pow2Add(b, -n);
      ScaleStrictly(Pow2(b - 1), e, Pow2(b), Pow2(-n));
    } else {
      Pow2Add(14, n);
      Pow2Add(15, n);
      ShrBrackets(e, n, Pow2(14), Pow2(15));
    }
  }

  lemma ScaleStrictly(lo: nat, x: nat, hi: nat, p: nat)
    requires lo <= x < hi && p > 0
    ensures lo * p <= x * p < hi * p
  {
  }

  lemma ScaleUp(x: nat, y: nat, p: nat)
    requires x <= y
    ensures x * p <= y * p
  {
  }

  lemma ShrBrackets(x: nat, s: nat, lo: nat, hi: nat)
    requires lo * Pow2(s) <= x < hi * Pow2(s)
    ensures lo <= Shr(x, s) < hi
  {
    hide Pow2, Shr;
    var r, p := Shr(x, s), Pow2(s);
    MulCancel(lo, r + 1, p);
    MulCancel(r, hi, p);
  }

  // ---------------------------------------------------------------- the range of a feature

  /** Scaled back, the energy is at most the number of samples times 2^30. */
  lemma {:induction false} ScaledBack(v: seq<int>, shift: nat)
    requires Words(v)
    ensures Sum(v, shift) * Pow2(shift) <= |v| * 0x4000_0000
  {
    hide Pow2, Shr, Square;
    if v == [] {
      assert Sum(v, shift) == 0;
    } else {
      var rest, x := v[..|v| - 1], v[|v| - 1];
      ScaledBack(rest, shift);
      assert Square(x) <= 0x4000_0000 by { SquareOrder(x, 32768); }
      Distribute(Sum(rest, shift), Shr(Square(x), shift), Pow2(shift));
    }
  }

  lemma Distribute(a: nat, b: nat, p: nat)
    ensures (a + b) * p == a * p + b * p
  {
  }

  /** The total shift is at most fifteen more than the bits of the band length. */
  lemma TotalShiftBound(v: seq<int>, lengthBits: nat)
    requires Words(v) && |v| < Pow2(lengthBits) && BandEnergy(v) > 0
    ensures BandShift(v) + Normalizing(BandEnergy(v)) <= 15 + lengthBits
  {
    var e, s := BandEnergy(v), BandShift(v);
    var b := BitLen(e);
    hide Pow2, Shr, BitLen, Scaling, Largest, Sum;
    Powers();
    BitLenBrackets(e);
    ScaledBack(v, s);
    Pow2Add(b - 1, s);
    Pow2Add(lengthBits, 30);
    ScaleStrictly(Pow2(b - 1), e, e + 1, Pow2(s));
    ScaleUp(e, Sum(v, s), Pow2(s));
    assert Pow2(b - 1 + s) < Pow2(lengthBits + 30) by {
      assert |v| * 0x4000_0000 < Pow2(lengthBits) * 0x4000_0000;
    }
    PowerOrder(b - 1 + s, lengthBits + 30);
  }

  lemma PowerOrder(a: nat, b: nat)
    requires Pow2(a) < Pow2(b)
    ensures a < b
  {
  }

  lemma DecibelsBound(e: nat, shift: nat, maxShift: nat)
    requires e > 0 && shift + Normalizing(e) <= maxShift <= 21
    ensures 0 <= Decibels(e, shift) <= 722 + maxShift * LOG_CONST / 512
  {
  }

  /** The three lengths and offsets with which CalculateFeatures calls LogOfEnergy: a sixteenth, an
      eighth or a quarter of a frame of at most 240 samples. */
  predicate BandOf(length: nat, offset: int) {
    || (length <= 15 && offset == 368)
    || (length <= 30 && offset == 272)
    || (length <= 60 && offset == 176)
  }

  /** Every feature lies between its offset and 2047, so eight times it is a word. */
  lemma FeatureRange(v: seq<int>, offset: int)
    requires Words(v) && BandOf(|v|, offset)
    ensures offset <= Feature(v, offset) <= 2047
    ensures IsInt16(Feature(v, offset) * 8)
  {
    var e, s := BandEnergy(v), BandShift(v);
    if e > 0 {
      Powers();
      var bits := if |v| <= 15 then 4 else if |v| <= 30 then 5 else 6;
      TotalShiftBound(v, bits);
      DecibelsBound(e, s, 15 + bits);
      hide Decibels, BandEnergy, BandShift;
    }
  }

  // ---------------------------------------------------------------- the energy indicator

  /** The energy of a band in Q0. */
  function Power(v: seq<int>): nat { BandEnergy(v) * Pow2(BandShift(v)) }

  /** Up to the threshold a band adds its energy scaled back, or passes the threshold when that does; past it the
      indicator stays. */
  lemma IndicatorAddsPower(v: seq<int>, total: int)
    requires 0 <= total <= 32000
    ensures var next := Indicator(v, total);
            && total <= next <= 32000
            && if total > MIN_ENERGY then next == total
               else next == total + Power(v) || (next > MIN_ENERGY && total + Power(v) > MIN_ENERGY)
  {
    Powers();
    var e, s := BandEnergy(v), BandShift(v);
    var n := Normalizing(e);
    hide Pow2, Shr, BitLen, Scaling, Largest, Sum;
    assert Pow2(s) > 0;
    if e > 0 && total <= MIN_ENERGY {
      BitLenBrackets(e);
      var b := BitLen(e);
      if s + n >= 0 {
        Pow2Add(b - 1, s);
        Pow2Monotone(14, b - 1 + s);
        ScaleStrictly(Pow2(b - 1), e, e + 1, Pow2(s));
      } else {
        BackToQ0(e, s, -n);
        Pow2Add(b, s);
        Pow2Monotone(b + s, 14);
        ScaleStrictly(0, e, Pow2(b), Pow2(s));
      }
    } else if e == 0 {
      assert Power(v) == 0;
    }
  }

  /** The indicator after the bands of a frame, starting from 0. */
  function TotalEnergy(bands: seq<seq<int>>): int {
    if bands == [] then 0 else Indicator(bands[|bands| - 1], TotalEnergy(bands[..|bands| - 1]))
  }

  /** The sum of the squares of a band. */
  function Squares(v: seq<int>): nat {
    if v == [] then 0 else Squares(v[..|v| - 1]) + Square(v[|v| - 1])
  }

  function TotalSquares(bands: seq<seq<int>>): nat {
    if bands == [] then 0 else TotalSquares(bands[..|bands| - 1]) + Squares(bands[|bands| - 1])
  }

  lemma {:induction false} UnshiftedSum(v: seq<int>)
    ensures Sum(v, 0) == Squares(v)
  {
    if v != [] {
      UnshiftedSum(v[..|v| - 1]);
      ShrByZero(Square(v[|v| - 1]));
    }
  }

  lemma {:induction false} LargestIsThere(v: seq<int>)
    requires NoMinimum(v) && v != []
    ensures exists i :: 0 <= i < |v| && Abs(v[i]) == Largest(v)
  {
    var front := v[..|v| - 1];
    if front != [] && Largest(front) >= Magnitude(v[|v| - 1]) {
      LargestIsThere(front);
      var i :| 0 <= i < |front| && Abs(front[i]) == Largest(front);
      assert Abs(v[i]) == Largest(v);
    } else {
      assert Abs(v[|v| - 1]) == Largest(v);
    }
  }

  lemma {:induction false} SumHolds(v: seq<int>, shift: nat, i: nat)
    requires i < |v|
    ensures Sum(v, shift) >= Shr(Square(v[i]), shift)
    ensures Squares(v) >= Square(v[i])
  {
    hide Shr, Square;
    if i < |v| - 1 {
      SumHolds(v[..|v| - 1], shift, i);
    }
  }

  /** Fewer than 64 squares are only shifted if the largest is at least 2^25, and then by five bits at most. */
  lemma ShiftedIsLoud(v: seq<int>)
    requires NoMinimum(v) && 0 < |v| < 64 && BandShift(v) > 0
    ensures Largest(v) * Largest(v) >= Pow2(25) && BandShift(v) <= 5
  {
    hide Pow2, BitLen, Largest;
    LargestIsLargest(v, 0);
    var m := Largest(v);
    Powers();
    BitLenBound(|v|, 6);
    SquareOrder(m, 32767);
    var q: nat := Square(m);
    BitLenBound(q, 30);
    if q < Pow2(25) {
      BitLenBound(q, 25);
    }
  }

  /** The energy of a short band scaled back is the sum of its squares, or both are far above the threshold. */
  lemma PowerIsSquares(v: seq<int>)
    requires NoMinimum(v) && |v| < 64
    ensures Power(v) == Squares(v) || (Power(v) > MIN_ENERGY && Squares(v) > MIN_ENERGY)
  {
    hide Pow2, Shr, Largest, Sum, Scaling, Square, Squares, BandShift;
    EnergyIsSum(v);
    var s := BandShift(v);
    if s == 0 {
      UnshiftedSum(v);
      PowerOfZero();
    } else {
      LoudPower(v);
    }
  }

  lemma PowerOfZero()
    ensures Pow2(0) == 1
  {
  }

  lemma LoudPower(v: seq<int>)
    requires NoMinimum(v) && |v| < 64 && BandShift(v) > 0
    ensures Power(v) > MIN_ENERGY && Squares(v) > MIN_ENERGY
  {
    hide Pow2, Shr, Largest, Sum, Square, Squares, BandShift, Scaling;
    EnergyIsSum(v);
    EmptyBand();
    var s := BandShift(v);
    ShiftedIsLoud(v);
    LargestIsThere(v);
    var i :| 0 <= i < |v| && Abs(v[i]) == Largest(v);
    SumHolds(v, s, i);
    var q := Square(v[i]);
    assert q == Largest(v) * Largest(v) by { SquareOfAbs(v[i]); }
    Pow2Add(5, 20);
    Powers();
    Pow2Monotone(s, 5);
    Pow2Monotone(4, 20);
    DivMonotone(Pow2(25), q, Pow2(5), Pow2(s));
    assert Pow2(25) / Pow2(5) == Pow2(20) by {
      DivLower(Pow2(20), Pow2(25), Pow2(5));
      DivUpper(Pow2(20) + 1, Pow2(25), Pow2(5));
    }
    ShrIsDiv(q, s);
    PowerAtLeast(BandEnergy(v), Pow2(s));
  }

  lemma EmptyBand()
    ensures BandShift([]) == 0
  {
    assert Largest([]) == -1;
    assert BitLen(1) == 1;
  }

  lemma SquareOfAbs(x: int)
    ensures Square(x) == Abs(x) * Abs(x)
  {
  }

  lemma ShrIsDiv(x: nat, s: nat)
    ensures Shr(x, s) == x / Pow2(s)
  {
  }

  lemma PowerAtLeast(e: nat, p: nat)
    requires p > 0
    ensures e * p >= e
  {
  }

  /** Up to the threshold a short band adds the sum of its squares exactly, or passes the threshold when that does; past
      it the indicator stays. */
  lemma IndicatorAdds(v: seq<int>, total: int)
    requires NoMinimum(v) && |v| < 64 && 0 <= total <= 32000
    ensures var next := Indicator(v, total);
            && total <= next <= 32000
            && if total > MIN_ENERGY then next == total
               else next == total + Squares(v) || (next > MIN_ENERGY && total + Squares(v) > MIN_ENERGY)
  {
    hide Indicator, Power, Squares;
    IndicatorAddsPower(v, total);
    PowerIsSquares(v);
  }

  ghost predicate ShortBands(bands: seq<seq<int>>, samples: iset<int>) {
    forall i | 0 <= i < |bands| :: |bands[i]| < 64 && forall j | 0 <= j < |bands[i]| :: bands[i][j] in samples
  }

  /** The gate of GmmProbability is right about a frame: the indicator exceeds the minimum energy if and only if the sum
      of the squares of all samples does, and otherwise it is that sum. */
  predicate GateIsRight(bands: seq<seq<int>>) {
    && 0 <= TotalEnergy(bands) <= 32000
    && (TotalEnergy(bands) > MIN_ENERGY <==> TotalSquares(bands) > MIN_ENERGY)
    && (TotalEnergy(bands) <= MIN_ENERGY ==> TotalEnergy(bands) == TotalSquares(bands))
  }

  lemma {:induction false} GateIsExact(bands: seq<seq<int>>)
    requires forall i | 0 <= i < |bands| :: NoMinimum(bands[i]) && |bands[i]| < 64
    ensures GateIsRight(bands)
  {
    hide Indicator, Squares, NoMinimum;
    if bands != [] {
      var front, last := bands[..|bands| - 1], bands[|bands| - 1];
      GateIsExact(front);
      IndicatorAdds(last, TotalEnergy(front));
    }
  }

  /** Four samples -32768 are silence to the gate: their squares add up to 2^32. */
  lemma MinimumIsSilent()
    ensures var v := [-32768, -32768, -32768, -32768]; TotalEnergy([v]) == 0 && TotalSquares([v]) == 0x1_0000_0000
  {
    hide Shr, Square, Indicator, Squares, Sum, Scaling, Largest;
    var v := [-32768, -32768, -32768, -32768];
    assert v == seq(4, _ => -32768);
    LargestOfMinimum(4);
    ScalingOfFour();
    SumOfEqual(-32768, 4, 0);
    ShrByZero(Square(-32768));
    UnshiftedSum(v);
    SilentBand(v);
    OneBand(v);
  }

  lemma OneBand(v: seq<int>)
    ensures TotalEnergy([v]) == Indicator(v, 0) && TotalSquares([v]) == Squares(v)
  {
    hide Indicator, Squares;
    var bands := [v];
    assert bands[..0] == [];
    assert TotalEnergy(bands[..0]) == 0 && TotalSquares(bands[..0]) == 0;
  }

  lemma ScalingOfFour()
    ensures Scaling(-1, 4) == 0
  {
    assert BitLen(1) == 1 && BitLen(4) == 3;
  }

  lemma SilentBand(v: seq<int>)
    requires BandEnergy(v) == 0
    ensures Indicator(v, 0) == 0
  {
  }

  /** The exact guard on samples: the gate is right about every frame of short bands over a set of words if and only if
      -32768 is not one of them. */
  lemma GateGuardIsExact(samples: iset<int>)
    requires forall x | x in samples :: IsInt16(x)
    ensures (forall bands | ShortBands(bands, samples) :: GateIsRight(bands)) <==> -32768 !in samples
  {
    hide GateIsRight;
    if -32768 in samples {
      var bands := [[-32768, -32768, -32768, -32768]];
      MinimumIsSilent();
      assert ShortBands(bands, samples);
      SilentIsWrong(bands);
    } else {
      forall bands | ShortBands(bands, samples) ensures GateIsRight(bands) {
        GateIsExact(bands);
      }
    }
  }

  lemma SilentIsWrong(bands: seq<seq<int>>)
    requires TotalEnergy(bands) == 0 && TotalSquares(bands) > MIN_ENERGY
    ensures !GateIsRight(bands)
  {
  }

  lemma BackToQ0(e: nat, s: nat, left: nat)
    requires s < left
    ensures e * Pow2(left) >= 0 && Shr(e * Pow2(left), left - s) == e * Pow2(s)
  {
    hide Pow2, Shr;
    var p, q, l := Pow2(s), Pow2(left - s), Pow2(left);
    assert l == p * q by { Pow2Add(s, left - s); }
    NonNegativeProduct(e, p);
    NonNegativeProduct(e, l);
    var x: nat := e * p;
    assert e * l == x * q by { Reassociate(e, p, q); }
    ShrOfProduct(x, left - s);
  }

  lemma Reassociate(a: nat, b: nat, c: nat)
    ensures a * (b * c) == (a * b) * c
  {
  }

  lemma ShrOfProduct(x: nat, s: nat)
    ensures Shr(x * Pow2(s), s) == x
  {
    hide Pow2;
    var r, p := Shr(x * Pow2(s), s), Pow2(s);
    MulCancel(x, r + 1, p);
    DivLower(x, x * p, p);
    DivBracket(x * p, p);
    MulCancel(r, x + 1, p);
  }
}
