/** What the feature of a band says about its energy: it grows with the energy, and it is the logarithm of the energy,
    by a chord in each octave. */
module LogLaw {
  import opened FixedPoint
  import opened EnergyScaling
  import opened LogEnergy

  // ---------------------------------------------------------------- only the energy scaled back counts

  lemma BitsOfDouble(e: nat)
    requires e > 0
    ensures Normalizing(2 * e) == Normalizing(e) + 1
  {
    assert BitLen(2 * e) == BitLen(e) + 1;
  }

  /** Doubling the energy in place of shifting it once. */
  lemma DoubledEnergy(e: nat)
    requires e > 0
    ensures Normalizing(2 * e) == Normalizing(e) + 1 && Normalized(2 * e) == Normalized(e)
  {
    hide Pow2, Shr, Normalizing, Normalized;
    BitsOfDouble(e);
    NormalizedIs(e);
    NormalizedIs(2 * e);
    var n := Normalizing(e);
    if n < -1 {
      HalfOfPower(-n);
      Reassociate(e, 2, Pow2(-n - 1));
    } else if n == -1 {
      HalfOfPower(1);
      ShrByZero(2 * e);
    } else {
      HalfOfPower(n + 1);
      DoubledQuotient(e, Pow2(n));
      ShrIsDiv(2 * e, n + 1);
      ShrIsDiv(e, n);
    }
  }

  lemma HalfOfPower(n: nat)
    requires n > 0
    ensures Pow2(n) == 2 * Pow2(n - 1)
    ensures n == 1 ==> Pow2(n) == 2
  {
  }

  lemma DoubledQuotient(e: nat, p: nat)
    requires p > 0
    ensures 2 * e / (2 * p) == e / p
  {
    DivBracket(e, p);
    DivLower(0, e, p);
    DoubledQuotientIs(e, p, e / p);
  }

  lemma DoubledQuotientIs(e: nat, p: nat, q: nat)
    requires q * p <= e < (q + 1) * p
    ensures p > 0 && 2 * e / (2 * p) == q
  {
    TwiceProduct(q, p);
    TwiceProduct(q + 1, p);
    DivLower(q, 2 * e, 2 * p);
    DivUpper(q + 1, 2 * e, 2 * p);
  }

  lemma TwiceProduct(q: nat, p: nat)
    ensures q * (2 * p) == 2 * (q * p)
  {
  }

  lemma {:induction false} ShiftedEnergy(e: nat, shift: nat)
    requires e > 0
    ensures e * Pow2(shift) > 0
    ensures shift + Normalizing(e) == Normalizing(e * Pow2(shift)) && Normalized(e) == Normalized(e * Pow2(shift))
    decreases shift
  {
    hide Normalizing, Normalized, Pow2;
    if shift == 0 {
      PowerOfZero();
    } else {
      DoubledEnergy(e);
      HalfOfPower(shift);
      Reassociate(e, 2, Pow2(shift - 1));
      ShiftedEnergy(2 * e, shift - 1);
    }
  }

  /** The decibels are those of the energy scaled back. */
  lemma ShiftIsFree(e: nat, shift: nat)
    requires e > 0
    ensures e * Pow2(shift) > 0 && Decibels(e, shift) == Decibels(e * Pow2(shift), 0)
  {
    hide Normalizing, Normalized, Pow2, W16;
    ShiftedEnergy(e, shift);
  }

  lemma FeatureOfPower(v: seq<int>, offset: int)
    ensures Power(v) == 0 <==> BandEnergy(v) == 0
    ensures Feature(v, offset) == if Power(v) == 0 then offset else W16(Decibels(Power(v), 0) + offset)
  {
    hide BandEnergy, BandShift, Decibels, Pow2, W16;
    var e := BandEnergy(v);
    if e > 0 {
      ShiftIsFree(e, BandShift(v));
    } else {
      assert Power(v) == 0;
    }
  }

  /** The energy scaled back is the sum of the squares, less at most what the shifts drop. */
  lemma {:induction false} ShiftedSquares(v: seq<int>, shift: nat)
    ensures Sum(v, shift) * Pow2(shift) <= Squares(v) <= (Sum(v, shift) + |v|) * Pow2(shift)
  {
    hide Pow2, Shr, Square;
    if v == [] {
      assert Sum(v, shift) == 0;
    } else {
      var rest, q := v[..|v| - 1], Square(v[|v| - 1]);
      ShiftedSquares(rest, shift);
      Distribute(Sum(rest, shift), Shr(q, shift), Pow2(shift));
      Distribute(Sum(rest, shift) + |rest|, Shr(q, shift) + 1, Pow2(shift));
    }
  }

  lemma PowerIsNearSquares(v: seq<int>)
    requires NoMinimum(v) && |v| < 0x8000_0000
    ensures Power(v) <= Squares(v) <= Power(v) + |v| * Pow2(BandShift(v))
  {
    hide Pow2, Sum, Squares, BandShift;
    EnergyIsSum(v);
    ShiftedSquares(v, BandShift(v));
    Distribute(BandEnergy(v), |v|, Pow2(BandShift(v)));
  }

  // ---------------------------------------------------------------- the decibels of an energy

  /** The octave of an energy, and where in the octave it lies, in 1024 parts. */
  function Octave(p: nat): int { BitLen(p) - 1 }

  function Part(p: nat): int { (Normalized(p) - 0x4000) / 16 }

  lemma PartBounds(p: nat)
    requires p > 0
    ensures 0 <= Part(p) <= 1023 && Normalized(p) % 0x4000 / 16 == Part(p)
  {
    hide Normalized;
    NormalizedHasFifteenBits(p);
  }

  /** The logarithm, as two quotients. */
  function Log(octave: int, part: int): int { 24660 * (14336 + part) / 0x8_0000 + (octave - 14) * 24660 / 512 }

  lemma LogBound(octave: int, part: int)
    requires 0 <= octave <= 60 && 0 <= part <= 1023
    ensures -1 <= Log(octave, part) <= 2937
  {
  }

  lemma DecibelsAre(p: nat)
    requires p > 0 && BitLen(p) <= 61
    ensures
      var log := Log(Octave(p), Part(p));
      Decibels(p, 0) == (if log < 0 then 0 else log) <= 2937
  {
    hide Normalized, BitLen, W16, Part;
    PartBounds(p);
    LogBound(Octave(p), Part(p));
  }

  lemma LogGrows(octave: int, part: int, octave': int, part': int)
    requires 0 <= part <= 1023 && 0 <= part' <= 1023
    requires octave < octave' || (octave == octave' && part <= part')
    ensures Log(octave, part) <= Log(octave', part')
  {
  }

  lemma PartGrows(p: nat, q: nat)
    requires 0 < p <= q && BitLen(p) == BitLen(q)
    ensures Part(p) <= Part(q)
  {
    hide Pow2, BitLen, Shr;
    var n := Normalizing(p);
    if n < 0 {
      ScaleUp(p, q, Pow2(-n));
    } else {
      ShrIsDiv(p, n);
      ShrIsDiv(q, n);
      DivMonotone(p, q, Pow2(n), Pow2(n));
    }
  }

  lemma MoreBits(p: nat, q: nat)
    requires p <= q
    ensures BitLen(p) <= BitLen(q)
  {
    hide BitLen, Pow2;
    BitLenBound(p, BitLen(q));
  }

  lemma DecibelsGrow(p: nat, q: nat)
    requires 0 < p <= q && BitLen(q) <= 61
    ensures Decibels(p, 0) <= Decibels(q, 0)
  {
    hide Decibels, BitLen, Part, Log;
    MoreBits(p, q);
    DecibelsAre(p);
    DecibelsAre(q);
    PartBounds(p);
    PartBounds(q);
    if BitLen(p) == BitLen(q) {
      PartGrows(p, q);
    }
    LogGrows(Octave(p), Part(p), Octave(q), Part(q));
  }

  /** The energy of fewer than 2^31 samples has at most 61 bits. */
  lemma PowerBits(v: seq<int>)
    requires Words(v) && |v| < 0x8000_0000
    ensures BitLen(Power(v)) <= 61
  {
    hide BitLen, BandShift, Sum;
    Powers();
    var s := BandShift(v);
    ScaledBack(v, s);
    hide Pow2;
    EnergyIsAtMostSum(v);
    ScaleUp(BandEnergy(v), Sum(v, s), Pow2(s));
    Pow2Add(31, 30);
    Pow2Monotone(61, 61);
    ProductBelow(|v|, Pow2(31), 0x3FFF_FFFF, 0x4000_0000);
    assert |v| * 0x4000_0000 <= 0x8000_0000 * 0x4000_0000;
    BitLenBound(Power(v), 61);
  }

  lemma EnergyIsAtMostSum(v: seq<int>)
    ensures BandEnergy(v) <= Sum(v, BandShift(v))
  {
    hide Sum, BandShift;
  }

  // ---------------------------------------------------------------- the laws

  /** The offset leaves room for the decibels of any band. */
  predicate RoomFor(offset: int) { -32768 <= offset <= 32767 - 2937 }

  /** A band with more energy never gets the smaller feature. */
  lemma LouderIsHigher(v: seq<int>, w: seq<int>, offset: int)
    requires Words(v) && Words(w) && |v| < 0x8000_0000 && |w| < 0x8000_0000 && RoomFor(offset)
    requires Power(v) <= Power(w)
    ensures Feature(v, offset) <= Feature(w, offset)
  {
    hide Power, Feature, Decibels, BitLen, W16;
    FeatureIs(v, offset);
    FeatureIs(w, offset);
    PowerBits(w);
    if Power(v) > 0 {
      DecibelsGrow(Power(v), Power(w));
    }
  }

  lemma FeatureIs(v: seq<int>, offset: int)
    requires Words(v) && |v| < 0x8000_0000 && RoomFor(offset)
    ensures
      Feature(v, offset) == if Power(v) == 0 then offset else Decibels(Power(v), 0) + offset
    ensures Power(v) > 0 ==> Decibels(Power(v), 0) >= 0
  {
    hide Power, Feature, Decibels, BitLen, Log, Octave, Part;
    FeatureOfPower(v, offset);
    PowerBits(v);
    if Power(v) > 0 {
      DecibelsAre(Power(v));
    }
  }

  /** The place in the octave is the fraction of the energy, in 1024 parts, rounded down. */
  lemma PartIs(p: nat, k: nat)
    requires Pow2(k) <= p < Pow2(k + 1)
    ensures Octave(p) == k && Part(p) * Pow2(k) <= 1024 * (p - Pow2(k)) < (Part(p) + 1) * Pow2(k)
  {
    hide Pow2, BitLen, Shr;
    OctaveIs(p, k);
    NormalizedHasFifteenBits(p);
    var n := k - 14;
    var part := Part(p);
    Powers();
    if n < 0 {
      Pow2Add(k, -n);
      Upwards(p, Pow2(k), Pow2(-n), part);
    } else {
      Pow2Add(14, n);
      ShrIsDiv(p, n);
      DivBracket(p, Pow2(n));
      Downwards(p, Pow2(n), Normalized(p), part);
    }
  }

  lemma OctaveIs(p: nat, k: nat)
    requires Pow2(k) <= p < Pow2(k + 1)
    ensures BitLen(p) == k + 1
  {
    hide Pow2, BitLen;
    BitLenBound(p, k + 1);
    if BitLen(p) <= k {
      Pow2Monotone(BitLen(p), k);
    }
  }

  lemma Upwards(p: nat, q: nat, r: nat, part: int)
    requires q * r == 16384 && p >= q && part == (p * r - 0x4000) / 16
    ensures part * q <= 1024 * (p - q) < (part + 1) * q
  {
    var x := (p - q) * r;
    assert p * r - 0x4000 == x;
    Regrouped(p - q, r, q);
    ScaleOrder(16 * part, x, q);
    ScaleOrder(x + 1, 16 * part + 16, q);
    SixteenFold(part, x, q);
  }

  lemma Regrouped(d: nat, r: nat, q: nat)
    requires q * r == 16384
    ensures d * r * q == 16384 * d
  {
  }

  lemma SixteenFold(part: int, x: int, q: int)
    ensures 16 * part * q == 16 * (part * q) && (16 * part + 16) * q == 16 * ((part + 1) * q)
    ensures (x + 1) * q == x * q + q
  {
  }

  lemma Downwards(p: nat, r: nat, n: nat, part: int)
    requires r > 0 && n * r <= p < (n + 1) * r && n >= 0x4000 && part == (n - 0x4000) / 16
    ensures
      var q := 16384 * r;
      part * q <= 1024 * (p - q) < (part + 1) * q
  {
    ScaleOrder(16 * part, n - 0x4000, r);
    ScaleOrder(n + 1 - 0x4000, 16 * part + 16, r);
    assert (n - 0x4000) * r == n * r - 16384 * r && (n + 1 - 0x4000) * r == (n + 1) * r - 16384 * r;
    assert part * (16384 * r) == 1024 * (16 * part * r) && (part + 1) * (16384 * r) == 1024 * ((16 * part + 16) * r);
  }

  lemma LogBrackets(octave: int, part: int)
    requires 0 <= part <= 1023
    ensures
      var log := Log(octave, part);
      24660 * 1024 * octave + 24660 * part - 1024 * 1024 < 512 * 1024 * log <= 24660 * 1024 * octave + 24660 * part
  {
  }

  /** A band's feature above its offset is LOG_CONST/512 times the logarithm of its energy, the logarithm taken along
      the chord of the octave: for the energy (1 + x) 2^k, 512 times the feature is 24660 (k + x), less at most 1049. */
  lemma FeatureIsLogarithm(v: seq<int>, offset: int, k: nat)
    requires Words(v) && |v| < 0x8000_0000 && RoomFor(offset)
    requires Pow2(k) <= Power(v) < Pow2(k + 1)
    ensures
      var p, q, log := Power(v), Pow2(k), Feature(v, offset) - offset;
      24660 * k * q + 24660 * (p - q) - 1049 * q < 512 * log * q <= 24660 * k * q + 24660 * (p - q)
  {
    hide Pow2, Power, Feature, Decibels, BitLen, Log, Part;
    FeatureIs(v, offset);
    PowerBits(v);
    var p, q := Power(v), Pow2(k);
    PartIs(p, k);
    DecibelsAre(p);
    PartBounds(p);
    LogBrackets(k, Part(p));
    Chord(p - q, q, k, Part(p), Log(k, Part(p)));
  }

  /** Clamping at zero keeps the brackets. */
  lemma Chord(x: nat, q: nat, k: nat, part: int, log: int)
    requires 0 < q && part * q <= 1024 * x < (part + 1) * q && 0 <= part <= 1023
    requires 24660 * 1024 * k + 24660 * part - 1024 * 1024 < 512 * 1024 * log <= 24660 * 1024 * k + 24660 * part
    ensures
      var l := if log < 0 then 0 else log;
      24660 * k * q + 24660 * x - 1049 * q < 512 * l * q <= 24660 * k * q + 24660 * x
  {
    var l := if log < 0 then 0 else log;
    ScaleOrder(512 * 1024 * l, 24660 * 1024 * k + 24660 * part, q);
    ScaleOrder(24660 * 1024 * k + 24660 * part - 1024 * 1024 + 1, 512 * 1024 * l, q);
    assert 512 * 1024 * l * q == 1024 * (512 * l * q);
    assert (24660 * 1024 * k + 24660 * part) * q == 1024 * (24660 * k * q) + 24660 * (part * q);
    assert (24660 * 1024 * k + 24660 * part - 1024 * 1024 + 1) * q
        == 1024 * (24660 * k * q) + 24660 * (part * q) - 1024 * 1024 * q + q;
  }

  /** In particular it lies between those of the octave's ends. */
  lemma FeatureIsInOctave(v: seq<int>, offset: int, k: nat)
    requires Words(v) && |v| < 0x8000_0000 && RoomFor(offset)
    requires Pow2(k) <= Power(v) < Pow2(k + 1)
    ensures 24660 * k - 1049 < 512 * (Feature(v, offset) - offset) < 24660 * (k + 1)
  {
    hide Pow2, Power, Feature;
    FeatureIsLogarithm(v, offset, k);
    HalfOfPower(k + 1);
    BetweenEnds(24660 * k, 512 * (Feature(v, offset) - offset), Power(v) - Pow2(k), Pow2(k));
  }

  lemma BetweenEnds(a: int, b: int, x: nat, q: nat)
    requires x < q && a * q + 24660 * x - 1049 * q < b * q <= a * q + 24660 * x
    ensures a - 1049 < b < a + 24660
  {
    assert (a - 1049) * q == a * q - 1049 * q && (a + 24660) * q == a * q + 24660 * q;
    MulCancel(a - 1049, b, q);
    MulCancel(b, a + 24660, q);
  }
}
