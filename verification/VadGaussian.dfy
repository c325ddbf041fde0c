/** The Q20 Gaussian of vad_gmm.c and the posteriors vad_core.c derives from it. */
module VadGaussian {
  import opened FixedPoint

  const COMP_VAR := 22005
  const LOG2_EXP := 5909

  // ---------------------------------------------------------------- the stages of the computation

  /** 1 / std in Q10. */
  function InvStd(std: int): int { W16(DivW32W16(131072 + std / 2, std)) }

  /** 1 / std^2 in Q14. */
  function InvVariance(std: int): int { W16((InvStd(std) / 4) * (InvStd(std) / 4) / 4) }

  /** x - mean in Q7. */
  function Offset(input: int, mean: int): int { W16(W16(input * 8) - mean) }

  /** (x - mean) / std^2 in Q11, the second result of the code. */
  function Delta(input: int, mean: int, std: int): int {
    W16(InvVariance(std) * Offset(input, mean) / 1024)
  }

  /** (x - mean)^2 / (2 std^2) in Q10. */
  function Exponent(input: int, mean: int, std: int): int {
    Delta(input, mean, std) * Offset(input, mean) / 512
  }

  /** Minus log2(e) times an exponent, in Q10. */
  function NegLog(t: int): int { W16(-W16(W32(LOG2_EXP * t) / 4096)) }

  /** `exp_value` for that logarithm. The shift count is read modulo 32 where C leaves it undefined. */
  function ExpOfLog(log: int): int {
    (1024 + log % 1024) / Pow2(((-log - 1) / 1024 + 1) % 32)
  }

  function ExpValue(t: int): int { if t < COMP_VAR then ExpOfLog(NegLog(t)) else 0 }

  function Probability(input: int, mean: int, std: int): int {
    InvStd(std) * ExpValue(Exponent(input, mean, std))
  }

  /** WebRtcVad_GaussianProbability. Bit operations on 16-bit words are written in arithmetic:
      `x & 0x3FF` is `x % 1024`, `0x400 | y` is `1024 + y` below 1024, `x ^ 0xFFFF` is `-x - 1`. */
  method GaussianProbability(input: int, mean: int, std: int) returns (probability: int, delta: int)
    ensures probability == Probability(input, mean, std)
    ensures delta == Delta(input, mean, std)
  {
    hide W16, W32, DivW32W16, Pow2;
    var expValue := 0;
    var tmp32 := 131072 + std / 2;
    var invStd := W16(DivW32W16(tmp32, std));
    var tmp16 := invStd / 4;
    var invStd2 := W16(tmp16 * tmp16 / 4);
    assert invStd == InvStd(std) && invStd2 == InvVariance(std);
    tmp16 := W16(input * 8);
    tmp16 := W16(tmp16 - mean);
    delta := W16(invStd2 * tmp16 / 1024);
    tmp32 := delta * tmp16 / 512;
    assert delta == Delta(input, mean, std) && tmp32 == Exponent(input, mean, std);
    if tmp32 < COMP_VAR {
      tmp16 := W16(W32(LOG2_EXP * tmp32) / 4096);
      tmp16 := W16(-tmp16);
      expValue := 1024 + tmp16 % 1024;
      tmp16 := -tmp16 - 1;
      tmp16 := tmp16 / 1024;
      tmp16 := tmp16 + 1;
      expValue := expValue / Pow2(tmp16 % 32);
      assert expValue == ExpOfLog(NegLog(tmp32));
    }
    assert expValue == ExpValue(tmp32);
    probability := invStd * expValue;
  }

  // ---------------------------------------------------------------- exp2 by a chord in each octave

  /** The octave of 2^(-u/1024): the least q with u <= 1024 q. */
  function Octave(u: nat): (q: nat)
    ensures u <= 1024 * q < u + 1024
  {
    (u + 1023) / 1024
  }

  /** What `ExpOfLog` computes for the logarithm -u: the line through the two powers of two
      around 2^(-u/1024). */
  function Exp2(u: nat): nat {
    hide Pow2, Octave;
    var a, p := 1024 + (Octave(u) * 1024 - u), Pow2(Octave(u));
    DivLower(0, a, p);
    a / p
  }

  lemma Exp2Monotone(u: nat, v: nat)
    requires u <= v
    ensures Exp2(v) <= Exp2(u)
  {
    var q, q' := Octave(u), Octave(v);
    var a, b := 1024 + (q * 1024 - u), 1024 + (q' * 1024 - v);
    assert 1024 <= a <= 2047 && 1024 <= b <= 2047;
    if q == q' {
      DivMonotone(b, a, Pow2(q), Pow2(q));
    } else {
      Pow2Monotone(q + 1, q');
      var p := Pow2(q);
      DivMonotone(b, 2047, Pow2(q'), 2 * p);
      HalfDivision(1024, p);
      DivMonotone(1024, a, p, p);
    }
  }

  lemma HalfDivision(a: nat, p: nat)
    requires a > 0 && p > 0
    ensures (2 * a - 1) / (2 * p) <= a / p
  {
    var x := (2 * a - 1) / (2 * p);
    assert x * (2 * p) <= 2 * a - 1;
    assert x * (2 * p) == 2 * (x * p);
    DivLower(x, a, p);
  }

  /** The result lies in the octave of the true value, 2^(10-q) <= exp < 2^(11-q) up to the
      truncation; at a whole octave it is the power of two itself. */
  lemma Exp2Octave(u: nat)
    ensures Exp2(u) * Pow2(Octave(u)) < 2048 && (Exp2(u) + 1) * Pow2(Octave(u)) > 1024
    ensures u % 1024 == 0 ==> Exp2(u) == 1024 / Pow2(u / 1024)
  {
    DivBracket(1024 + (Octave(u) * 1024 - u), Pow2(Octave(u)));
  }

  // ---------------------------------------------------------------- inside the working range

  /** The range in which the code does not overflow. */
  predicate InRange(input: int, mean: int, std: int) {
    IsInt16(input * 8) && 378 <= std <= 32767 && -18000 <= input * 8 - mean <= 18000
  }

  lemma InvStdBounds(std: int)
    requires 378 <= std <= 32767
    ensures 4 <= InvStd(std) <= 347
    ensures InvStd(std) == (131072 + std / 2) / std
    ensures 0 <= InvVariance(std) <= 1849
  {
    var n := 131072 + std / 2;
    DivLower(4, n, std);
    DivUpper(348, n, std);
    ProductBound(InvStd(std) / 4, 86, InvStd(std) / 4, 86);
  }

  /** 2^17 over the deviation, to the nearest whole number; and a 64th of its square, from its leading bits. */
  lemma InversesAreAccurate(std: int)
    requires 378 <= std <= 32767
    ensures var inv, v := InvStd(std), InvVariance(std);
            -std < 2 * (inv * std - 131072) <= std && 64 * v <= inv * inv <= 64 * v + 6 * inv + 57
  {
    hide InvStd, InvVariance;
    InvStdBounds(std);
    DivBracket(131072 + std / 2, std);
    VarianceIs(std);
    SquareOfQuarter(InvStd(std), InvStd(std) / 4);
  }

  lemma VarianceIs(std: int)
    requires 378 <= std <= 32767
    ensures InvVariance(std) == (InvStd(std) / 4) * (InvStd(std) / 4) / 4
  {
    hide InvStd;
    InvStdBounds(std);
    ProductBound(InvStd(std) / 4, 86, InvStd(std) / 4, 86);
    NonNegativeProduct(InvStd(std) / 4, InvStd(std) / 4);
  }

  lemma SquareOfQuarter(inv: nat, q: nat)
    requires 4 * q <= inv <= 4 * q + 3
    ensures 64 * (q * q / 4) <= inv * inv <= 64 * (q * q / 4) + 6 * inv + 57
  {
    var r := inv - 4 * q;
    assert inv * inv == 16 * (q * q) + 8 * (q * r) + r * r;
    assert q * r <= 3 * q && r * r <= 9;
  }

  /** `ExpValue` without any wrap-around. */
  function ExactExp(t: nat): nat { if t < COMP_VAR then Exp2(LOG2_EXP * t / 4096) else 0 }

  lemma ExpIsExact(t: nat)
    ensures ExpValue(t) == ExactExp(t)
  {
    if t < COMP_VAR {
      var u := LOG2_EXP * t / 4096;
      assert 0 <= u <= 31743;
      assert NegLog(t) == -u;
      LogIsOctave(u);
    }
  }

  lemma LogIsOctave(u: nat)
    requires u <= 31743
    ensures ExpOfLog(-(u as int)) == Exp2(u)
  {
    assert (u - 1) / 1024 + 1 == Octave(u) <= 31;
    assert (-(u as int)) % 1024 == Octave(u) * 1024 - u;
  }

  /** Every intermediate is the exact value and fits its word, and the shift count the code uses is a legal one. */
  predicate NoOverflow(input: int, mean: int, std: int) {
    var t := Exponent(input, mean, std);
    && IsInt16(input * 8) && IsInt16(input * 8 - mean)
    && IsInt16(InvVariance(std) * (input * 8 - mean) / 1024)
    && IsInt32(Delta(input, mean, std) * (input * 8 - mean))
    && t >= 0
    && (t < COMP_VAR ==> IsInt32(LOG2_EXP * t) && IsInt16(LOG2_EXP * t / 4096) && LegalShift(LOG2_EXP * t / 4096))
  }

  /** What `exp_value` is shifted by for the logarithm -u. */
  predicate LegalShift(u: int) { 0 <= (u - 1) / 1024 + 1 <= 31 }

  lemma StepIsExact(input: int, mean: int, std: int)
    requires InRange(input, mean, std)
    ensures NoOverflow(input, mean, std)
    ensures Offset(input, mean) == input * 8 - mean
    ensures Delta(input, mean, std) == InvVariance(std) * (input * 8 - mean) / 1024
    ensures ExpValue(Exponent(input, mean, std)) == ExactExp(Exponent(input, mean, std))
  {
    InvStdBounds(std);
    DeltaBounds(InvVariance(std), input * 8 - mean);
    ExpIsExact(Exponent(input, mean, std));
  }

  lemma DeltaBounds(v: int, d: int)
    requires 0 <= v <= 1849 && -18000 <= d <= 18000
    ensures -32502 <= v * d / 1024 <= 32501
    ensures 0 <= v * d / 1024 * d <= 32502 * 18000
  {
    if d >= 0 {
      OneSidedDelta(v, d);
    } else {
      NegatedDelta(v, d);
    }
  }

  lemma OneSidedDelta(v: nat, d: nat)
    requires v <= 1849 && d <= 18000
    ensures 0 <= v * d / 1024 <= 32501
    ensures 0 <= v * d / 1024 * d <= 32501 * 18000
  {
    ProductBound(v, 1849, d, 18000);
    NonNegativeProduct(v, d);
    ProductBound(v * d / 1024, 32501, d, 18000);
    NonNegativeProduct(v * d / 1024, d);
  }

  lemma NegatedDelta(v: nat, d: int)
    requires v <= 1849 && -18000 <= d <= 0
    ensures -32502 <= v * d / 1024 <= 0
    ensures 0 <= v * d / 1024 * d <= 32502 * 18000
  {
    ProductBound(v, 1849, d, 18000);
    NonNegativeProduct(v, -d);
    assert v * (-d) == -(v * d);
    var delta := v * d / 1024;
    ProductBound(-delta, 32502, d, 18000);
    NonNegativeProduct(-delta, -d);
    assert (-delta) * (-d) == delta * d && (-delta) * d == -(delta * d);
  }

  lemma ExactExpBounds(t: nat)
    ensures 0 <= ExactExp(t) <= 1024
    ensures ExactExp(0) == 1024
  {
  }

  lemma ExactExpMonotone(s: nat, t: nat)
    requires s <= t
    ensures ExactExp(t) <= ExactExp(s)
  {
    if t < COMP_VAR {
      Exp2Monotone(LOG2_EXP * s / 4096, LOG2_EXP * t / 4096);
    }
  }

  /** An octave further down, the result is halved. */
  lemma OctaveHalves(u: nat)
    ensures Exp2(u + 1024) == Exp2(u) / 2
  {
    hide Pow2;
    var q := Octave(u);
    var a, p := 1024 + (q * 1024 - u), Pow2(q);
    assert Octave(u + 1024) == q + 1;
    NextPower(q);
    HalvedQuotient(a, p);
  }

  lemma NextPower(q: nat)
    ensures Pow2(q + 1) == 2 * Pow2(q)
  {
  }

  lemma HalvedQuotient(a: nat, p: nat)
    requires p > 0
    ensures a / (2 * p) == a / p / 2
  {
    DivLower(0, a, p);
    DivBracket(a, p);
    HalvedIs(a, p, a / p, a / p / 2);
  }

  lemma HalvedIs(a: nat, p: nat, x: nat, y: nat)
    requires p > 0 && x * p <= a < (x + 1) * p && 2 * y <= x <= 2 * y + 1
    ensures a / (2 * p) == y
  {
    ScaleOrder(2 * y, x, p);
    ScaleOrder(x + 1, 2 * y + 2, p);
    assert y * (2 * p) == 2 * y * p && (y + 1) * (2 * p) == (2 * y + 2) * p;
    DivLower(y, a, 2 * p);
    DivUpper(y + 1, a, 2 * p);
  }

  /** The exponential is halved between 709 and 710 steps of 1/1024 on: the natural logarithm of two. */
  lemma HalvesAtLogTwo(t: nat)
    requires t + 710 < COMP_VAR
    ensures ExactExp(t + 710) <= ExactExp(t) / 2 <= ExactExp(t + 709)
  {
    hide Exp2;
    var u := LOG2_EXP * t / 4096;
    OctaveHalves(u);
    Exp2Monotone(u + 1024, LOG2_EXP * (t + 710) / 4096);
    Exp2Monotone(LOG2_EXP * (t + 709) / 4096, u + 1024);
  }

  /** The probability in exact integers, as a function of the distance d = x - mean. */
  function Profile(std: int, d: int): int
    requires 378 <= std <= 32767
  {
    var t := InvVariance(std) * d / 1024 * d / 512;
    if t < 0 then 0 else InvStd(std) * ExactExp(t)
  }

  lemma ProbabilityIsProfile(input: int, mean: int, std: int)
    requires InRange(input, mean, std)
    ensures Probability(input, mean, std) == Profile(std, input * 8 - mean)
  {
    StepIsExact(input, mean, std);
  }

  lemma ProfileFalls(std: int, d: int, d': int)
    requires 378 <= std <= 32767
    requires 0 <= d <= d' || d' <= d <= 0
    requires InvVariance(std) * d / 1024 * d / 512 >= 0
    ensures 0 <= Profile(std, d') <= Profile(std, d) <= 347 * 1024
  {
    InvStdBounds(std);
    ExponentGrows(InvVariance(std), d, d');
    var s, t := InvVariance(std) * d / 1024 * d / 512, InvVariance(std) * d' / 1024 * d' / 512;
    ExactExpMonotone(s, t);
    ExactExpBounds(s);
    ExactExpBounds(t);
    ScaledOrder(InvStd(std), ExactExp(t), ExactExp(s));
  }

  /** The result never grows as the input moves away from the mean, on either side of it. */
  lemma FallsAwayFromMean(near: int, far: int, mean: int, std: int)
    requires InRange(near, mean, std) && InRange(far, mean, std)
    requires (mean <= near * 8 && near <= far) || (far <= near && near * 8 <= mean)
    ensures 0 <= Probability(far, mean, std) <= Probability(near, mean, std) <= 347 * 1024
  {
    ProbabilityIsProfile(near, mean, std);
    ProbabilityIsProfile(far, mean, std);
    InvStdBounds(std);
    DeltaBounds(InvVariance(std), near * 8 - mean);
    ProfileFalls(std, near * 8 - mean, far * 8 - mean);
  }

  lemma ScaledOrder(inv: nat, x: nat, y: nat)
    requires inv <= 347 && x <= y <= 1024
    ensures 0 <= inv * x <= inv * y <= 347 * 1024
  {
  }

  lemma ExponentGrows(v: nat, d: int, d': int)
    requires 0 <= d <= d' || d' <= d <= 0
    ensures (v * d / 1024) * d / 512 <= (v * d' / 1024) * d' / 512
  {
    if 0 <= d <= d' {
      MulOrder(v, d, d');
      ProductOrder(v * d / 1024, v * d' / 1024, d, d');
    } else {
      MulOrder(v, d', d);
      ProductOrder(-(v * d / 1024), -(v * d' / 1024), -d, -d');
    }
  }

  lemma MulOrder(v: nat, x: int, y: int)
    requires x <= y
    ensures v * x <= v * y
  {
  }

  lemma ProductOrder(a: int, b: int, d: int, d': int)
    requires 0 <= a <= b && 0 <= d <= d'
    ensures a * d / 512 <= b * d' / 512
    ensures (-a) * (-d) / 512 <= (-b) * (-d') / 512
  {
  }

  // ---------------------------------------------------------------- posteriors

  /** `ngprvec`/`sgprvec`: the share of the first of two weighted probabilities, in Q14. */
  function Share(p0: int, h: int): int { W16(DivW32W16(W32(p0 / 4096 * 4096 * 4), h)) }

  /** For any two weighted probabilities below 2^27 the first share is exact and in 0..16384,
      so it and its complement are two posteriors that sum to 16384. */
  lemma SharesArePosteriors(p0: int, p1: int)
    requires 0 <= p0 && 0 <= p1 && p0 + p1 < 0x800_0000
    requires (p0 + p1) / 4096 > 0
    ensures IsInt16((p0 + p1) / 4096) && IsInt32(p0 / 4096 * 4096 * 4)
    ensures Share(p0, (p0 + p1) / 4096) == 16384 * (p0 / 4096) / ((p0 + p1) / 4096)
    ensures 0 <= Share(p0, (p0 + p1) / 4096) <= 16384
  {
    var a, h := p0 / 4096, (p0 + p1) / 4096;
    assert 0 <= a <= h <= 32767;
    DivUpper(16385, 16384 * a, h);
    DivLower(0, 16384 * a, h);
  }

  /** Any input at all gives a probability in 0..347 * 2047 once the deviation is floored. */
  lemma ProbabilityBounds(input: int, mean: int, std: int)
    requires 378 <= std <= 32767
    ensures 0 <= Probability(input, mean, std) <= 347 * 2047
  {
    InvStdBounds(std);
    var t := Exponent(input, mean, std);
    ExpOfLogBounds(NegLog(t));
    BoundedProduct(InvStd(std), ExpValue(t));
  }

  lemma BoundedProduct(inv: nat, x: nat)
    requires inv <= 347 && x <= 2047
    ensures 0 <= inv * x <= 347 * 2047
  {
    ProductBound(inv, 347, x, 2047);
    NonNegativeProduct(inv, x);
  }

  lemma ExpOfLogBounds(log: int)
    ensures 0 <= ExpOfLog(log) <= 2047
  {
    DivMonotone(1024 + log % 1024, 2047, Pow2(((-log - 1) / 1024 + 1) % 32), 1);
  }
}
