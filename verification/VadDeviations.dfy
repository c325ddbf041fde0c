/** Which way a frame moves the deviations: up when the scaled squared distance of the feature is above one, down when
    it is below, by an amount that is given; and where the code's narrow words turn that round. */
module VadDeviations {
  import opened FixedPoint
  import opened VadModel
  import opened VadInvariants
  import opened VadCore
  import opened VadReach
  import opened VadLearning
  import G = VadGaussian

  // ---------------------------------------------------------------- the squared distance

  /** By how much, in Q12, the squared distance of the feature, measured in deviations, is above one. */
  function SpeechExcess(g: Gaussian, feature: int, delta: int): int { delta * (feature - (g.mean + 4) / 8) / 8 - 4096 }

  function NoiseExcess(g: Gaussian, feature: int, delta: int): int { delta * (feature - g.mean / 8) / 8 - 4096 }

  /** The excess of a feature to which the Gaussian gives a probability. */
  predicate Plausible(excess: int) { -4400 <= excess <= 53000 }

  lemma MeasuredIsPlausible(delta: int, d: int, dist: int)
    requires -2563 <= delta <= 2563 && 0 <= delta * d < 512 * 7099
    requires -4 <= 8 * dist - d <= 7
    ensures Plausible(delta * dist / 8 - 4096)
  {
    SplitProduct(delta, dist, d, 8 * dist - d);
    if delta >= 0 {
      ScaleOrder(-4, 8 * dist - d, delta);
      ScaleOrder(8 * dist - d, 7, delta);
    } else {
      ScaleOrder(-4, 8 * dist - d, -delta);
      ScaleOrder(8 * dist - d, 7, -delta);
      assert delta * (8 * dist - d) == -((8 * dist - d) * (-delta));
    }
  }

  lemma SpeechExcessIs(g: Gaussian, feature: int, e: Evidence)
    requires Measured(e, 8 * feature - g.mean)
    ensures e.share > 0 ==> Plausible(SpeechExcess(g, feature, e.delta))
  {
    if e.share > 0 {
      MeasuredIsPlausible(e.delta, 8 * feature - g.mean, feature - (g.mean + 4) / 8);
    }
  }

  lemma NoiseExcessIs(g: Gaussian, feature: int, e: Evidence)
    requires Measured(e, 8 * feature - g.mean)
    ensures e.share > 0 ==> Plausible(NoiseExcess(g, feature, e.delta))
  {
    if e.share > 0 {
      MeasuredIsPlausible(e.delta, 8 * feature - g.mean, feature - g.mean / 8);
    }
  }

  // ---------------------------------------------------------------- dividing with a sign

  lemma QuotientIs(n: nat, den: int)
    requires 0 < den && n <= 32767 * den
    ensures 0 <= n / den <= 32767 && 0 <= n - n / den * den < den
  {
    DivLower(0, n, den);
    DivUpper(32768, n, den);
    DivBracket(n, den);
  }

  lemma SignedStepOf(num: int, den: int)
    requires 0 < den
    ensures SignedStep(num, den) == if num > 0 then W16(num / den) else W16(-W16((-num) / den))
  {
    hide W16;
  }

  lemma SignedStepIs(num: int, den: int)
    requires 0 < den && -32767 * den <= num <= 32767 * den
    ensures
      var step := SignedStep(num, den);
      && IsInt16(step) && -den < num - step * den < den
      && (num >= 0 ==> step >= 0 && step * den <= num) && (num <= 0 ==> step <= 0 && num <= step * den)
  {
    hide SignedStep;
    SignedStepOf(num, den);
    var q := Abs(num) / den;
    QuotientIs(Abs(num), den);
    assert (-q) * den == -(q * den);
  }

  // ---------------------------------------------------------------- the speech deviation

  /** The new speech deviation, before the floor, from what it depends on. */
  function SpeechSpread(std: int, share: int, excess: int): int {
    W16(std + W16(SignedStep(W32((share / 4) * excess) / 16, W16(std * 10)) + 128) / 256)
  }

  lemma SpeechStdIs(g: Gaussian, feature: int, e: Evidence)
    requires G.InRange(feature, g.mean, g.std)
    ensures
      var x := SpeechSpread(g.std, e.share, SpeechExcess(g, feature, e.delta));
      SpeechStd(g, feature, e) == if x < 384 then 384 else x
  {
    hide SignedStep, W32, W16, IsInt16, G.InRange;
    RoundedMeans(g, feature);
  }

  lemma RoundedMeans(g: Gaussian, feature: int)
    requires G.InRange(feature, g.mean, g.std)
    ensures W16(feature - W16((g.mean + 4) / 8)) == feature - (g.mean + 4) / 8
    ensures W16(feature - g.mean / 8) == feature - g.mean / 8
  {
  }

  /** The deviation moves by the product of a quarter of the share and the excess, over 40960 times the deviation, to
      within about one half; up for an excess, down for a lack. */
  predicate SpeechSpreads(std: int, x: int, share: int, excess: int) {
    && -20640 * std - 16 <= 40960 * (std * (x - std)) - (share / 4) * excess <= 20640 * std + 16
    && (excess >= 0 ==> x >= std) && (excess <= 0 ==> x <= std)
  }

  lemma QuarterProduct(q: int, excess: int)
    requires 0 <= q <= 4096 && Plausible(excess)
    ensures -4096 * 4400 <= q * excess <= 4096 * 53000
    ensures excess >= 0 ==> q * excess >= 0
    ensures excess <= 0 ==> q * excess <= 0
  {
    if excess >= 0 {
      ScaleOrder(0, q, excess);
      ScaleOrder(q, 4096, excess);
    } else {
      ScaleOrder(0, q, -excess);
      ScaleOrder(q, 4096, -excess);
      assert q * (-excess) == -(q * excess);
    }
  }

  lemma SpreadOfProduct(std: int, product: int)
    requires 378 <= std <= 3276 && -4096 * 4400 <= product <= 4096 * 53000
    ensures
      var x := W16(std + W16(SignedStep(W32(product) / 16, W16(std * 10)) + 128) / 256);
      && -20640 * std - 16 <= 40960 * (std * (x - std)) - product <= 20640 * std + 16
      && (product >= 0 ==> x >= std) && (product <= 0 ==> x <= std)
  {
    hide SignedStep;
    var num, den := product / 16, std * 10;
    assert W32(product) == product && W16(den) == den;
    SignedStepIs(num, den);
    var step := SignedStep(num, den);
    StepIsSmall(step, num, den);
    SpreadBrackets(std, step, (step + 128) / 256, product);
  }

  lemma StepIsSmall(step: int, num: int, den: int)
    requires 3780 <= den && -den < num - step * den < den && -2_000_000 <= num <= 14_000_000
    ensures -600 <= step <= 4000
  {
    if step > 4000 {
      ScaleOrder(4001, step, den);
    } else if step < -600 {
      ScaleOrder(step, -601, den);
    }
  }

  lemma SpreadBrackets(std: int, step: int, k: int, product: int)
    requires std > 0 && -(10 * std) < product / 16 - step * (std * 10) < 10 * std && step - 127 <= 256 * k <= step + 128
    ensures -20640 * std - 16 <= 40960 * (std * k) - product <= 20640 * std + 16
  {
    ScaleOrder(step - 127, 256 * k, std * 10);
    ScaleOrder(256 * k, step + 128, std * 10);
    assert 256 * k * (std * 10) == 2560 * (std * k);
    assert (step - 127) * (std * 10) == step * (std * 10) - 1270 * std;
    assert (step + 128) * (std * 10) == step * (std * 10) + 1280 * std;
  }

  lemma SpeechSpreadFollows(std: int, share: int, excess: int)
    requires 378 <= std <= 3276 && 0 <= share <= 16384 && (share > 0 ==> Plausible(excess))
    ensures SpeechSpreads(std, SpeechSpread(std, share, excess), share, excess)
  {
    hide SignedStep, W16, W32;
    if share > 0 {
      QuarterProduct(share / 4, excess);
      SpreadOfProduct(std, (share / 4) * excess);
    } else {
      assert (share / 4) * excess == 0;
      SpreadOfProduct(std, 0);
    }
  }

  ghost predicate AlwaysSpreads(std: int) {
    forall share, excess | 0 <= share <= 16384 && Plausible(excess) ::
      SpeechSpreads(std, SpeechSpread(std, share, excess), share, excess)
  }

  /** Ten times the deviation has to be a word: above 3276 the code divides by something else. */
  lemma SpreadIsExact(std: int)
    requires 378 <= std <= 32767
    ensures AlwaysSpreads(std) <==> std <= 3276
  {
    hide SpeechSpreads, SpeechSpread;
    if std <= 3276 {
      forall share, excess | 0 <= share <= 16384 && Plausible(excess)
        ensures SpeechSpreads(std, SpeechSpread(std, share, excess), share, excess)
      {
        SpeechSpreadFollows(std, share, excess);
      }
    } else {
      WrongSpread(std);
    }
  }

  /** An excess that the wrapped divisor turns into a step of about 385/256. */
  function Witness(std: int): int { (385 * Abs(W16(std * 10)) + 255) / 256 }

  lemma WrongSpread(std: int)
    requires 3276 < std <= 32767
    ensures
      var excess := Witness(std);
      Plausible(excess) && !SpeechSpreads(std, SpeechSpread(std, 16384, excess), 16384, excess)
  {
    hide SignedStep, W16, W32, SpeechSpreads, SpeechSpread;
    WrappedDivisor(std);
    WitnessIs(W16(std * 10), Witness(std));
    WrongSpreadOf(std, W16(std * 10), Witness(std));
  }

  lemma WrongSpreadOf(std: int, den: int, excess: int)
    requires 3276 < std <= 32767 && den == W16(std * 10) && den != 0 && den % 2 == 0
    requires den > 0 ==> den <= 10 * std - 65536
    requires 0 < excess && 385 * Abs(den) <= 256 * excess < 385 * Abs(den) + 256
    requires W32((16384 / 4) * excess) / 16 == 256 * excess
    ensures !SpeechSpreads(std, SpeechSpread(std, 16384, excess), 16384, excess)
  {
    hide SignedStep, W16, W32, SpeechSpreads;
    WrongStep(den, 256 * excess);
    TwoOff(std, SignedStep(256 * excess, den));
    TwoIsTooMuch(std, SpeechSpread(std, 16384, excess), den, excess);
  }

  lemma WitnessIs(den: int, excess: int)
    requires IsInt16(den) && den != 0 && excess == (385 * Abs(den) + 255) / 256
    ensures 0 < excess <= 53000 && 385 * Abs(den) <= 256 * excess < 385 * Abs(den) + 256
    ensures W32((16384 / 4) * excess) / 16 == 256 * excess
  {
    hide W32;
    var a := 385 * Abs(den) + 255;
    assert a - 255 <= 256 * (a / 256) <= a;
    assert 4096 * excess == 16 * (256 * excess);
  }

  lemma TwoIsTooMuch(std: int, x: int, den: int, excess: int)
    requires 3276 < std <= 32767 && 0 < excess && 256 * excess < 385 * Abs(den) + 256
    requires x < std || (x == std + 2 && 0 < den <= 10 * std - 65536)
    ensures !SpeechSpreads(std, x, 16384, excess)
  {
    if x >= std {
      assert std * (x - std) == 2 * std;
      assert (16384 / 4) * excess == 4096 * excess < 16 * (385 * den + 256);
    }
  }

  lemma WrappedDivisor(std: int)
    requires 3276 < std <= 32767
    ensures W16(std * 10) != 0 && W16(std * 10) % 2 == 0
    ensures W16(std * 10) > 0 ==> W16(std * 10) <= 10 * std - 65536
  {
    hide W16;
    TurnsOf(std * 10);
    NotATurn(std, (std * 10 + 32768) / 65536);
  }

  lemma TurnsOf(x: int)
    requires x > 32767
    ensures W16(x) == x - 65536 * ((x + 32768) / 65536)
  {
    assert x + 32768 == 65536 * ((x + 32768) / 65536) + (x + 32768) % 65536;
  }

  lemma NotATurn(std: int, k: int)
    requires 3276 < std <= 32767 && -32768 <= 10 * std - 65536 * k <= 32767
    ensures 1 <= k <= 5 && 10 * std - 65536 * k == 2 * (5 * std - 32768 * k) != 0
  {
    assert k == 5 ==> 5 * std < 32768 * 5;
    assert k < 5 ==> (32768 * k) % 5 != 0;
  }

  lemma WrongStep(den: int, num: int)
    requires IsInt16(den) && den != 0 && den % 2 == 0 && 385 * Abs(den) <= num < 385 * Abs(den) + 256
    ensures den > 0 ==> 385 <= SignedStep(num, den) <= 512
    ensures den < 0 ==> -512 <= SignedStep(num, den) <= -385
  {
    hide W16;
    var q := num / Abs(den);
    DivLower(385, num, Abs(den));
    DivUpper(513, num, Abs(den));
    if den > 0 {
      SignedStepOf(num, den);
    } else {
      assert SignedStep(num, den) == W16(-q);
    }
  }

  lemma TwoOff(std: int, step: int)
    requires 3276 < std <= 32767
    ensures
      var x := W16(std + W16(step + 128) / 256);
      && (385 <= step <= 512 ==> x == std + 2 || x < std)
      && (-512 <= step <= -385 ==> x < std)
  {
  }

  // ---------------------------------------------------------------- the noise deviation

  /** The new noise deviation, before the floor, from what it depends on. */
  function NoiseSpread(std: int, share: int, excess: int): int { SpreadBy(std, W32(((share + 2) / 4) * excess)) }

  function SpreadBy(std: int, product: int): int { W16(std + W16(SignedStep(product / 0x4000, std) + 32) / 64) }

  lemma NoiseStdIs(g: Gaussian, feature: int, e: Evidence)
    requires G.InRange(feature, g.mean, g.std)
    ensures
      var x := NoiseSpread(g.std, e.share, NoiseExcess(g, feature, e.delta));
      NoiseStd(g, feature, e) == if x < 384 then 384 else x
  {
    hide SignedStep, W32, W16, IsInt16, G.InRange;
    RoundedMeans(g, feature);
  }

  /** The deviation moves by the product of a quarter of the share and the excess, over 2^20 times the deviation, to
      within about one half; up for an excess, down for a lack. */
  predicate NoiseSpreads(std: int, x: int, share: int, excess: int) {
    && -0x4000 * (33 * std + 1) <= 0x10_0000 * (std * (x - std)) - ((share + 2) / 4) * excess <= 0x4000 * (33 * std + 1)
    && (excess >= 0 ==> x >= std) && (excess <= 0 ==> x <= std)
  }

  /** The quotient, rounded, for any 32-bit product. */
  lemma NoiseSpreadStep(std: int, product: int)
    requires 378 <= std <= 32767 && IsInt32(product)
    ensures
      var step := SignedStep(product / 0x4000, std);
      && -347 <= step <= 347 && -std < product / 0x4000 - step * std < std
      && (product <= 0 ==> product / 0x4000 <= step * std)
      && W16(std + W16(step + 32) / 64) == std + (step + 32) / 64
      && (product >= 0 ==> step >= 0) && (product <= 0 ==> step <= 0)
  {
    hide SignedStep, W16;
    var num := product / 0x4000;
    SignedStepIs(num, std);
    var step := SignedStep(num, std);
    NoiseStepIsSmall(step, num, std);
  }

  lemma NoiseStepIsSmall(step: int, num: int, std: int)
    requires 378 <= std <= 32767 && -std < num - step * std < std && -131072 <= num <= 131071
    ensures -347 <= step <= 347 && std + (step + 32) / 64 <= 32767
  {
    assert 131072 + std <= 348 * std;
    MulCancel(step, 348, std);
    MulCancel(-348, step, std);
    if std > 32000 {
      MulCancel(step, 6, std);
    }
  }

  lemma NoiseSpreadBrackets(std: int, step: int, k: int, product: int)
    requires std > 0 && -std < product / 0x4000 - step * std < std && step - 31 <= 64 * k <= step + 32
    ensures -0x4000 * (33 * std + 1) <= 0x10_0000 * (std * k) - product <= 0x4000 * (33 * std + 1)
  {
    Grown(std, step, k);
    SumOfRoundings(std, step * std, std * k, product);
  }

  lemma Grown(std: int, step: int, k: int)
    requires std > 0 && step - 31 <= 64 * k <= step + 32
    ensures step * std - 31 * std <= 64 * (std * k) <= step * std + 32 * std
  {
    ScaleOrder(step - 31, 64 * k, std);
    ScaleOrder(64 * k, step + 32, std);
    assert 64 * k * std == 64 * (std * k);
    assert (step - 31) * std == step * std - 31 * std;
    assert (step + 32) * std == step * std + 32 * std;
  }

  lemma SumOfRoundings(std: int, p: int, a: int, product: int)
    requires -std < product / 0x4000 - p < std && p - 31 * std <= 64 * a <= p + 32 * std
    ensures -0x4000 * (33 * std + 1) <= 0x10_0000 * a - product <= 0x4000 * (33 * std + 1)
  {
  }

  /** The rounded step is negative from 33 times the deviation on. */
  lemma StepDown(std: int, step: int, num: int)
    requires std > 0 && -std < num - step * std < std
    requires (num >= 0 ==> step >= 0) && (num <= 0 ==> num <= step * std)
    ensures (step + 32) / 64 < 0 <==> num <= -33 * std
  {
    if num <= -33 * std {
      MulCancel(step, -32, std);
    } else if num < 0 {
      MulCancel(-33, step, std);
    }
  }

  lemma SpreadByStep(std: int, product: int)
    requires 378 <= std <= 32767 && IsInt32(product)
    ensures SpreadBy(std, product) == std + (SignedStep(product / 0x4000, std) + 32) / 64
  {
    hide SignedStep, W16;
    NoiseSpreadStep(std, product);
  }

  lemma SpreadByIs(std: int, product: int)
    requires 378 <= std <= 32767 && IsInt32(product)
    ensures
      var x := SpreadBy(std, product);
      && -0x4000 * (33 * std + 1) <= 0x10_0000 * (std * (x - std)) - product <= 0x4000 * (33 * std + 1)
      && (product >= 0 ==> x >= std) && (product <= 0 ==> x <= std)
      && (x < std <==> product / 0x4000 <= -33 * std)
  {
    hide SpreadBy, SignedStep, W16;
    SpreadByStep(std, product);
    NoiseSpreadStep(std, product);
    SpreadFrom(std, SpreadBy(std, product), SignedStep(product / 0x4000, std), product);
  }

  lemma SpreadFrom(std: int, x: int, step: int, product: int)
    requires std > 0 && x == std + (step + 32) / 64 && -std < product / 0x4000 - step * std < std
    requires (product >= 0 ==> step >= 0) && (product <= 0 ==> step <= 0 && product / 0x4000 <= step * std)
    ensures -0x4000 * (33 * std + 1) <= 0x10_0000 * (std * (x - std)) - product <= 0x4000 * (33 * std + 1)
    ensures (product >= 0 ==> x >= std) && (product <= 0 ==> x <= std)
    ensures x < std <==> product / 0x4000 <= -33 * std
  {
    NoiseSpreadBrackets(std, step, x - std, product);
    StepDown(std, step, product / 0x4000);
  }

  lemma NoiseSpreadFollows(std: int, share: int, excess: int)
    requires 378 <= std <= 32767 && 0 <= share <= 16384 && (share > 0 ==> Plausible(excess))
    ensures NoiseSpreads(std, NoiseSpread(std, share, excess), share, excess)
  {
    hide SpreadBy, W32;
    var product := ((share + 2) / 4) * excess;
    if share > 0 {
      QuarterProduct((share + 2) / 4, excess);
    } else {
      assert product == 0;
    }
    SpreadByIs(std, product);
  }

  /** On the default share the product may leave 32 bits. What is left of it decides whether an excess raises the
      deviation; a lack never does. */
  lemma DefaultSpread(std: int, excess: int)
    requires 378 <= std <= 32767 && -7680 <= excess
    ensures
      var x := NoiseSpread(std, 16384, excess);
      && (excess <= 0 ==> x <= std)
      && (excess >= 0 ==> (x >= std <==> W32(4096 * excess) / 0x4000 > -33 * std))
  {
    hide SpreadBy, W32;
    SpreadByIs(std, W32(4096 * excess));
  }

  lemma DefaultExcess(delta: int, d: int, dist: int)
    requires IsInt16(delta) && (d >= 0 ==> delta >= 0) && (d <= 0 ==> delta <= 0) && 0 <= 8 * dist - d <= 7
    ensures delta * dist / 8 - 4096 >= -7680
  {
    SplitProduct(delta, dist, d, 8 * dist - d);
    if d >= 0 {
      NonNegativeProduct(delta, d);
    } else {
      NonNegativeProduct(-delta, -d);
      assert delta * d == (-delta) * (-d);
    }
    ProductBound(8 * dist - d, 7, delta, 32768);
  }

  // ---------------------------------------------------------------- the deviations after a frame

  /** A speech frame moves both speech deviations as their excess says, if ten times each is a word, and no other. */
  predicate SpeechFrameSpreads(m: Channel, e: ChannelEvidence, feature: int, l: Channel) {
    var s0, s1 := m.speech0.std, m.speech1.std;
    var d0, d1 := SpeechExcess(m.speech0, feature, e.speech0.delta), SpeechExcess(m.speech1, feature, e.speech1.delta);
    var x0, x1 := SpeechSpread(s0, e.speech0.share, d0), SpeechSpread(s1, e.speech1.share, d1);
    && l.noise0.std == m.noise0.std && l.noise1.std == m.noise1.std
    && Held(x0, l.speech0.std, 384, 32767) && (s0 <= 3276 ==> SpeechSpreads(s0, x0, e.speech0.share, d0))
    && Held(x1, l.speech1.std, 384, 32767) && (s1 <= 3276 ==> SpeechSpreads(s1, x1, e.speech1.share, d1))
  }

  /** A noise frame moves both noise deviations as their excess says, except for the first one on the default share. */
  predicate NoiseFrameSpreads(c: ChannelIndex, m: Channel, e: ChannelEvidence, feature: int, l: Channel) {
    var s0, s1 := m.noise0.std, m.noise1.std;
    var d0, d1 := NoiseExcess(m.noise0, feature, e.noise0.delta), NoiseExcess(m.noise1, feature, e.noise1.delta);
    var x0, x1 := NoiseSpread(s0, e.noise0.share, d0), NoiseSpread(s1, e.noise1.share, d1);
    && l.speech0.std == m.speech0.std && l.speech1.std == m.speech1.std
    && Held(x0, l.noise0.std, 384, 32767) && Held(x1, l.noise1.std, 384, 32767)
    && NoiseSpreads(s1, x1, e.noise1.share, d1)
    && (HasNoise(c, m, feature) ==> NoiseSpreads(s0, x0, e.noise0.share, d0))
    && (d0 <= 0 ==> x0 <= s0)
    && (d0 >= 0 ==> (x0 >= s0 <==> HasNoise(c, m, feature) || W32(4096 * d0) / 0x4000 > -33 * s0))
  }

  lemma SpeechFrameStds(c: ChannelIndex, m: Channel, feature: int, minimum: int)
    requires ChannelOk(c, m) && SpeechBand(c, m) && FeatureOk(c, feature)
    ensures
      var e := Detect(c, m, feature);
      SpeechFrameSpreads(m, e, feature, Learn(c, m, e, feature, true, minimum, MaxSpe(c)))
  {
    hide Detect, SpeechStd, NoiseGlobal, HasNoise, Measured, NoiseMean, SpeechMean, SpeechSpread, SpeechExcess,
      SpeechSpreads, NoiseOk, SpeechOk, SpeechBand, G.InRange, W16;
    DetectIsEvident(c, m, feature);
    ChannelInRange(c, m, feature);
    var e := Detect(c, m, feature);
    OneSpeechStd(m.speech0, feature, e.speech0);
    OneSpeechStd(m.speech1, feature, e.speech1);
  }

  lemma OneSpeechStd(g: Gaussian, feature: int, e: Evidence)
    requires G.InRange(feature, g.mean, g.std) && Measured(e, 8 * feature - g.mean)
    ensures
      var d := SpeechExcess(g, feature, e.delta);
      var x := SpeechSpread(g.std, e.share, d);
      Held(x, SpeechStd(g, feature, e), 384, 32767) && (g.std <= 3276 ==> SpeechSpreads(g.std, x, e.share, d))
  {
    hide SignedStep, W32, SpeechExcess, SpeechStd, SpeechSpreads;
    SpeechExcessIs(g, feature, e);
    SpeechStdIs(g, feature, e);
    if g.std <= 3276 {
      SpeechSpreadFollows(g.std, e.share, SpeechExcess(g, feature, e.delta));
    }
  }

  lemma NoiseFrameStds(c: ChannelIndex, m: Channel, feature: int, minimum: int)
    requires ChannelOk(c, m) && SpeechBand(c, m) && FeatureOk(c, feature)
    ensures
      var e := Detect(c, m, feature);
      NoiseFrameSpreads(c, m, e, feature, Learn(c, m, e, feature, false, minimum, MaxSpe(c)))
  {
    hide Detect, NoiseStd, NoiseGlobal, HasNoise, Measured, NoiseMean, NoiseSpread, NoiseExcess, W32,
      NoiseSpreads, NoiseOk, SpeechOk, SpeechBand, G.InRange, W16;
    DetectIsEvident(c, m, feature);
    ChannelInRange(c, m, feature);
    var e := Detect(c, m, feature);
    OneNoiseStd(m.noise1, feature, e.noise1);
    if HasNoise(c, m, feature) {
      OneNoiseStd(m.noise0, feature, e.noise0);
      SpreadsMeans(m.noise0.std, e.noise0.share, m.noise0, feature, e.noise0);
    } else {
      DefaultNoiseStd(m.noise0, feature, e.noise0);
    }
  }

  lemma SpreadsMeans(std: int, share: int, g: Gaussian, feature: int, e: Evidence)
    requires NoiseSpreads(std, NoiseSpread(std, share, NoiseExcess(g, feature, e.delta)), share,
                          NoiseExcess(g, feature, e.delta))
    ensures
      var d := NoiseExcess(g, feature, e.delta);
      var x := NoiseSpread(std, share, d);
      (d <= 0 ==> x <= std) && (d >= 0 ==> x >= std)
  {
    hide NoiseSpread, NoiseExcess;
  }

  lemma OneNoiseStd(g: Gaussian, feature: int, e: Evidence)
    requires G.InRange(feature, g.mean, g.std) && Measured(e, 8 * feature - g.mean)
    ensures
      var d := NoiseExcess(g, feature, e.delta);
      var x := NoiseSpread(g.std, e.share, d);
      Held(x, NoiseStd(g, feature, e), 384, 32767) && NoiseSpreads(g.std, x, e.share, d)
  {
    hide SignedStep, W32, NoiseExcess, NoiseStd, NoiseSpreads;
    NoiseExcessIs(g, feature, e);
    NoiseStdIs(g, feature, e);
    NoiseSpreadFollows(g.std, e.share, NoiseExcess(g, feature, e.delta));
  }

  lemma DefaultNoiseStd(g: Gaussian, feature: int, e: Evidence)
    requires G.InRange(feature, g.mean, g.std) && IsInt16(e.delta) && e.share == 16384
    requires Measured(e.(share := 0), 8 * feature - g.mean)
    ensures
      var d := NoiseExcess(g, feature, e.delta);
      var x := NoiseSpread(g.std, e.share, d);
      && Held(x, NoiseStd(g, feature, e), 384, 32767)
      && (d <= 0 ==> x <= g.std) && (d >= 0 ==> (x >= g.std <==> W32(4096 * d) / 0x4000 > -33 * g.std))
  {
    hide SignedStep, W32, NoiseStd;
    NoiseStdIs(g, feature, e);
    DefaultExcess(e.delta, 8 * feature - g.mean, feature - g.mean / 8);
    DefaultSpread(g.std, NoiseExcess(g, feature, e.delta));
  }

  // ---------------------------------------------------------------- over whole runs

  /** In every reachable state, learning moves the means and deviations of a channel as described, whatever the feature
      and the minimum of the last frames. */
  lemma RunLearns(calls: seq<Call>, c: ChannelIndex, feature: int, minimum: int)
    requires forall i | 0 <= i < |calls| :: calls[i].Ok()
    requires FeatureOk(c, feature)
    ensures
      var m := Run(calls).channels[c];
      var e := Detect(c, m, feature);
      var l := Learn(c, m, e, feature, true, minimum, MaxSpe(c));
      SpeechFrameMeans(c, m, e, feature, minimum, l) && SpeechFrameSpreads(m, e, feature, l)
    ensures
      var m := Run(calls).channels[c];
      var e := Detect(c, m, feature);
      var l := Learn(c, m, e, feature, false, minimum, MaxSpe(c));
      NoiseFrameMeans(c, m, e, feature, minimum, l) && NoiseFrameSpreads(c, m, e, feature, l)
  {
    hide Run, ChannelOk, SpeechBand, Floored, FeatureOk, Detect, Learn, SpeechFrameMeans, SpeechFrameSpreads,
      NoiseFrameMeans, NoiseFrameSpreads;
    ProcessedRun(calls);
    RunInBand(calls, c);
    var m := Run(calls).channels[c];
    SpeechFrame(c, m, feature, minimum);
    SpeechFrameStds(c, m, feature, minimum);
    NoiseFrame(c, m, feature, minimum);
    NoiseFrameStds(c, m, feature, minimum);
  }

  // ---------------------------------------------------------------- where the default share goes wrong

  /** Beyond the cut-off: the stages of the computation are given. */
  lemma NoneLeft(input: int, mean: int, std: int, inv: int, delta: int)
    requires G.InRange(input, mean, std) && inv * std <= 131072 + std / 2 < (inv + 1) * std
    requires delta == (inv / 4) * (inv / 4) / 4 * (input * 8 - mean) / 1024
    requires delta * (input * 8 - mean) / 512 >= G.COMP_VAR
    ensures G.Delta(input, mean, std) == delta && G.Probability(input, mean, std) == 0
  {
    hide G.InvStd, G.ExpOfLog, G.NegLog, G.Delta, G.ExactExp;
    G.InvStdBounds(std);
    DivLower(inv, 131072 + std / 2, std);
    DivUpper(inv + 1, 131072 + std / 2, std);
    G.VarianceIs(std);
    G.StepIsExact(input, mean, std);
  }

  lemma LoudEvidence(e: ChannelEvidence)
    requires e == Detect(4, StartChannel(4), 1837)
    ensures e.noise0 == Evidence(16384, 4272) && !HasNoise(4, StartChannel(4), 1837)
  {
    hide G.Delta, G.Probability, Posteriors, NoiseProbability, NoiseTest, SpeechProbability, SpeechTest;
    NoneLeft(1837, 6771, 688, 191, 4272);
    NoneLeft(1837, 5020, 421, 311, 14003);
    DetectIsBayes(4, StartChannel(4), 1837);
  }

  /** The first noise Gaussian of channel 4 in the start state and a loud feature: no probability is left. The mean
      moves away from the feature, and the deviation shrinks although the squared distance is 129 times the variance. */
  lemma LoudFeatureRunsAway(e: ChannelEvidence)
    requires e == Detect(4, StartChannel(4), 1837)
    ensures
      var g := StartChannel(4).noise0;
      && FeatureOk(4, 1837) && !HasNoise(4, StartChannel(4), 1837) && !Steady(e.noise0.delta)
      && g.mean < 8 * 1837 && g.mean + NoiseMeanStep(e.noise0.share, e.noise0.delta, false) < g.mean
      && NoiseExcess(g, 1837, e.noise0.delta) > 128 * 4096
      && NoiseSpread(g.std, e.noise0.share, NoiseExcess(g, 1837, e.noise0.delta)) < g.std
  {
    hide Detect, NoiseSpread, NoiseMeanStep, HasNoise;
    LoudEvidence(e);
    DefaultStep(4272);
    DefaultSpread(688, 525098);
    WrappedProduct();
  }

  lemma WrappedProduct()
    ensures W32(4096 * 525098) / 0x4000 <= -33 * 688
  {
  }
}
