/** Which way a frame moves the models: a mean towards the feature, a deviation up or down with the distance, the noise
    means besides towards the minimum of the last frames. */
module VadLearning {
  import opened FixedPoint
  import opened VadModel
  import opened VadInvariants
  import opened VadCore
  import opened VadReach
  import G = VadGaussian

  // ---------------------------------------------------------------- the shares

  /** s0 and s1 are the parts of p0 and p1 in their sum, in Q14. For a sum too small there is a default. */
  predicate Bayes(p0: int, p1: int, s0: int, s1: int, otherwise: int) {
    var h := (p0 + p1) / 4096;
    if h > 0 then 0 <= s0 <= 16384 && s0 + s1 == 16384 && s0 * h <= 16384 * (p0 / 4096) < (s0 + 1) * h
    else s0 == otherwise && s1 == 0
  }

  lemma PosteriorsAreBayes(p0: int, p1: int, otherwise: int)
    requires 0 <= p0 && 0 <= p1 && p0 + p1 < 0x800_0000
    ensures
      var s := Posteriors(p0, p0 + p1, otherwise);
      Bayes(p0, p1, s.0, s.1, otherwise)
  {
    hide G.Share;
    var a, h := p0 / 4096, (p0 + p1) / 4096;
    if h > 0 {
      G.SharesArePosteriors(p0, p1);
      DivBracket(16384 * a, h);
    }
  }

  /** A Gaussian with a share has a probability, unless the share is the default. */
  lemma ShareNeedsProbability(p0: int, p1: int, s0: int, s1: int, otherwise: int)
    requires 0 <= p0 && 0 <= p1 && Bayes(p0, p1, s0, s1, otherwise)
    ensures s0 > 0 && ((p0 + p1) / 4096 > 0 || otherwise == 0) ==> p0 > 0
    ensures s1 > 0 ==> p1 > 0
  {
    var h := (p0 + p1) / 4096;
    if h > 0 && p0 == 0 && s0 > 0 {
      ScaleOrder(1, s0, h);
    }
    if h > 0 && p1 == 0 && s1 > 0 {
      ScaleOrder(s0 + 1, 16384, h);
    }
  }

  /** The weighted probability of one Gaussian. */
  function Part(w: int, g: Gaussian, feature: int): int { w * G.Probability(feature, g.mean, g.std) }

  /** Detection hands each Gaussian its part of the probability of its mixture. */
  lemma DetectIsBayes(c: ChannelIndex, m: Channel, feature: int)
    requires StdsOk(m)
    ensures
      var n0, n1 := Part(NOISE_WEIGHTS[c], m.noise0, feature), Part(NOISE_WEIGHTS[c + 6], m.noise1, feature);
      var s0, s1 := Part(SPEECH_WEIGHTS[c], m.speech0, feature), Part(SPEECH_WEIGHTS[c + 6], m.speech1, feature);
      var e := Detect(c, m, feature);
      && n0 >= 0 && n1 >= 0 && Bayes(n0, n1, e.noise0.share, e.noise1.share, 16384)
      && s0 >= 0 && s1 >= 0 && Bayes(s0, s1, e.speech0.share, e.speech1.share, 0)
  {
    hide G.Probability, G.Delta, Posteriors, Bayes;
    WeightsSum(c);
    G.ProbabilityBounds(feature, m.noise0.mean, m.noise0.std);
    G.ProbabilityBounds(feature, m.noise1.mean, m.noise1.std);
    G.ProbabilityBounds(feature, m.speech0.mean, m.speech0.std);
    G.ProbabilityBounds(feature, m.speech1.mean, m.speech1.std);
    MixtureIsExact(NOISE_WEIGHTS[c], NOISE_WEIGHTS[c + 6], G.Probability(feature, m.noise0.mean, m.noise0.std),
                   G.Probability(feature, m.noise1.mean, m.noise1.std));
    MixtureIsExact(SPEECH_WEIGHTS[c], SPEECH_WEIGHTS[c + 6], G.Probability(feature, m.speech0.mean, m.speech0.std),
                   G.Probability(feature, m.speech1.mean, m.speech1.std));
    PosteriorsAreBayes(NoiseProbability(c, 0, m.noise0, feature), NoiseProbability(c, 1, m.noise1, feature), 16384);
    PosteriorsAreBayes(SpeechProbability(c, 0, m.speech0, feature), SpeechProbability(c, 1, m.speech1, feature), 0);
  }

  // ---------------------------------------------------------------- the distance of a feature that has a share

  /** Far from the mean the exponential is zero. */
  lemma PositiveExp(t: nat)
    requires G.ExactExp(t) > 0
    ensures t <= 7098
  {
    hide Pow2, G.Octave;
    var u := G.LOG2_EXP * t / 4096;
    var q, p := G.Octave(u), Pow2(G.Octave(u));
    var a := 1024 + (q * 1024 - u);
    if q >= 11 {
      Pow2Monotone(11, q);
      Eleven();
      DivUpper(1, a, p);
    }
  }

  lemma Eleven()
    ensures Pow2(11) == 2048
  {
    assert Pow2(5) == 32;
    Pow2Add(5, 6);
  }

  /** Where the exponential is positive, delta is small: eight times it is a word. */
  lemma SmallDelta(v: int, d: int)
    requires 0 <= v <= 1849 && v * d / 1024 * d < 512 * 7099
    ensures -2563 <= v * d / 1024 <= 2563
  {
    var delta := v * d / 1024;
    DeltaFollows(v, d);
    assert (-delta) * (-d) == delta * d;
    if delta >= 2564 {
      ProductAtLeast(delta, 2564, d, 1420);
    } else if delta <= -2564 {
      ProductAtLeast(-delta, 2564, -d, 1420);
    }
  }

  lemma ProductAtLeast(a: int, aMin: int, b: int, bMin: int)
    requires a >= aMin >= 0 && b >= bMin >= 0
    ensures a * b >= aMin * bMin
  {
  }

  /** Delta has the sign of the distance and is at most 1849/1024 of it. */
  lemma DeltaFollows(v: int, d: int)
    requires 0 <= v <= 1849
    ensures d >= 0 ==> 0 <= 1024 * (v * d / 1024) <= 1849 * d
    ensures d <= 0 ==> 1849 * d - 1023 <= 1024 * (v * d / 1024) <= 0
  {
    if d >= 0 {
      ScaleOrder(0, v, d);
      ScaleOrder(v, 1849, d);
    } else {
      ScaleOrder(0, v, -d);
      ScaleOrder(v, 1849, -d);
      assert v * (-d) == -(v * d);
    }
  }

  /** What detection knows about a Gaussian with a positive share, or with none. */
  predicate Measured(e: Evidence, d: int) {
    && 0 <= e.share <= 16384
    && (d >= 0 ==> 0 <= 1024 * e.delta <= 1849 * d)
    && (d <= 0 ==> 1849 * d - 1023 <= 1024 * e.delta <= 0)
    && (e.share > 0 ==> -2563 <= e.delta <= 2563 && 0 <= e.delta * d < 512 * 7099)
  }

  lemma MeasuredOf(share: int, v: int, d: int)
    requires 0 <= v <= 1849 && 0 <= share <= 16384 && 0 <= v * d / 1024 * d
    requires share > 0 ==> v * d / 1024 * d < 512 * 7099
    ensures Measured(Evidence(share, v * d / 1024), d)
  {
    DeltaFollows(v, d);
    if share > 0 {
      SmallDelta(v, d);
    }
  }

  lemma MeasuredIf(g: Gaussian, feature: int, share: int)
    requires G.InRange(feature, g.mean, g.std) && 0 <= share <= 16384
    requires share > 0 ==> G.Probability(feature, g.mean, g.std) != 0
    ensures Measured(Weigh(g, feature, share), 8 * feature - g.mean)
  {
    hide Measured, G.InvVariance, G.InvStd, G.Exponent, G.Delta, G.ExactExp, G.Probability, G.InRange, G.NoOverflow;
    var v, d := G.InvVariance(g.std), 8 * feature - g.mean;
    DeltaIs(feature, g.mean, g.std);
    if share > 0 {
      NotZero(feature, g.mean, g.std);
      PositiveExp(G.Exponent(feature, g.mean, g.std));
    }
    MeasuredOf(share, v, d);
  }

  lemma DeltaIs(input: int, mean: int, std: int)
    requires G.InRange(input, mean, std)
    ensures
      var v, d := G.InvVariance(std), 8 * input - mean;
      && 0 <= v <= 1849 && G.Delta(input, mean, std) == v * d / 1024
      && 0 <= v * d / 1024 * d && G.Exponent(input, mean, std) == v * d / 1024 * d / 512
  {
    hide G.InvVariance, G.InvStd, G.ExpValue, G.ExactExp, G.Delta;
    G.StepIsExact(input, mean, std);
    G.InvStdBounds(std);
    G.DeltaBounds(G.InvVariance(std), 8 * input - mean);
  }

  lemma NotZero(input: int, mean: int, std: int)
    requires G.InRange(input, mean, std) && G.Probability(input, mean, std) != 0
    ensures G.Exponent(input, mean, std) >= 0 && G.ExactExp(G.Exponent(input, mean, std)) > 0
  {
    hide G.InvStd, G.Exponent, G.ExpValue, G.ExactExp;
    G.StepIsExact(input, mean, std);
  }

  lemma DeltaIsWord(g: Gaussian, feature: int)
    ensures IsInt16(G.Delta(feature, g.mean, g.std))
  {
    hide G.InvVariance, G.Offset;
  }

  /** The code's `h0 > 0`: the noise mixture gives the feature a probability worth dividing by. */
  predicate HasNoise(c: ChannelIndex, m: Channel, feature: int) {
    (Part(NOISE_WEIGHTS[c], m.noise0, feature) + Part(NOISE_WEIGHTS[c + 6], m.noise1, feature)) / 4096 > 0
  }

  /** What detection hands to learning, in every channel a run can reach. */
  predicate Evident(c: ChannelIndex, m: Channel, feature: int, e: ChannelEvidence) {
    && Measured(e.speech0, 8 * feature - m.speech0.mean) && Measured(e.speech1, 8 * feature - m.speech1.mean)
    && Measured(e.noise1, 8 * feature - m.noise1.mean)
    && (HasNoise(c, m, feature) ==> Measured(e.noise0, 8 * feature - m.noise0.mean))
    && (!HasNoise(c, m, feature) ==>
          e.noise0.share == 16384 && Measured(e.noise0.(share := 0), 8 * feature - m.noise0.mean))
    && IsInt16(e.noise0.delta)
  }

  lemma DetectIsEvident(c: ChannelIndex, m: Channel, feature: int)
    requires ChannelOk(c, m) && SpeechBand(c, m) && FeatureOk(c, feature)
    ensures Evident(c, m, feature, Detect(c, m, feature))
  {
    hide G.Probability, G.InRange, G.Delta, Measured, NoiseOk, SpeechOk, SpeechBand, Posteriors, FeatureOk,
      NoiseProbability, NoiseTest, SpeechProbability, SpeechTest;
    ChannelInRange(c, m, feature);
    DetectIsBayes(c, m, feature);
    WeightsSum(c);
    var e := Detect(c, m, feature);
    var n0, n1 := Part(NOISE_WEIGHTS[c], m.noise0, feature), Part(NOISE_WEIGHTS[c + 6], m.noise1, feature);
    var s0, s1 := Part(SPEECH_WEIGHTS[c], m.speech0, feature), Part(SPEECH_WEIGHTS[c + 6], m.speech1, feature);
    ShareNeedsProbability(n0, n1, e.noise0.share, e.noise1.share, 16384);
    ShareNeedsProbability(s0, s1, e.speech0.share, e.speech1.share, 0);
    DeltaIsWord(m.noise0, feature);
    MeasuredIf(m.speech0, feature, e.speech0.share);
    MeasuredIf(m.speech1, feature, e.speech1.share);
    MeasuredIf(m.noise1, feature, e.noise1.share);
    MeasuredIf(m.noise0, feature, if HasNoise(c, m, feature) then e.noise0.share else 0);
  }

  // ---------------------------------------------------------------- a mean moves towards the feature

  /** x is between the mean and the target. */
  predicate Towards(mean: int, x: int, target: int) { mean <= x <= target || target <= x <= mean }

  /** The point of lo..hi nearest to x. */
  predicate Held(x: int, r: int, lo: int, hi: int) { lo <= r <= hi && (r < x ==> r == hi) && (r > x ==> r == lo) }

  /** A speech mean moves by 6554 / 2^33 of share times delta, rounded to the nearest. From 2048 * 321 on it moves. */
  predicate SpeechMove(mean: int, x: int, e: Evidence) {
    && -0x1_0000_0000 - 6554 * 2048 <= 0x2_0000_0000 * (x - mean) - 6554 * (e.share * e.delta) <= 0x1_0000_0000
    && (e.share * e.delta >= 2048 * 321 ==> x > mean)
    && (e.share * e.delta <= -2048 * 321 ==> x < mean)
  }

  /** A noise mean moves by 655 / 2^33 of share times delta, rounded down. */
  predicate NoiseMove(mean: int, x: int, e: Evidence) {
    && -0x2_0000_0000 - 655 * 2048 <= 0x2_0000_0000 * (x - mean) - 655 * (e.share * e.delta) <= 0
    && (e.share * e.delta >= 2048 * 6404 ==> x > mean)
    && (e.share * e.delta < 0 ==> x < mean)
  }

  lemma ShareTimesDelta(share: int, delta: int)
    requires 0 <= share <= 16384 && -2563 <= delta <= 2563
    ensures delta >= 0 ==> 0 <= share * delta <= 16384 * delta
    ensures delta <= 0 ==> 16384 * delta <= share * delta <= 0
  {
    if delta >= 0 {
      ScaleOrder(0, share, delta);
      ScaleOrder(share, 16384, delta);
    } else {
      ScaleOrder(0, share, -delta);
      ScaleOrder(share, 16384, -delta);
      assert share * (-delta) == -(share * delta);
    }
  }

  predicate SpeechStepOk(step: int, product: int) {
    -0x1_0000_0000 - 6554 * 2048 <= 0x2_0000_0000 * step - 6554 * product <= 0x1_0000_0000
  }

  predicate NoiseStepOk(step: int, product: int) {
    -0x2_0000_0000 - 655 * 2048 <= 0x2_0000_0000 * step - 655 * product <= 0 && (product >= 0 ==> step >= 0)
  }

  lemma SpeechStep(product: int)
    requires -16384 * 2563 <= product <= 16384 * 2563
    ensures SpeechStepOk((W16(W16(product / 0x800) * SPEECH_UPDATE / 0x20_0000) + 1) / 2, product)
  {
    var a := product / 0x800;
    assert W16(a) == a;
    var b := a * SPEECH_UPDATE / 0x20_0000;
    assert W16(b) == b;
  }

  lemma NoiseStep(product: int)
    requires -16384 * 2563 <= product <= 16384 * 2563
    ensures NoiseStepOk(W16(W16(product / 0x800) * NOISE_UPDATE / 0x40_0000), product)
  {
    var a := product / 0x800;
    assert W16(a) == a;
    var b := a * NOISE_UPDATE / 0x40_0000;
    assert W16(b) == b;
  }

  /** A step of the size of a small part of delta does not pass the target. */
  lemma StopsBefore(step: int, delta: int, d: int, product: int)
    requires d >= 0 ==> 0 <= 1024 * delta <= 1849 * d
    requires d <= 0 ==> 1849 * d - 1023 <= 1024 * delta <= 0
    requires delta >= 0 ==> 0 <= product <= 16384 * delta
    requires delta <= 0 ==> 16384 * delta <= product <= 0
    requires SpeechStepOk(step, product) || NoiseStepOk(step, product)
    ensures 0 <= step <= d || d <= step <= 0
  {
  }

  /** The product of share and delta that a step is made of. */
  lemma Products(e: Evidence, d: int)
    requires Measured(e, d)
    ensures
      var delta := if e.share > 0 then e.delta else 0;
      && -16384 * 2563 <= e.share * e.delta <= 16384 * 2563
      && (delta >= 0 ==> 0 <= e.share * e.delta <= 16384 * delta)
      && (delta <= 0 ==> 16384 * delta <= e.share * e.delta <= 0)
  {
    if e.share > 0 {
      ShareTimesDelta(e.share, e.delta);
    } else {
      assert e.share * e.delta == 0;
    }
  }

  lemma SpeechMoves(mean: int, e: Evidence, target: int)
    requires Measured(e, target - mean)
    ensures Towards(mean, mean + SpeechMeanStep(e), target) && SpeechMove(mean, mean + SpeechMeanStep(e), e)
  {
    hide W16, SpeechMeanStep;
    Products(e, target - mean);
    SpeechStepIs(e);
    var product := e.share * e.delta;
    SpeechStep(product);
    SpeechStepMoves(SpeechMeanStep(e), product);
    StopsBefore(SpeechMeanStep(e), if e.share > 0 then e.delta else 0, target - mean, product);
  }

  lemma SpeechStepMoves(step: int, product: int)
    requires SpeechStepOk(step, product)
    ensures product >= 2048 * 321 ==> step >= 1
    ensures product <= -2048 * 321 ==> step <= -1
  {
  }

  lemma SpeechStepIs(e: Evidence)
    ensures SpeechMeanStep(e) == (W16(W16((e.share * e.delta) / 0x800) * SPEECH_UPDATE / 0x20_0000) + 1) / 2
  {
  }

  lemma NoiseMoves(mean: int, e: Evidence, target: int)
    requires Measured(e, target - mean)
    ensures
      var x := mean + NoiseMeanStep(e.share, e.delta, false);
      Towards(mean, x, target) && NoiseMove(mean, x, e)
  {
    hide W16, NoiseMeanStep;
    Products(e, target - mean);
    NoiseStepIs(e.share, e.delta);
    NoiseStep(e.share * e.delta);
    StopsBefore(NoiseMeanStep(e.share, e.delta, false), if e.share > 0 then e.delta else 0, target - mean,
                e.share * e.delta);
  }

  lemma NoiseStepIs(share: int, delta: int)
    ensures NoiseMeanStep(share, delta, false) == W16(W16((share * delta) / 0x800) * NOISE_UPDATE / 0x40_0000)
  {
  }

  // ---------------------------------------------------------------- a noise mean on the default share

  /** Eight times delta, as a word, divided by eight again. */
  function Wrapped(delta: int): int { (delta + 4096) % 8192 - 4096 }

  /** The word has the sign of delta, or is too small to count. */
  predicate Steady(delta: int) { if delta >= 0 then Wrapped(delta) >= 0 else Wrapped(delta) <= 800 }

  lemma DefaultStep(delta: int)
    requires IsInt16(delta)
    ensures
      var r, step := Wrapped(delta), NoiseMeanStep(16384, delta, false);
      && (r >= 0 ==> 0 <= 800 * step <= r) && (r < 0 ==> r - 804 <= 801 * step < 0)
      && (step >= 1 <==> r >= 801)
  {
    assert 16384 * delta / 0x800 == 8 * delta;
    assert W16(8 * delta) == 8 * Wrapped(delta);
    assert W16(8 * Wrapped(delta) * NOISE_UPDATE / 0x40_0000) == 8 * Wrapped(delta) * NOISE_UPDATE / 0x40_0000;
  }

  /** Without a probability to divide by, the first noise mean moves towards the feature exactly if delta is steady. */
  lemma DefaultMoves(mean: int, e: Evidence, target: int)
    requires IsInt16(e.delta) && Measured(e.(share := 0), target - mean) && e.share == 16384
    ensures Towards(mean, mean + NoiseMeanStep(e.share, e.delta, false), target) <==> Steady(e.delta)
  {
    hide NoiseMeanStep;
    DefaultStep(e.delta);
  }

  // ---------------------------------------------------------------- the long-term correction

  /** How far, in Q8, the minimum of the last frames is above the weighted noise mean. */
  function AboveNoise(c: ChannelIndex, m: Channel, minimum: int): int { 16 * minimum - NoiseGlobal(c, m) / 64 }

  /** What is added to both noise means. */
  function Correction(c: ChannelIndex, m: Channel, minimum: int): int {
    BackStep(W16(minimum * 16 - W16(NoiseGlobal(c, m) / 64)))
  }

  /** The noise means are moved by 154/512 of the distance, rounded down, exactly if the distance is a word. */
  lemma CorrectionIsExact(c: ChannelIndex, m: Channel, minimum: int)
    requires NoiseOk(c, m)
    ensures
      var n := AboveNoise(c, m, minimum);
      IsInt16(n) <==> 0 <= 154 * n - 512 * Correction(c, m, minimum) < 512
  {
    hide NoiseGlobal;
    GlobalIsWord(c, m);
  }

  lemma GlobalIsWord(c: ChannelIndex, m: Channel)
    requires NoiseOk(c, m)
    ensures IsInt16(NoiseGlobal(c, m) / 64)
  {
    WeightsSum(c);
    MeanBound(NOISE_WEIGHTS[c], NOISE_WEIGHTS[c + 6], m.noise0.mean, m.noise1.mean, -1552, (73 - c) * 128);
  }

  // ---------------------------------------------------------------- the means after a frame

  const SPEECH_CEILINGS: seq<int> := [13440, 12032, 12032, 12160, 12160, 12160]

  /** A speech frame moves both speech means towards the feature, and the noise means towards the minimum. */
  predicate SpeechFrameMeans(c: ChannelIndex, m: Channel, e: ChannelEvidence, feature: int, minimum: int, l: Channel) {
    var x0, x1 := m.speech0.mean + SpeechMeanStep(e.speech0), m.speech1.mean + SpeechMeanStep(e.speech1);
    var back := Correction(c, m, minimum);
    && Towards(m.speech0.mean, x0, 8 * feature) && SpeechMove(m.speech0.mean, x0, e.speech0)
    && Towards(m.speech1.mean, x1, 8 * feature) && SpeechMove(m.speech1.mean, x1, e.speech1)
    && Held(x0, l.speech0.mean, 640, SPEECH_CEILINGS[c]) && Held(x1, l.speech1.mean, 768, SPEECH_CEILINGS[c])
    && Held(m.noise0.mean + back, l.noise0.mean, 640, (72 - c) * 128)
    && Held(m.noise1.mean + back, l.noise1.mean, 768, (73 - c) * 128)
  }

  lemma SpeechFrame(c: ChannelIndex, m: Channel, feature: int, minimum: int)
    requires ChannelOk(c, m) && SpeechBand(c, m) && FeatureOk(c, feature)
    ensures
      var e := Detect(c, m, feature);
      SpeechFrameMeans(c, m, e, feature, minimum, Learn(c, m, e, feature, true, minimum, MaxSpe(c)))
  {
    hide Detect, SpeechStd, NoiseGlobal, HasNoise, SpeechMove, Towards, Measured, SpeechMeanStep, BackStep, NoiseMean,
      SpeechMean, Held, SpeechBand, ChannelOk, W16;
    DetectIsEvident(c, m, feature);
    var e := Detect(c, m, feature);
    SpeechMoves(m.speech0.mean, e.speech0, 8 * feature);
    SpeechMoves(m.speech1.mean, e.speech1, 8 * feature);
    SumsFit(c, m, e, true, minimum);
    NoiseMeanHolds(c, 0, m.noise0.mean, e.noise0, true, minimum * 16 - W16(NoiseGlobal(c, m) / 64));
    NoiseMeanHolds(c, 1, m.noise1.mean, e.noise1, true, minimum * 16 - W16(NoiseGlobal(c, m) / 64));
    SpeechMeanHolds(c, 0, m.speech0.mean, e.speech0);
    SpeechMeanHolds(c, 1, m.speech1.mean, e.speech1);
  }

  lemma NoiseMeanHolds(c: ChannelIndex, k: int, mean: int, e: Evidence, speech: bool, n: int)
    requires 0 <= k < 2
    requires IsInt16(mean + NoiseMeanStep(e.share, e.delta, speech))
    requires IsInt16(mean + NoiseMeanStep(e.share, e.delta, speech) + BackStep(W16(n)))
    ensures
      var x := mean + NoiseMeanStep(e.share, e.delta, speech) + BackStep(W16(n));
      Held(x, NoiseMean(c, k, mean, e, speech, W16(n)), (k + 5) * 128, (72 + k - c) * 128)
    ensures speech ==> NoiseMeanStep(e.share, e.delta, speech) == 0
  {
    hide BackStep;
  }

  lemma SpeechMeanHolds(c: ChannelIndex, k: int, mean: int, e: Evidence)
    requires 0 <= k < 2 && IsInt16(mean + SpeechMeanStep(e))
    ensures Held(mean + SpeechMeanStep(e), SpeechMean(k, mean, e, MaxSpe(c)), MINIMUM_MEAN[k], SPEECH_CEILINGS[c])
  {
    hide SpeechMeanStep;
  }

  /** The sums that become means are words. */
  lemma SumsFit(c: ChannelIndex, m: Channel, e: ChannelEvidence, speech: bool, minimum: int)
    requires ChannelOk(c, m)
    ensures
      LearnSumsFit(m, e, speech, W16(minimum * 16 - W16(NoiseGlobal(c, m) / 64)))
  {
    hide LearnSumsFit, NoiseGlobal, ChannelOk, SeparateSumsFit;
    NoMeanWraps(c, m, e, 0, speech, minimum);
  }

  /** A noise frame leaves the speech means. It moves the noise means towards the feature and then by the correction. On
      the default share, the first noise mean moves towards the feature if and only if delta is steady. */
  predicate NoiseFrameMeans(c: ChannelIndex, m: Channel, e: ChannelEvidence, feature: int, minimum: int, l: Channel) {
    var x0 := m.noise0.mean + NoiseMeanStep(e.noise0.share, e.noise0.delta, false);
    var x1 := m.noise1.mean + NoiseMeanStep(e.noise1.share, e.noise1.delta, false);
    var back := Correction(c, m, minimum);
    && l.speech0 == m.speech0 && l.speech1 == m.speech1
    && Towards(m.noise1.mean, x1, 8 * feature) && NoiseMove(m.noise1.mean, x1, e.noise1)
    && (Towards(m.noise0.mean, x0, 8 * feature) <==> HasNoise(c, m, feature) || Steady(e.noise0.delta))
    && (HasNoise(c, m, feature) ==> NoiseMove(m.noise0.mean, x0, e.noise0))
    && Held(x0 + back, l.noise0.mean, 640, (72 - c) * 128) && Held(x1 + back, l.noise1.mean, 768, (73 - c) * 128)
  }

  lemma NoiseFrame(c: ChannelIndex, m: Channel, feature: int, minimum: int)
    requires ChannelOk(c, m) && SpeechBand(c, m) && FeatureOk(c, feature)
    ensures
      var e := Detect(c, m, feature);
      NoiseFrameMeans(c, m, e, feature, minimum, Learn(c, m, e, feature, false, minimum, MaxSpe(c)))
  {
    hide Detect, NoiseStd, NoiseGlobal, HasNoise, NoiseMove, Towards, Measured, NoiseMeanStep, BackStep, NoiseMean,
      Steady, Held, SpeechBand, ChannelOk, W16;
    DetectIsEvident(c, m, feature);
    var e := Detect(c, m, feature);
    NoiseMoves(m.noise1.mean, e.noise1, 8 * feature);
    FirstNoiseMean(c, m, feature, e);
    SumsFit(c, m, e, false, minimum);
    NoiseMeanHolds(c, 0, m.noise0.mean, e.noise0, false, minimum * 16 - W16(NoiseGlobal(c, m) / 64));
    NoiseMeanHolds(c, 1, m.noise1.mean, e.noise1, false, minimum * 16 - W16(NoiseGlobal(c, m) / 64));
  }

  lemma FirstNoiseMean(c: ChannelIndex, m: Channel, feature: int, e: ChannelEvidence)
    requires Evident(c, m, feature, e)
    ensures
      var x := m.noise0.mean + NoiseMeanStep(e.noise0.share, e.noise0.delta, false);
      && (Towards(m.noise0.mean, x, 8 * feature) <==> HasNoise(c, m, feature) || Steady(e.noise0.delta))
      && (HasNoise(c, m, feature) ==> NoiseMove(m.noise0.mean, x, e.noise0))
  {
    hide HasNoise, NoiseMove, Towards, Measured, NoiseMeanStep, Steady;
    if HasNoise(c, m, feature) {
      NoiseMoves(m.noise0.mean, e.noise0, 8 * feature);
    } else {
      DefaultMoves(m.noise0.mean, e.noise0, 8 * feature);
    }
  }
}
