/** What holds in every reachable state beyond the invariant of a frame: the deviations are at their floor or above,
    and no Gaussian strays so far from the features that a step of the probability computation overflows. */
module VadReach {
  import opened FixedPoint
  import opened VadModel
  import opened VadInvariants
  import opened VadCore
  import G = VadGaussian

  // ---------------------------------------------------------------- the deviations

  /** Only the first noise deviation of channel 0 starts below the floor. */
  predicate Floored(c: ChannelIndex, m: Channel) {
    && m.speech0.std >= MIN_STD && m.speech1.std >= MIN_STD && m.noise1.std >= MIN_STD
    && (m.noise0.std >= MIN_STD || (c == 0 && m.noise0.std == NOISE_STDS[0]))
  }

  lemma CapsKeepStds(c: ChannelIndex, m: Channel)
    ensures
      var r := CapNoise(c, CapSpeech(c, Separate(c, m)));
      && r.noise0.std == m.noise0.std && r.noise1.std == m.noise1.std
      && r.speech0.std == m.speech0.std && r.speech1.std == m.speech1.std
  {
    hide Distance, NoiseGlobal, SpeechGlobal, W16;
  }

  /** A frame puts every deviation it learns at the floor or above, and leaves the others. */
  lemma UpdateFloors(c: ChannelIndex, m: Channel, e: ChannelEvidence, feature: int, speech: bool, featureMinimum: int)
    ensures
      var r := UpdateChannel(c, m, e, feature, speech, featureMinimum, MaxSpe(c));
      && (if speech then r.speech0.std >= MIN_STD && r.speech1.std >= MIN_STD
          else r.speech0.std == m.speech0.std && r.speech1.std == m.speech1.std)
      && (if speech then r.noise0.std == m.noise0.std && r.noise1.std == m.noise1.std
          else r.noise0.std >= MIN_STD && r.noise1.std >= MIN_STD)
  {
    hide Separate, CapNoise, CapSpeech, SpeechStd, NoiseStd, NoiseMean, SpeechMean;
    var l := Learn(c, m, e, feature, speech, featureMinimum, MaxSpe(c));
    CapsKeepStds(c, l);
    StdsAreFloored(m.noise0, feature, e.noise0);
    StdsAreFloored(m.noise1, feature, e.noise1);
    StdsAreFloored(m.speech0, feature, e.speech0);
    StdsAreFloored(m.speech1, feature, e.speech1);
  }

  // ---------------------------------------------------------------- the speech means

  /** The cap on a single speech mean. */
  function MaxMu(c: ChannelIndex): int { MaxSpe(c) + 640 }

  /** The speech means stay above their minimum, and no further apart than the clamps allow. */
  predicate SpeechBand(c: ChannelIndex, m: Channel) {
    && 640 <= m.speech0.mean && 640 <= m.speech1.mean
    && m.speech0.mean - m.speech1.mean <= MaxMu(c) - 768
    && m.speech1.mean - m.speech0.mean <= MaxMu(c) - 640
  }

  lemma LearnBand(c: ChannelIndex, m: Channel, e: ChannelEvidence, feature: int, speech: bool, featureMinimum: int)
    requires SpeechBand(c, m)
    ensures SpeechBand(c, Learn(c, m, e, feature, speech, featureMinimum, MaxSpe(c)))
  {
    hide SpeechStd, NoiseStd, NoiseMean, SpeechMeanStep, W16;
    WeightsSum(c);
  }

  /** Pushing the models apart only moves the speech means up. */
  lemma SeparateBand(c: ChannelIndex, m: Channel)
    requires Learned(c, m) && SpeechBand(c, m)
    ensures SpeechBand(c, Separate(c, m))
  {
    LearnedBounds(c, m);
    WeightsSum(c);
    var d := MINIMUM_DIFFERENCE[c];
    var gap := d - Distance(c, m);
    if gap > 0 {
      SeparationFitsInt16(SpeechGlobal(c, m), NoiseGlobal(c, m), d, gap);
    }
  }

  /** The cap leaves both means well above their minimum: they are close to the capped mean. */
  lemma CapBand(c: ChannelIndex, m: Channel)
    requires Apart(c, m) && SpeechBand(c, m)
    ensures SpeechBand(c, CapSpeech(c, m))
  {
    hide Separated, StdsOk, CapSpeech, SpeechGlobal;
    WeightsSum(c);
    AroundGlobal(c, m);
    CapIs(c, m);
    assert MAXIMUM_SPEECH[c] >= 9984;
  }

  lemma AroundGlobal(c: ChannelIndex, m: Channel)
    requires -12800 <= m.speech0.mean - m.speech1.mean <= 12800
    ensures
      var level := SpeechGlobal(c, m) / 128;
      level - 8701 <= m.speech0.mean <= level + 8702 && level - 8701 <= m.speech1.mean <= level + 8702
  {
    WeightsSum(c);
    WeightedSpread(SPEECH_WEIGHTS[c], SPEECH_WEIGHTS[c + 6], m.speech0.mean, m.speech1.mean, 12800);
  }

  /** A component differs from the weighted mean by the other weight's share of the spread. */
  lemma WeightedSpread(w0: int, w1: int, a: int, b: int, spread: int)
    requires w0 + w1 == 128 && 0 <= w0 <= 87 && 0 <= w1 <= 87
    requires -spread <= a - b <= spread
    ensures a >= (a * w0 + b * w1) / 128 - (87 * spread) / 128 - 1
    ensures b >= (a * w0 + b * w1) / 128 - (87 * spread) / 128 - 1
    ensures a <= (a * w0 + b * w1) / 128 + (87 * spread) / 128 + 2
    ensures b <= (a * w0 + b * w1) / 128 + (87 * spread) / 128 + 2
  {
    var d := a - b;
    assert a * w0 + b * w1 == 128 * a - w1 * d by { assert w0 == 128 - w1; }
    assert a * w0 + b * w1 == 128 * b + w0 * d by { assert w1 == 128 - w0; }
    ProductBound(w1, 87, d, spread);
    ProductBound(w0, 87, d, spread);
  }

  lemma UpdateBand(c: ChannelIndex, m: Channel, e: ChannelEvidence, feature: int, speech: bool, featureMinimum: int)
    requires ChannelOk(c, m) && SpeechBand(c, m)
    ensures SpeechBand(c, UpdateChannel(c, m, e, feature, speech, featureMinimum, MaxSpe(c)))
  {
    hide Learn, Separate, CapSpeech, ChannelOk, Learned, Apart;
    var l := Learn(c, m, e, feature, speech, featureMinimum, MaxSpe(c));
    LearnKeeps(c, m, e, feature, speech, featureMinimum);
    LearnBand(c, m, e, feature, speech, featureMinimum);
    SeparateWorks(c, l);
    SeparateBand(c, l);
    CapBand(c, Separate(c, l));
    CapNoiseKeepsSpeech(c, CapSpeech(c, Separate(c, l)));
  }

  lemma CapNoiseKeepsSpeech(c: ChannelIndex, m: Channel)
    ensures CapNoise(c, m).speech0 == m.speech0 && CapNoise(c, m).speech1 == m.speech1
  {
  }

  // ---------------------------------------------------------------- how far a Gaussian is from a feature

  /** kOffsetVector: the least feature of each channel. */
  const FEATURE_OFFSETS: seq<int> := [368, 368, 272, 176, 176, 176]

  /** The features that LogEnergy.FeatureRange allows. */
  predicate FeatureOk(c: ChannelIndex, feature: int) { FEATURE_OFFSETS[c] <= feature <= 2047 }

  /** A component is above the weighted mean by at most the other weight's share of the spread. */
  lemma Ceiling(w0: int, w1: int, a: int, b: int, spread: int)
    requires w0 + w1 == 128 && w1 >= 0 && a - b <= spread
    ensures a <= (a * w0 + b * w1) / 128 + w1 * spread / 128 + 1
  {
    var d := a - b;
    assert a * w0 + b * w1 == 128 * a - w1 * d by { assert w0 == 128 - w1; }
    assert w1 * d <= w1 * spread by { assert w1 * (spread - d) >= 0; }
  }

  /** The highest either speech mean can get. */
  lemma SpeechCeiling(c: ChannelIndex, m: Channel)
    requires SpeechOk(c, m) && SpeechBand(c, m)
    ensures m.speech0.mean <= 8 * FEATURE_OFFSETS[c] + 18000
    ensures m.speech1.mean <= 8 * FEATURE_OFFSETS[c] + 18000
  {
    WeightsSum(c);
    var w0, w1 := SPEECH_WEIGHTS[c], SPEECH_WEIGHTS[c + 6];
    Ceiling(w0, w1, m.speech0.mean, m.speech1.mean, MaxMu(c) - 768);
    Ceiling(w1, w0, m.speech1.mean, m.speech0.mean, MaxMu(c) - 640);
    CeilingNumbers(c);
  }

  lemma CeilingNumbers(c: ChannelIndex)
    ensures MAXIMUM_SPEECH[c] + SPEECH_WEIGHTS[c + 6] * (MaxMu(c) - 768) / 128 + 1 <= 8 * FEATURE_OFFSETS[c] + 18000
    ensures MAXIMUM_SPEECH[c] + SPEECH_WEIGHTS[c] * (MaxMu(c) - 640) / 128 + 1 <= 8 * FEATURE_OFFSETS[c] + 18000
  {
    match c
    case 0 =>
    case 1 =>
    case 2 =>
    case 3 =>
    case 4 =>
    case _ =>
  }

  /** Every Gaussian of a reachable channel is in the working range of every feature of its channel. */
  lemma ChannelInRange(c: ChannelIndex, m: Channel, feature: int)
    requires ChannelOk(c, m) && SpeechBand(c, m) && FeatureOk(c, feature)
    ensures G.InRange(feature, m.noise0.mean, m.noise0.std) && G.InRange(feature, m.noise1.mean, m.noise1.std)
    ensures G.InRange(feature, m.speech0.mean, m.speech0.std) && G.InRange(feature, m.speech1.mean, m.speech1.std)
  {
    SpeechCeiling(c, m);
  }

  // ---------------------------------------------------------------- over whole runs

  lemma {:induction false} RunInBand(calls: seq<Call>, c: ChannelIndex)
    requires forall i | 0 <= i < |calls| :: calls[i].Ok()
    ensures SpeechBand(c, Run(calls).channels[c]) && Floored(c, Run(calls).channels[c])
  {
    hide UpdateChannel, Detect, SpeechBand, Floored, IsSpeech, NextTracker, CoreOk;
    if calls == [] {
      StartInBand(c);
    } else {
      var front, last := calls[..|calls| - 1], calls[|calls| - 1];
      RunInBand(front, c);
      ProcessedRun(front);
      NextInBand(Run(front), last.mode, last.frame, c);
    }
  }

  lemma StartInBand(c: ChannelIndex)
    ensures SpeechBand(c, StartChannel(c)) && Floored(c, StartChannel(c))
  {
  }

  lemma NextInBand(s: Core, mode: Mode, f: Frame, c: ChannelIndex)
    requires CoreOk(s) && ModeOk(mode) && f.Ok()
    requires SpeechBand(c, s.channels[c]) && Floored(c, s.channels[c])
    ensures SpeechBand(c, Next(s, mode, f).1.channels[c]) && Floored(c, Next(s, mode, f).1.channels[c])
  {
    hide UpdateChannel, Detect, SpeechBand, IsSpeech, NextTracker;
    if f.totalPower > MIN_ENERGY {
      var speech := RawDecision(s, mode, f);
      var m, minimum := s.channels[c], AfterLearning(s, f, speech).trackers[c].mean;
      UpdateBand(c, m, Detect(c, m, f.features[c]), f.features[c], speech, minimum);
      UpdateFloors(c, m, Detect(c, m, f.features[c]), f.features[c], speech, minimum);
    }
  }

  /** The four Gaussians of a channel. */
  function Component(m: Channel, k: nat): Gaussian
    requires k < 4
  {
    if k == 0 then m.noise0 else if k == 1 then m.noise1 else if k == 2 then m.speech0 else m.speech1
  }

  /** In every reachable state, whatever came before, no step of the four probability computations of a channel
      overflows on any feature the filter bank can produce. */
  lemma RunStepsAreExact(calls: seq<Call>, c: ChannelIndex, feature: int, k: nat)
    requires forall i | 0 <= i < |calls| :: calls[i].Ok()
    requires FeatureOk(c, feature) && k < 4
    ensures
      var g := Component(Run(calls).channels[c], k);
      G.InRange(feature, g.mean, g.std) && G.NoOverflow(feature, g.mean, g.std)
  {
    hide Run, ChannelOk, SpeechBand, Floored, G.InRange, G.NoOverflow, Component;
    ProcessedRun(calls);
    RunInBand(calls, c);
    ComponentInRange(c, Run(calls).channels[c], feature, k);
    var g := Component(Run(calls).channels[c], k);
    G.StepIsExact(feature, g.mean, g.std);
  }

  lemma ComponentInRange(c: ChannelIndex, m: Channel, feature: int, k: nat)
    requires ChannelOk(c, m) && SpeechBand(c, m) && FeatureOk(c, feature) && k < 4
    ensures G.InRange(feature, Component(m, k).mean, Component(m, k).std)
  {
    hide ChannelOk, SpeechBand, FeatureOk, G.InRange;
    ChannelInRange(c, m, feature);
  }

  // ---------------------------------------------------------------- the speech deviation

  /** A Gaussian with a positive share of the probability has an exponent below the cut-off. */
  lemma PositiveShare(c: ChannelIndex, m: Channel, feature: int)
    requires StdsOk(m)
    ensures
      var e := Detect(c, m, feature);
      && 0 <= e.speech0.share <= 16384 && 0 <= e.speech1.share <= 16384
      && (e.speech0.share > 0 ==> G.Exponent(feature, m.speech0.mean, m.speech0.std) < G.COMP_VAR)
      && (e.speech1.share > 0 ==> G.Exponent(feature, m.speech1.mean, m.speech1.std) < G.COMP_VAR)
  {
    hide G.Exponent, Posteriors, SpeechProbability, NoiseProbability, SpeechTest, NoiseTest, StdsOk;
    TestsAreExact(c, m, feature);
    PosteriorsAreConditional(c, m, feature);
    CutOff(c, 0, m.speech0, feature);
    CutOff(c, 1, m.speech1, feature);
    ZeroShare(SpeechProbability(c, 0, m.speech0, feature), SpeechProbability(c, 1, m.speech1, feature));
  }

  /** Beyond the cut-off the weighted probability is zero. */
  lemma CutOff(c: ChannelIndex, k: int, g: Gaussian, feature: int)
    requires 0 <= k < 2
    ensures G.Exponent(feature, g.mean, g.std) >= G.COMP_VAR ==> SpeechProbability(c, k, g, feature) == 0
  {
    hide G.Exponent, G.InvStd;
  }

  lemma ZeroShare(p0: int, p1: int)
    requires 0 <= p0 && 0 <= p1 && p0 + p1 < 0x800_0000
    ensures p0 == 0 ==> Posteriors(p0, p0 + p1, 0).0 == 0
    ensures p1 == 0 ==> Posteriors(p0, p0 + p1, 0).1 == 0
  {
    hide G.Share, W16;
    var h := (p0 + p1) / 4096;
    if h > 0 {
      G.SharesArePosteriors(p0, p1);
      if p1 == 0 {
        QuotientOfMultiple(16384, h);
      }
      if p0 == 0 {
        QuotientOfZero(h);
      }
    }
  }

  lemma QuotientOfZero(h: nat)
    requires h > 0
    ensures 16384 * 0 / h == 0
  {
    DivLower(0, 0, h);
    DivUpper(1, 0, h);
  }

  lemma QuotientOfMultiple(a: nat, h: nat)
    requires h > 0
    ensures a * h / h == a
  {
    DivLower(a, a * h, h);
    DivUpper(a + 1, a * h, h);
  }

  /** The product in the update of a speech deviation, before any conversion. */
  function SpeechProduct(g: Gaussian, feature: int, e: Evidence): int {
    (e.share / 4) * (e.delta * (feature - (g.mean + 4) / 8) / 8 - 4096)
  }

  /** It fits 32 bits although the code does not mark it as overflowing: a positive share bounds the exponent, and the
      exponent is, up to rounding, what is multiplied. */
  lemma SpeechProductFits(g: Gaussian, feature: int, share: int)
    requires G.InRange(feature, g.mean, g.std) && 0 <= share <= 16384
    requires share > 0 ==> G.Exponent(feature, g.mean, g.std) < G.COMP_VAR
    ensures IsInt16(feature - (g.mean + 4) / 8)
    ensures IsInt32(SpeechProduct(g, feature, Evidence(share, G.Delta(feature, g.mean, g.std))))
  {
    hide G.Delta, G.InRange, G.Exponent, G.Offset, IsInt32;
    var delta, offset := G.Delta(feature, g.mean, g.std), G.Offset(feature, g.mean);
    var dist := feature - (g.mean + 4) / 8;
    StepFacts(feature, g.mean, g.std);
    if share > 0 {
      RoundedProduct(delta, offset, dist);
    }
    SharedProduct(share / 4, delta * dist / 8 - 4096);
  }

  lemma SharedProduct(q: int, excess: int)
    requires 0 <= q <= 4096 && (q > 0 ==> -10000 <= excess <= 400000)
    ensures IsInt32(q * excess)
  {
    if q > 0 {
      ProductBound(q, 4096, excess, 400000);
    }
  }

  lemma StepFacts(input: int, mean: int, std: int)
    requires G.InRange(input, mean, std)
    ensures IsInt16(G.Delta(input, mean, std)) && IsInt16(input - (mean + 4) / 8)
    ensures -4 <= 8 * (input - (mean + 4) / 8) - G.Offset(input, mean) <= 4
    ensures
      var t := G.Exponent(input, mean, std);
      t >= 0 && 512 * t <= G.Delta(input, mean, std) * G.Offset(input, mean) < 512 * (t + 1)
  {
    hide G.InvVariance, G.InvStd, G.ExpValue, G.ExactExp;
    G.StepIsExact(input, mean, std);
  }

  /** Rounding the mean to Q4 changes the product by little. */
  lemma RoundedProduct(delta: int, offset: int, dist: int)
    requires IsInt16(delta) && -4 <= 8 * dist - offset <= 4
    requires 0 <= delta * offset < (G.COMP_VAR + 1) * 512
    ensures -10000 <= delta * dist / 8 - 4096 <= 400000
  {
    var rest := 8 * dist - offset;
    SplitProduct(delta, dist, offset, rest);
    SmallProduct(delta, rest);
  }

  lemma SplitProduct(delta: int, dist: int, offset: int, rest: int)
    requires 8 * dist == offset + rest
    ensures 8 * (delta * dist) == delta * offset + delta * rest
  {
    assert delta * (8 * dist) == delta * (offset + rest);
  }

  lemma SmallProduct(delta: int, rest: int)
    requires IsInt16(delta) && -4 <= rest <= 4
    ensures -131072 <= delta * rest <= 131072
  {
  }

  /** In every reachable state the speech deviations are updated without overflow. */
  lemma RunSpeechProductFits(calls: seq<Call>, c: ChannelIndex, feature: int)
    requires forall i | 0 <= i < |calls| :: calls[i].Ok()
    requires FeatureOk(c, feature)
    ensures
      var m := Run(calls).channels[c];
      var e := Detect(c, m, feature);
      IsInt32(SpeechProduct(m.speech0, feature, e.speech0)) && IsInt32(SpeechProduct(m.speech1, feature, e.speech1))
  {
    hide Run, SpeechBand, Floored, G.InRange, SpeechProduct, NoiseOk, SpeechOk, Posteriors, FeatureOk, StdsOk;
    ProcessedRun(calls);
    RunInBand(calls, c);
    var m := Run(calls).channels[c];
    ChannelInRange(c, m, feature);
    PositiveShare(c, m, feature);
    var e := Detect(c, m, feature);
    SpeechProductFits(m.speech0, feature, e.speech0.share);
    SpeechProductFits(m.speech1, feature, e.speech1.share);
  }
}
