/** What every processed frame keeps, channel by channel: the two models stay apart, the means
    stay capped and inside their words, the deviations stay floored. Features and evidence are
    arbitrary 16-bit words throughout. */
module VadInvariants {
  import opened FixedPoint
  import opened VadModel

  /** What `Learn` establishes, before the models are separated and capped. */
  predicate Learned(c: ChannelIndex, m: Channel) {
    && 640 <= m.noise0.mean <= (72 - c) * 128
    && 768 <= m.noise1.mean <= (73 - c) * 128
    && 81920 <= SpeechGlobal(c, m)
    && -12800 <= m.speech0.mean - m.speech1.mean <= 12800
    && SpeechGlobal(c, m) / 128 <= 13440
    && StdsOk(m)
  }

  lemma StepsAreSmall(noise: Evidence, voice: Evidence, speech: bool, ndelt: int)
    requires IsInt16(ndelt)
    ensures -6 <= NoiseMeanStep(noise.share, noise.delta, speech) <= 5
    ensures -9857 <= BackStep(ndelt) <= 9856
    ensures -51 <= SpeechMeanStep(voice) <= 51
  {
  }

  lemma StdsAreFloored(g: Gaussian, feature: int, e: Evidence)
    ensures MIN_STD <= SpeechStd(g, feature, e) <= 32767
    ensures MIN_STD <= NoiseStd(g, feature, e) <= 32767
  {
  }

  lemma LearnNoise(c: ChannelIndex, k: int, g: Gaussian, e: Evidence, feature: int, speech: bool, ndelt: int)
    requires 0 <= k < 2 && 378 <= g.std <= 32767
    ensures var r := UpdateNoise(c, k, g, e, feature, speech, ndelt);
            (k + 5) * 128 <= r.mean <= (72 + k - c) * 128 && 378 <= r.std <= 32767
  {
  }

  lemma LearnSpeech(k: int, g: Gaussian, e: Evidence, feature: int, maxspe: int)
    requires 0 <= k < 2 && 11392 <= maxspe <= 12800
    ensures var r := UpdateSpeech(k, g, e, feature, true, maxspe);
            640 <= r.mean <= 13440 && 378 <= r.std <= 32767
  {
  }

  lemma LearnKeeps(c: ChannelIndex, m: Channel, e: ChannelEvidence, feature: int, speech: bool, featureMinimum: int)
    requires ChannelOk(c, m)
    ensures Learned(c, Learn(c, m, e, feature, speech, featureMinimum, MaxSpe(c)))
  {
    hide UpdateNoise, W16, NoiseGlobal, SpeechStd, SpeechMean;
    var ndelt := W16(featureMinimum * 16 - W16(NoiseGlobal(c, m) / 64));
    LearnNoise(c, 0, m.noise0, e.noise0, feature, speech, ndelt);
    LearnNoise(c, 1, m.noise1, e.noise1, feature, speech, ndelt);
    WeightsSum(c);
    if speech {
      LearnSpeech(0, m.speech0, e.speech0, feature, MaxSpe(c));
      LearnSpeech(1, m.speech1, e.speech1, feature, MaxSpe(c));
      SpeechInBounds(c, Learn(c, m, e, feature, speech, featureMinimum, MaxSpe(c)));
    }
  }

  lemma SpeechInBounds(c: ChannelIndex, m: Channel)
    requires 640 <= m.speech0.mean <= 13440 && 640 <= m.speech1.mean <= 13440
    ensures 81920 <= SpeechGlobal(c, m) <= 128 * 13440
  {
  }

  /** Both weighted means of a learned channel, and the components around them, are small. */
  lemma LearnedBounds(c: ChannelIndex, m: Channel)
    requires Learned(c, m)
    ensures 640 * 128 <= NoiseGlobal(c, m) <= (73 - c) * 128 * 128
    ensures 640 <= SpeechGlobal(c, m) / 128 <= 13440
    ensures var level := SpeechGlobal(c, m) / 128;
            level - 12801 <= m.speech0.mean <= level + 12801 && level - 12801 <= m.speech1.mean <= level + 12801
    ensures Distance(c, m) == SpeechGlobal(c, m) / 512 - NoiseGlobal(c, m) / 512
  {
  }

  /** Moving a mixture as a block, without leaving 16 bits, moves its weighted mean by as much. */
  lemma ShiftSpeechExact(c: ChannelIndex, m: Channel, shift: int)
    requires IsInt16(m.speech0.mean + shift) && IsInt16(m.speech1.mean + shift)
    ensures SpeechGlobal(c, ShiftSpeech(m, shift)) == SpeechGlobal(c, m) + 128 * shift
    ensures NoiseGlobal(c, ShiftSpeech(m, shift)) == NoiseGlobal(c, m)
  {
  }

  lemma ShiftNoiseExact(c: ChannelIndex, m: Channel, shift: int)
    requires IsInt16(m.noise0.mean + shift) && IsInt16(m.noise1.mean + shift)
    ensures NoiseGlobal(c, ShiftNoise(m, shift)) == NoiseGlobal(c, m) + 128 * shift
    ensures SpeechGlobal(c, ShiftNoise(m, shift)) == SpeechGlobal(c, m)
  {
  }

  /** What separating establishes, before the caps. */
  predicate Apart(c: ChannelIndex, m: Channel) {
    && -1424 <= m.noise0.mean <= (72 - c) * 128
    && -1424 <= m.noise1.mean <= (73 - c) * 128
    && 640 <= SpeechGlobal(c, m) / 128 <= 13440
    && -12800 <= m.speech0.mean - m.speech1.mean <= 12800
    && StdsOk(m)
    && Separated(c, m)
  }

  lemma SeparateWorks(c: ChannelIndex, m: Channel)
    requires Learned(c, m)
    ensures Apart(c, Separate(c, m))
  {
    LearnedBounds(c, m);
    WeightsSum(c);
    var d := MINIMUM_DIFFERENCE[c];
    var gap := d - Distance(c, m);
    if gap > 0 {
      PushedLevels(SpeechGlobal(c, m), NoiseGlobal(c, m), d, gap, 13 * gap / 4, 3 * gap / 4);
      PushedApart(c, m, 13 * gap / 4, 3 * gap / 4);
    } else {
      FarEnough(SpeechGlobal(c, m), NoiseGlobal(c, m), d);
    }
  }

  lemma PushedLevels(s: int, n: int, d: int, gap: int, up: int, down: int)
    requires gap == d - (s / 512 - n / 512) && gap > 0
    requires 81920 <= s && 0 <= n <= 73 * 128 * 128 && 544 <= d <= 576
    requires up == 13 * gap / 4 && down == 3 * gap / 4
    ensures gap <= 2752 && 0 <= up <= 8944 && 0 <= down <= 2064
    ensures (s + 128 * up) / 128 == s / 128 + up <= 11653
    ensures (s + 128 * up) / 128 - (n - 128 * down) / 128 >= 4 * d - 4
  {
    SeparationFitsInt16(s, n, d, gap);
    SeparationGap(s, n, d, gap);
    WholeUnits(s, up);
  }

  lemma FarEnough(s: int, n: int, d: int)
    requires s / 512 - n / 512 >= d
    ensures s / 128 - n / 128 >= 4 * d - 3
  {
    Quarter(s);
    Quarter(n);
  }

  lemma PushedApart(c: ChannelIndex, m: Channel, up: int, down: int)
    requires Learned(c, m) && 0 <= up <= 8944 && 0 <= down <= 2064
    requires (SpeechGlobal(c, m) + 128 * up) / 128 == SpeechGlobal(c, m) / 128 + up <= 11653
    requires (SpeechGlobal(c, m) + 128 * up) / 128 - (NoiseGlobal(c, m) - 128 * down) / 128
             >= 4 * MINIMUM_DIFFERENCE[c] - 4
    ensures Apart(c, ShiftNoise(ShiftSpeech(m, W16(up)), W16(-W16(down))))
  {
    hide SpeechGlobal, NoiseGlobal;
    LearnedBounds(c, m);
    ShiftSpeechExact(c, m, up);
    ShiftNoiseExact(c, ShiftSpeech(m, up), -down);
  }

  /** The 13/4 and 3/4 shares of the gap add up to four times the gap, up to one unit. */
  lemma SeparationGap(s: int, n: int, d: int, gap: int)
    requires gap == d - (s / 512 - n / 512)
    ensures (s + 128 * (13 * gap / 4)) / 128 - (n - 128 * (3 * gap / 4)) / 128 >= 4 * d - 4
  {
    WholeUnits(s, 13 * gap / 4);
    WholeUnits(n, -(3 * gap / 4));
    Quarter(s);
    Quarter(n);
    Shares(gap);
  }

  lemma WholeUnits(x: int, k: int)
    ensures (x + 128 * k) / 128 == x / 128 + k
  {
  }

  lemma Quarter(x: int)
    ensures 4 * (x / 512) <= x / 128 <= 4 * (x / 512) + 3
  {
  }

  lemma Shares(gap: int)
    ensures 4 * gap - 1 <= 13 * gap / 4 + 3 * gap / 4 <= 4 * gap
  {
  }

  lemma SeparationFitsInt16(s: int, n: int, d: int, gap: int)
    requires gap == d - (s / 512 - n / 512) && gap > 0
    requires 81920 <= s && 0 <= n <= 73 * 128 * 128 && 544 <= d <= 576
    ensures 0 < gap <= 2752
    ensures 0 <= 3 * gap / 4 <= 2064
    ensures 0 <= 13 * gap / 4 && s / 128 + 13 * gap / 4 <= 11653
  {
  }

  lemma CapIs(c: ChannelIndex, m: Channel)
    requires 640 <= SpeechGlobal(c, m) / 128 <= 13440
    ensures
      var excess := SpeechGlobal(c, m) / 128 - MAXIMUM_SPEECH[c];
      CapSpeech(c, m) == if excess > 0 then ShiftSpeech(m, -excess) else m
  {
    hide SpeechGlobal, ShiftSpeech;
  }

  /** A mean lowered by at most 2048 stays a word, and is stored as it is. */
  lemma ShiftIs(m: Channel, down: int)
    requires 0 <= down <= 2048
    requires -12161 <= m.speech0.mean <= 26241 && -12161 <= m.speech1.mean <= 26241
    ensures
      var r := ShiftSpeech(m, -down);
      r == m.(speech0 := m.speech0.(mean := m.speech0.mean - down),
              speech1 := m.speech1.(mean := m.speech1.mean - down))
  {
  }

  lemma CapSpeechWorks(c: ChannelIndex, m: Channel)
    requires Apart(c, m)
    ensures var r := CapSpeech(c, m);
            SpeechOk(c, r) && r.noise0 == m.noise0 && r.noise1 == m.noise1 && StdsOk(r)
    ensures SpeechGlobal(c, CapSpeech(c, m)) / 128
            == if SpeechGlobal(c, m) / 128 > MAXIMUM_SPEECH[c] then MAXIMUM_SPEECH[c] else SpeechGlobal(c, m) / 128
  {
    hide SpeechGlobal, CapSpeech, ShiftSpeech, W16, Separated;
    WeightsSum(c);
    AroundMean(c, m);
    CapIs(c, m);
    var level := SpeechGlobal(c, m) / 128;
    assert 11392 <= MAXIMUM_SPEECH[c] <= 11520;
    if level > MAXIMUM_SPEECH[c] {
      ShiftIs(m, level - MAXIMUM_SPEECH[c]);
      ShiftSpeechExact(c, m, -(level - MAXIMUM_SPEECH[c]));
      WholeUnits(SpeechGlobal(c, m), -(level - MAXIMUM_SPEECH[c]));
    }
  }

  lemma AroundMean(c: ChannelIndex, m: Channel)
    requires -12800 <= m.speech0.mean - m.speech1.mean <= 12800
    ensures
      var level := SpeechGlobal(c, m) / 128;
      level - 12801 <= m.speech0.mean <= level + 12801 && level - 12801 <= m.speech1.mean <= level + 12801
  {
    WeightsSum(c);
    SpreadBound(SPEECH_WEIGHTS[c], SPEECH_WEIGHTS[c + 6], m.speech0.mean, m.speech1.mean, 12800);
  }

  lemma CapNoiseWorks(c: ChannelIndex, m: Channel)
    requires -1424 <= m.noise0.mean <= (72 - c) * 128 && -1424 <= m.noise1.mean <= (73 - c) * 128
    ensures var r := CapNoise(c, m);
            && NoiseOk(c, r) && r.speech0 == m.speech0 && r.speech1 == m.speech1
            && r.noise0.std == m.noise0.std && r.noise1.std == m.noise1.std
    ensures NoiseGlobal(c, CapNoise(c, m)) <= NoiseGlobal(c, m)
  {
    WeightsSum(c);
    MeanBound(NOISE_WEIGHTS[c], NOISE_WEIGHTS[c + 6], m.noise0.mean, m.noise1.mean, -1424, (73 - c) * 128);
    SpreadBound(NOISE_WEIGHTS[c], NOISE_WEIGHTS[c + 6], m.noise0.mean, m.noise1.mean, 12000);
    var level := NoiseGlobal(c, m) / 128;
    if level > MAXIMUM_NOISE[c] {
      ShiftNoiseExact(c, m, -(level - MAXIMUM_NOISE[c]));
    }
  }

  /** One frame on one channel, for any features and any evidence: the invariant is kept, and
      the models are separated afterwards whether or not they were before. */
  lemma UpdateKeeps(c: ChannelIndex, m: Channel, e: ChannelEvidence, feature: int, speech: bool, featureMinimum: int)
    requires ChannelOk(c, m)
    ensures var r := UpdateChannel(c, m, e, feature, speech, featureMinimum, MaxSpe(c));
            ChannelOk(c, r) && Separated(c, r)
  {
    var l := Learn(c, m, e, feature, speech, featureMinimum, MaxSpe(c));
    LearnKeeps(c, m, e, feature, speech, featureMinimum);
    SeparateWorks(c, l);
    var a := Separate(c, l);
    CapSpeechWorks(c, a);
    var b := CapSpeech(c, a);
    WeightsSum(c);
    CapNoiseWorks(c, b);
  }

  /** The sums that `Learn` stores back into the means, before any conversion to 16 bits. */
  predicate LearnSumsFit(m: Channel, e: ChannelEvidence, speech: bool, ndelt: int) {
    var step0 := m.noise0.mean + NoiseMeanStep(e.noise0.share, e.noise0.delta, speech);
    var step1 := m.noise1.mean + NoiseMeanStep(e.noise1.share, e.noise1.delta, speech);
    && IsInt16(step0) && IsInt16(step0 + BackStep(ndelt))
    && IsInt16(step1) && IsInt16(step1 + BackStep(ndelt))
    && IsInt16(m.speech0.mean + SpeechMeanStep(e.speech0))
    && IsInt16(m.speech1.mean + SpeechMeanStep(e.speech1))
  }

  /** The sums that `Separate` stores back, and the shares of the gap they use. */
  predicate SeparateSumsFit(c: ChannelIndex, m: Channel) {
    var gap := MINIMUM_DIFFERENCE[c] - Distance(c, m);
    gap > 0 ==>
      && IsInt16(gap) && IsInt16(13 * gap / 4) && IsInt16(3 * gap / 4)
      && IsInt16(m.speech0.mean + 13 * gap / 4) && IsInt16(m.speech1.mean + 13 * gap / 4)
      && IsInt16(m.noise0.mean - 3 * gap / 4) && IsInt16(m.noise1.mean - 3 * gap / 4)
  }

  /** No mean ever wraps: every sum stored back into one fits its 16-bit word. */
  lemma NoMeanWraps(c: ChannelIndex, m: Channel, e: ChannelEvidence, feature: int, speech: bool, featureMinimum: int)
    requires ChannelOk(c, m)
    ensures forall ndelt | IsInt16(ndelt) :: LearnSumsFit(m, e, speech, ndelt)
    ensures SeparateSumsFit(c, Learn(c, m, e, feature, speech, featureMinimum, MaxSpe(c)))
  {
    WeightsSum(c);
    SpreadBound(SPEECH_WEIGHTS[c], SPEECH_WEIGHTS[c + 6], m.speech0.mean, m.speech1.mean, 12800);
    forall ndelt | IsInt16(ndelt)
      ensures LearnSumsFit(m, e, speech, ndelt)
    {
      StepsAreSmall(e.noise0, e.speech0, speech, ndelt);
      StepsAreSmall(e.noise1, e.speech1, speech, ndelt);
    }
    LearnKeeps(c, m, e, feature, speech, featureMinimum);
    SeparateSums(c, Learn(c, m, e, feature, speech, featureMinimum, MaxSpe(c)));
  }

  lemma SeparateSums(c: ChannelIndex, m: Channel)
    requires Learned(c, m)
    ensures SeparateSumsFit(c, m)
  {
    WeightsSum(c);
    LearnedBounds(c, m);
    var gap := MINIMUM_DIFFERENCE[c] - Distance(c, m);
    if gap > 0 {
      SeparationFitsInt16(SpeechGlobal(c, m), NoiseGlobal(c, m), MINIMUM_DIFFERENCE[c], gap);
    }
  }
}
