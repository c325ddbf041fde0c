/** What makes a frame speech: the likelihoods of the two mixtures, compared power of two by power of two, against the
    thresholds of the mode. */
module VadDecision {
  import opened FixedPoint
  import opened VadModel
  import opened VadInvariants
  import opened VadCore
  import G = VadGaussian

  // ---------------------------------------------------------------- the likelihoods

  /** The likelihood of a feature under a mixture of two Gaussians, without any wrap-around. */
  function Likelihood(w0: int, w1: int, g0: Gaussian, g1: Gaussian, feature: int): int {
    w0 * G.Probability(feature, g0.mean, g0.std) + w1 * G.Probability(feature, g1.mean, g1.std)
  }

  function NoiseLikelihood(c: ChannelIndex, m: Channel, feature: int): int {
    Likelihood(NOISE_WEIGHTS[c], NOISE_WEIGHTS[c + 6], m.noise0, m.noise1, feature)
  }

  function SpeechLikelihood(c: ChannelIndex, m: Channel, feature: int): int {
    Likelihood(SPEECH_WEIGHTS[c], SPEECH_WEIGHTS[c + 6], m.speech0, m.speech1, feature)
  }

  lemma TestsAreLikelihoods(c: ChannelIndex, m: Channel, feature: int)
    requires StdsOk(m)
    ensures 0 <= NoiseTest(c, m, feature) == NoiseLikelihood(c, m, feature) < 0x800_0000
    ensures 0 <= SpeechTest(c, m, feature) == SpeechLikelihood(c, m, feature) < 0x800_0000
  {
    hide G.Probability;
    WeightsSum(c);
    G.ProbabilityBounds(feature, m.noise0.mean, m.noise0.std);
    G.ProbabilityBounds(feature, m.noise1.mean, m.noise1.std);
    G.ProbabilityBounds(feature, m.speech0.mean, m.speech0.std);
    G.ProbabilityBounds(feature, m.speech1.mean, m.speech1.std);
    MixtureIsExact(NOISE_WEIGHTS[c], NOISE_WEIGHTS[c + 6], G.Probability(feature, m.noise0.mean, m.noise0.std),
                   G.Probability(feature, m.noise1.mean, m.noise1.std));
    MixtureIsExact(SPEECH_WEIGHTS[c], SPEECH_WEIGHTS[c + 6], G.Probability(feature, m.speech0.mean, m.speech0.std),
                   G.Probability(feature, m.speech1.mean, m.speech1.std));
  }

  // ---------------------------------------------------------------- the ratio of one channel

  /** 2^e * x < y, for an exponent of either sign. */
  predicate Below(e: int, x: nat, y: nat) {
    if e >= 0 then Pow2(e) * x < y else x < Pow2(-e) * y
  }

  lemma RatioIsBits(c: ChannelIndex, m: Channel, feature: int)
    requires StdsOk(m)
    ensures 0 <= NoiseLikelihood(c, m, feature) && 0 <= SpeechLikelihood(c, m, feature)
    ensures Ratio(c, m, feature) == BitLen(SpeechLikelihood(c, m, feature)) - BitLen(NoiseLikelihood(c, m, feature))
    ensures BitLen(SpeechLikelihood(c, m, feature)) <= 27 && BitLen(NoiseLikelihood(c, m, feature)) <= 27
  {
    hide NoiseTest, SpeechTest, NoiseLikelihood, SpeechLikelihood, BitLen, W16;
    TestsAreLikelihoods(c, m, feature);
    ShiftsAreBits(NoiseLikelihood(c, m, feature));
    ShiftsAreBits(SpeechLikelihood(c, m, feature));
  }

  lemma ShiftsAreBits(h: nat)
    requires h < 0x800_0000
    ensures Shifts(h) == 31 - BitLen(h) && BitLen(h) <= 27
  {
    TwoTo27();
    BitsBelow(h, 27);
  }

  lemma TwoTo27()
    ensures Pow2(27) == 0x800_0000
  {
    assert Pow2(9) == 512;
    Pow2Add(9, 9);
    Pow2Add(18, 9);
  }

  lemma BitsBelow(h: nat, k: nat)
    requires h < Pow2(k)
    ensures BitLen(h) <= k
  {
    hide Pow2, BitLen;
    if BitLen(h) > k {
      Pow2Monotone(k, BitLen(h) - 1);
    }
  }

  /** The difference of the bit lengths is the logarithm of the quotient to within one. */
  lemma BitsBracket(h0: nat, h1: nat)
    requires h0 > 0 && h1 > 0
    ensures
      var r := BitLen(h1) - BitLen(h0);
      Below(r - 1, h0, h1) && Below(-(r + 1), h1, h0)
  {
    hide BitLen, Pow2;
    OneSide(h0, h1);
    OneSide(h1, h0);
  }

  lemma OneSide(x: nat, y: nat)
    requires x > 0 && y > 0
    ensures Below(BitLen(y) - BitLen(x) - 1, x, y)
  {
    hide BitLen, Pow2;
    var e := BitLen(y) - BitLen(x) - 1;
    if e >= 0 {
      Pow2Add(e, BitLen(x));
      TimesLess(Pow2(e), x, Pow2(BitLen(x)));
    } else {
      Pow2Add(-e, BitLen(y) - 1);
      TimesAtMost(Pow2(-e), Pow2(BitLen(y) - 1), y);
    }
  }

  lemma TimesLess(p: nat, x: nat, y: nat)
    requires p > 0 && x < y
    ensures p * x < p * y
  {
  }

  lemma TimesAtMost(p: nat, x: nat, y: nat)
    requires x <= y
    ensures p * x <= p * y
  {
  }

  /** The ratio r of a channel is log2(h1 / h0), to within one. */
  lemma RatioBrackets(c: ChannelIndex, m: Channel, feature: int)
    requires StdsOk(m)
    ensures
      var h0, h1, r := NoiseLikelihood(c, m, feature), SpeechLikelihood(c, m, feature), Ratio(c, m, feature);
      h0 >= 0 && h1 >= 0 && (h0 > 0 && h1 > 0 ==> Below(r - 1, h0, h1) && Below(-(r + 1), h1, h0))
  {
    hide BitLen, NoiseLikelihood, SpeechLikelihood, Ratio, Below;
    RatioIsBits(c, m, feature);
    var h0, h1 := NoiseLikelihood(c, m, feature), SpeechLikelihood(c, m, feature);
    if h0 > 0 && h1 > 0 {
      BitsBracket(h0, h1);
    }
  }

  /** Speech is at least 2^e times as likely as noise; noise that is impossible counts as the least likelihood. */
  predicate Likelier(e: int, h0: nat, h1: nat) {
    var h := if h0 > 0 then h0 else 1;
    h1 > 0 && if e >= 0 then h1 >= Pow2(e) * h else Pow2(-e) * h1 >= h
  }

  lemma LikelierHasMoreBits(e: int, h0: nat, h1: nat)
    requires Likelier(e, h0, h1)
    ensures BitLen(h1) >= BitLen(h0) + e
  {
    hide BitLen, Pow2;
    var h := if h0 > 0 then h0 else 1;
    MoreIsMoreBits(h0, h);
    if e >= 0 {
      Pow2Add(e, BitLen(h) - 1);
      TimesAtMost(Pow2(e), Pow2(BitLen(h) - 1), h);
      MoreIsMoreBits(Pow2(e + (BitLen(h) - 1)), h1);
      BitsOfPower(e + (BitLen(h) - 1));
    } else {
      Pow2Add(-e, BitLen(h1));
      TimesLess(Pow2(-e), h1, Pow2(BitLen(h1)));
      BitsBelow(h, -e + BitLen(h1));
    }
  }

  lemma BitsOfPower(k: nat)
    ensures BitLen(Pow2(k)) == k + 1
  {
    hide Pow2, BitLen;
    var b := BitLen(Pow2(k));
    if b <= k {
      Pow2Monotone(b, k);
    } else if b > k + 1 {
      Pow2Monotone(k + 1, b - 1);
      Doubles(k);
    }
  }

  lemma Doubles(k: nat)
    ensures Pow2(k + 1) == 2 * Pow2(k)
  {
  }

  lemma MoreIsMoreBits(x: nat, y: nat)
    requires x <= y
    ensures BitLen(x) <= BitLen(y)
  {
    hide BitLen, Pow2;
    BitsBelow(x, BitLen(y));
  }

  // ---------------------------------------------------------------- the decision of a frame

  predicate OneOfTheModes(mode: Mode) {
    mode == QUALITY || mode == LOW_BITRATE || mode == AGGRESSIVE || mode == VERY_AGGRESSIVE
  }

  lemma ModesAreOk(mode: Mode, i: nat)
    requires OneOfTheModes(mode) && i < 3
    ensures ModeOk(mode) && mode.individual[i] > 0 && mode.total[i] > 0
  {
  }

  ghost predicate Floored(s: Core)
    requires Shaped(s)
  {
    forall c: ChannelIndex :: StdsOk(s.channels[c])
  }

  function H0(s: Core, f: Frame, c: ChannelIndex): int
    requires |s.channels| == 6 == |f.features|
  {
    NoiseLikelihood(c, s.channels[c], f.features[c])
  }

  function H1(s: Core, f: Frame, c: ChannelIndex): int
    requires |s.channels| == 6 == |f.features|
  {
    SpeechLikelihood(c, s.channels[c], f.features[c])
  }

  lemma LikelihoodsArePositive(s: Core, f: Frame, c: ChannelIndex)
    requires Shaped(s) && Floored(s) && f.Ok()
    ensures H0(s, f, c) >= 0 && H1(s, f, c) >= 0
    ensures Ratio(c, s.channels[c], f.features[c]) == BitLen(H1(s, f, c)) - BitLen(H0(s, f, c))
  {
    hide NoiseLikelihood, SpeechLikelihood, BitLen, Ratio;
    RatioIsBits(c, s.channels[c], f.features[c]);
  }

  /** The threshold of the mode that a single channel must exceed, and the one for all together. */
  function Individual(mode: Mode, f: Frame): int
    requires mode.Ok()
  {
    mode.individual[LengthIndex(f.frameLength)]
  }

  function Total(mode: Mode, f: Frame): int
    requires mode.Ok()
  {
    mode.total[LengthIndex(f.frameLength)]
  }

  /** One channel in which speech is 2^e times as likely as noise, with 4e above the threshold, makes a frame speech. */
  lemma OneChannelDecides(s: Core, mode: Mode, f: Frame, c: ChannelIndex, e: int)
    requires Shaped(s) && Floored(s) && mode.Ok() && f.Ok() && f.totalPower > MIN_ENERGY
    requires H0(s, f, c) >= 0 && H1(s, f, c) >= 0 && Likelier(e, H0(s, f, c), H1(s, f, c))
    requires 4 * e > Individual(mode, f)
    ensures RawDecision(s, mode, f) && Next(s, mode, f).0 == 1
  {
    hide Ratio, RatioSum, Likelier, AfterLearning, BitLen, H0, H1;
    LikelihoodsArePositive(s, f, c);
    LikelierHasMoreBits(e, H0(s, f, c), H1(s, f, c));
  }

  /** The weighted sum of exponents: six times the first, eight times the second, and so on. */
  function Weighing(es: seq<int>, n: nat): int
    requires n <= 6 && |es| == 6
  {
    if n == 0 then 0 else Weighing(es, n - 1) + es[n - 1] * (2 * n + 4)
  }

  lemma {:induction false} WeighedEvidence(s: Core, f: Frame, es: seq<int>, n: nat)
    requires Shaped(s) && Floored(s) && f.Ok() && |es| == 6 && n <= 6
    requires forall c: ChannelIndex ::
               H0(s, f, c) >= 0 && H1(s, f, c) >= 0 && Likelier(es[c], H0(s, f, c), H1(s, f, c))
    ensures RatioSum(s.channels, f.features, n) >= Weighing(es, n)
  {
    hide Ratio, Likelier, BitLen, H0, H1, Floored;
    if n > 0 {
      WeighedEvidence(s, f, es, n - 1);
      var c: ChannelIndex := n - 1;
      LikelihoodsArePositive(s, f, c);
      LikelierHasMoreBits(es[c], H0(s, f, c), H1(s, f, c));
      assert SPECTRUM_WEIGHT[c] == 2 * n + 4;
      ScaleOrder(es[c], Ratio(c, s.channels[c], f.features[c]), SPECTRUM_WEIGHT[c]);
    }
  }

  /** Evidence of 2^e in every channel makes the frame speech if the weighted sum of the exponents reaches the
      threshold for all channels together. */
  lemma AllChannelsDecide(s: Core, mode: Mode, f: Frame, es: seq<int>)
    requires Shaped(s) && Floored(s) && mode.Ok() && f.Ok() && f.totalPower > MIN_ENERGY && |es| == 6
    requires forall c: ChannelIndex ::
               H0(s, f, c) >= 0 && H1(s, f, c) >= 0 && Likelier(es[c], H0(s, f, c), H1(s, f, c))
    requires Weighing(es, 6) >= Total(mode, f)
    ensures RawDecision(s, mode, f)
  {
    hide Ratio, RatioSum, Likelier, H0, H1, Weighing;
    WeighedEvidence(s, f, es, 6);
  }

  /** Speech is at most 2^e times as likely as noise, which two impossible events are for an e of 0 or more. */
  predicate NoLikelier(e: int, h0: nat, h1: nat) { Likelier(-e, h1, h0) || (h0 == 0 && h1 == 0 && e >= 0) }

  lemma NoLikelierHasNoMoreBits(e: int, h0: nat, h1: nat)
    requires NoLikelier(e, h0, h1)
    ensures BitLen(h1) <= BitLen(h0) + e
  {
    hide Likelier, BitLen;
    if Likelier(-e, h1, h0) {
      LikelierHasMoreBits(-e, h1, h0);
    }
  }

  /** The evidence of a channel is within an exponent, and that within the threshold for one channel. */
  ghost predicate Doubtful(s: Core, mode: Mode, f: Frame, c: ChannelIndex, e: int)
    requires Shaped(s) && mode.Ok() && f.Ok()
  {
    H0(s, f, c) >= 0 && H1(s, f, c) >= 0 && NoLikelier(e, H0(s, f, c), H1(s, f, c)) && 4 * e <= Individual(mode, f)
  }

  lemma {:induction false} WeighedDoubt(s: Core, mode: Mode, f: Frame, es: seq<int>, n: nat)
    requires Shaped(s) && Floored(s) && mode.Ok() && f.Ok() && |es| == 6 && n <= 6
    requires forall c: ChannelIndex :: Doubtful(s, mode, f, c, es[c])
    ensures RatioSum(s.channels, f.features, n) <= Weighing(es, n)
    ensures forall c: ChannelIndex :: c < n ==> 4 * Ratio(c, s.channels[c], f.features[c]) <= Individual(mode, f)
  {
    hide Ratio, NoLikelier, BitLen, H0, H1, Floored;
    if n > 0 {
      WeighedDoubt(s, mode, f, es, n - 1);
      var c: ChannelIndex := n - 1;
      assert Doubtful(s, mode, f, c, es[c]);
      LikelihoodsArePositive(s, f, c);
      NoLikelierHasNoMoreBits(es[c], H0(s, f, c), H1(s, f, c));
      assert SPECTRUM_WEIGHT[c] == 2 * n + 4;
      ScaleOrder(Ratio(c, s.channels[c], f.features[c]), es[c], SPECTRUM_WEIGHT[c]);
    }
  }

  /** Evidence of at most 2^e in every channel makes the frame noise if no exponent passes the threshold for one channel
      and their weighted sum stays below the one for all together. */
  lemma DoubtDecides(s: Core, mode: Mode, f: Frame, es: seq<int>)
    requires Shaped(s) && Floored(s) && mode.Ok() && f.Ok() && |es| == 6
    requires forall c: ChannelIndex :: Doubtful(s, mode, f, c, es[c])
    requires Weighing(es, 6) < Total(mode, f)
    ensures !RawDecision(s, mode, f)
  {
    hide Ratio, RatioSum, Doubtful, Weighing;
    WeighedDoubt(s, mode, f, es, 6);
  }

  /** A frame that is at least as likely noise as speech in every channel is noise in each of the four modes. */
  lemma NoiseDecides(s: Core, mode: Mode, f: Frame)
    requires Shaped(s) && Floored(s) && OneOfTheModes(mode) && f.Ok()
    requires forall c: ChannelIndex :: H1(s, f, c) <= H0(s, f, c)
    ensures mode.Ok() && !RawDecision(s, mode, f)
  {
    hide Ratio, RatioSum, H0, H1, Likelier, Weighing;
    ModesAreOk(mode, LengthIndex(f.frameLength));
    var es := [0, 0, 0, 0, 0, 0];
    forall c: ChannelIndex ensures Doubtful(s, mode, f, c, es[c]) {
      LikelihoodsArePositive(s, f, c);
      NoMoreIsNoLikelier(H0(s, f, c), H1(s, f, c));
    }
    NothingWeighed();
    DoubtDecides(s, mode, f, es);
  }

  lemma NoMoreIsNoLikelier(h0: nat, h1: nat)
    requires h1 <= h0
    ensures NoLikelier(0, h0, h1)
  {
    assert Pow2(0) == 1;
  }

  lemma NothingWeighed()
    ensures Weighing([0, 0, 0, 0, 0, 0], 6) == 0
  {
    assert Weighing([0, 0, 0, 0, 0, 0], 3) == 0;
  }

  // ---------------------------------------------------------------- the modes

  /** Every threshold of the one mode is at most that of the other. */
  predicate Milder(a: Mode, b: Mode) {
    && a.Ok() && b.Ok()
    && forall i | 0 <= i < 3 :: a.individual[i] <= b.individual[i] && a.total[i] <= b.total[i]
  }

  lemma ModesAreOrdered()
    ensures Milder(QUALITY, LOW_BITRATE) && Milder(LOW_BITRATE, AGGRESSIVE) && Milder(AGGRESSIVE, VERY_AGGRESSIVE)
  {
  }

  /** A frame that is speech to a mode is speech to every milder one. */
  lemma MilderHearsMore(s: Core, a: Mode, b: Mode, f: Frame)
    requires Shaped(s) && f.Ok() && Milder(a, b) && RawDecision(s, b, f)
    ensures RawDecision(s, a, f)
  {
    hide Ratio, RatioSum;
  }

  // ---------------------------------------------------------------- over whole runs

  ghost predicate Convinced(s: Core, mode: Mode, f: Frame, c: ChannelIndex, e: int)
    requires Shaped(s) && mode.Ok() && f.Ok()
  {
    H0(s, f, c) >= 0 && H1(s, f, c) >= 0 && Likelier(e, H0(s, f, c), H1(s, f, c)) && 4 * e > Individual(mode, f)
  }

  /** Together the evidence of the channels reaches the threshold. */
  ghost predicate Convincing(s: Core, mode: Mode, f: Frame, es: seq<int>)
    requires Shaped(s) && mode.Ok() && f.Ok()
  {
    && |es| == 6 && Weighing(es, 6) >= Total(mode, f)
    && forall c: ChannelIndex :: H0(s, f, c) >= 0 && H1(s, f, c) >= 0 && Likelier(es[c], H0(s, f, c), H1(s, f, c))
  }

  ghost predicate Unconvincing(s: Core, mode: Mode, f: Frame, es: seq<int>)
    requires Shaped(s) && mode.Ok() && f.Ok()
  {
    |es| == 6 && Weighing(es, 6) < Total(mode, f) && forall c: ChannelIndex :: Doubtful(s, mode, f, c, es[c])
  }

  /** One convincing channel makes speech, and so do all together; evidence within the thresholds makes noise. */
  ghost predicate DecidesByLikelihood(s: Core, mode: Mode, f: Frame)
    requires Shaped(s) && mode.Ok() && f.Ok()
  {
    && (forall c: ChannelIndex, e: int :: Convinced(s, mode, f, c, e) ==> RawDecision(s, mode, f))
    && (forall es: seq<int> :: Convincing(s, mode, f, es) ==> RawDecision(s, mode, f))
    && (forall es: seq<int> :: Unconvincing(s, mode, f, es) ==> !RawDecision(s, mode, f))
    && ((forall c: ChannelIndex :: H1(s, f, c) <= H0(s, f, c)) ==> !RawDecision(s, mode, f))
  }

  lemma FlooredDecides(s: Core, mode: Mode, f: Frame)
    requires Shaped(s) && Floored(s) && OneOfTheModes(mode) && mode.Ok() && f.Ok() && f.totalPower > MIN_ENERGY
    ensures DecidesByLikelihood(s, mode, f)
  {
    hide Likelier, H0, H1, RawDecision, Individual, Total, Weighing, Doubtful, Floored, Next;
    forall c: ChannelIndex, e: int | Convinced(s, mode, f, c, e) ensures RawDecision(s, mode, f) {
      OneChannelDecides(s, mode, f, c, e);
    }
    forall es: seq<int> | Convincing(s, mode, f, es) ensures RawDecision(s, mode, f) {
      AllChannelsDecide(s, mode, f, es);
    }
    forall es: seq<int> | Unconvincing(s, mode, f, es) ensures !RawDecision(s, mode, f) {
      DoubtDecides(s, mode, f, es);
    }
    if forall c: ChannelIndex :: H1(s, f, c) <= H0(s, f, c) {
      NoiseDecides(s, mode, f);
    }
  }

  /** In every reachable state the decision about a loud frame follows the likelihoods. */
  lemma RunDecides(calls: seq<Call>, mode: Mode, f: Frame)
    requires forall i | 0 <= i < |calls| :: calls[i].Ok()
    requires OneOfTheModes(mode) && f.Ok() && f.totalPower > MIN_ENERGY
    ensures Floored(Run(calls)) && mode.Ok() && DecidesByLikelihood(Run(calls), mode, f)
  {
    hide Run, DecidesByLikelihood, Floored, CoreOk, AllSeparated;
    ModesAreOk(mode, 0);
    RunIsSafe(calls);
    OkIsFloored(Run(calls));
    FlooredDecides(Run(calls), mode, f);
  }

  lemma OkIsFloored(s: Core)
    requires CoreOk(s)
    ensures Shaped(s) && Floored(s)
  {
    hide NoiseOk, SpeechOk, TrackerOk;
  }
}
