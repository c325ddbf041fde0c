/** One call of GmmProbability as a function of the state: the likelihood test over the six
    channels, the learning step, the hysteresis; and what holds over any run of calls. */
module VadCore {
  import opened FixedPoint
  import opened VadModel
  import opened VadInvariants
  import G = VadGaussian
  import T = VadTracker
  import H = VadHangover

  const MIN_ENERGY := 10

  /** The thresholds of an aggressiveness mode, for frames of 10, 20 and 30 ms. */
  datatype Mode = Mode(overHangMax1: seq<int>, overHangMax2: seq<int>, individual: seq<int>, total: seq<int>) {
    predicate Ok() {
      |overHangMax1| == 3 && |overHangMax2| == 3 && |individual| == 3 && |total| == 3
    }
  }

  const QUALITY := Mode([8, 4, 3], [14, 7, 5], [24, 21, 24], [57, 48, 57])
  const LOW_BITRATE := Mode([8, 4, 3], [14, 7, 5], [37, 32, 37], [100, 80, 100])
  const AGGRESSIVE := Mode([6, 3, 2], [9, 5, 3], [82, 78, 82], [285, 260, 285])
  const VERY_AGGRESSIVE := Mode([6, 3, 2], [9, 5, 3], [94, 94, 94], [1100, 1050, 1100])

  datatype Tracker = Tracker(entries: seq<T.Entry>, mean: int)

  datatype Core = Core(channels: seq<Channel>, trackers: seq<Tracker>, frameCounter: int, hangover: H.Hangover)

  datatype Frame = Frame(features: seq<int>, totalPower: int, frameLength: nat) {
    predicate Ok() { |features| == 6 && forall i | 0 <= i < 6 :: IsInt16(features[i]) }
  }

  /** Which of the three frame lengths the thresholds are taken for. */
  function LengthIndex(frameLength: nat): nat { if frameLength == 80 then 0 else if frameLength == 160 then 1 else 2 }

  // ---------------------------------------------------------------- the likelihood test

  function Weighted(weights: seq<int>, c: ChannelIndex, k: int, g: Gaussian, feature: int): int
    requires |weights| == 12 && 0 <= k < 2
  {
    W32(weights[c + 6 * k] * G.Probability(feature, g.mean, g.std))
  }

  function NoiseProbability(c: ChannelIndex, k: int, g: Gaussian, feature: int): int
    requires 0 <= k < 2
  {
    Weighted(NOISE_WEIGHTS, c, k, g, feature)
  }

  function SpeechProbability(c: ChannelIndex, k: int, g: Gaussian, feature: int): int
    requires 0 <= k < 2
  {
    Weighted(SPEECH_WEIGHTS, c, k, g, feature)
  }

  function NoiseTest(c: ChannelIndex, m: Channel, feature: int): int {
    W32(NoiseProbability(c, 0, m.noise0, feature) + NoiseProbability(c, 1, m.noise1, feature))
  }

  function SpeechTest(c: ChannelIndex, m: Channel, feature: int): int {
    W32(SpeechProbability(c, 0, m.speech0, feature) + SpeechProbability(c, 1, m.speech1, feature))
  }

  function Shifts(h: int): int { if h == 0 then 31 else NormW32(h) }

  /** log2 of the likelihood ratio, to the nearest power of two. */
  function Ratio(c: ChannelIndex, m: Channel, feature: int): int {
    W16(Shifts(NoiseTest(c, m, feature)) - Shifts(SpeechTest(c, m, feature)))
  }

  /** The two posteriors of a mixture with test value h and first weighted probability p0. */
  function Posteriors(p0: int, h: int, otherwise: int): (int, int) {
    var h' := W16(h / 4096);
    if h' > 0 then (G.Share(p0, h'), W16(16384 - G.Share(p0, h'))) else (otherwise, 0)
  }

  function Weigh(g: Gaussian, feature: int, share: int): Evidence { Evidence(share, G.Delta(feature, g.mean, g.std)) }

  function Detect(c: ChannelIndex, m: Channel, feature: int): ChannelEvidence {
    var noise := Posteriors(NoiseProbability(c, 0, m.noise0, feature), NoiseTest(c, m, feature), 16384);
    var speech := Posteriors(SpeechProbability(c, 0, m.speech0, feature), SpeechTest(c, m, feature), 0);
    ChannelEvidence(Weigh(m.noise0, feature, noise.0), Weigh(m.noise1, feature, noise.1),
                    Weigh(m.speech0, feature, speech.0), Weigh(m.speech1, feature, speech.1))
  }

  /** The weighted sum of the ratios of the first n channels. */
  function RatioSum(channels: seq<Channel>, features: seq<int>, n: nat): int
    requires n <= 6 && |channels| == 6 && |features| == 6
  {
    if n == 0 then 0
    else RatioSum(channels, features, n - 1) + Ratio(n - 1, channels[n - 1], features[n - 1]) * SPECTRUM_WEIGHT[n - 1]
  }

  /** Whether a frame is taken for speech: one channel alone is convincing, or all together. */
  predicate IsSpeech(channels: seq<Channel>, features: seq<int>, individualTest: int, totalTest: int)
    requires |channels| == 6 && |features| == 6
  {
    || (exists c: ChannelIndex :: Ratio(c, channels[c], features[c]) * 4 > individualTest)
    || RatioSum(channels, features, 6) >= totalTest
  }

  // ---------------------------------------------------------------- a whole frame

  function NextTracker(t: Tracker, feature: int, frameCounter: int): Tracker
    requires |t.entries| == T.SLOTS
  {
    var entries := T.Step(t.entries, feature);
    Tracker(entries, T.NextMean(entries, frameCounter, t.mean))
  }

  function NextChannel(c: ChannelIndex, m: Channel, feature: int, speech: bool, featureMinimum: int): Channel {
    UpdateChannel(c, m, Detect(c, m, feature), feature, speech, featureMinimum, MaxSpe(c))
  }

  ghost predicate Shaped(s: Core) {
    |s.channels| == 6 && |s.trackers| == 6 && forall c | 0 <= c < 6 :: |s.trackers[c].entries| == T.SLOTS
  }

  /** The raw decision of a frame, before the hysteresis. */
  ghost function RawDecision(s: Core, mode: Mode, f: Frame): bool
    requires Shaped(s) && mode.Ok() && f.Ok()
  {
    var i := LengthIndex(f.frameLength);
    f.totalPower > MIN_ENERGY && IsSpeech(s.channels, f.features, mode.individual[i], mode.total[i])
  }

  ghost function AfterLearning(s: Core, f: Frame, speech: bool): (r: Core)
    requires Shaped(s) && f.Ok()
    ensures Shaped(r)
  {
    var trackers := seq(6, c requires 0 <= c < 6 => NextTracker(s.trackers[c], f.features[c], s.frameCounter));
    var channels := seq(6, c requires 0 <= c < 6 =>
      NextChannel(c, s.channels[c], f.features[c], speech, trackers[c].mean));
    Core(channels, trackers, W32(s.frameCounter + 1), s.hangover)
  }

  lemma AfterLearningIs(s: Core, f: Frame, speech: bool, channels: seq<Channel>, trackers: seq<Tracker>)
    requires Shaped(s) && f.Ok() && |channels| == 6 == |trackers|
    requires forall c: ChannelIndex :: trackers[c] == NextTracker(s.trackers[c], f.features[c], s.frameCounter)
    requires forall c: ChannelIndex ::
               channels[c] == NextChannel(c, s.channels[c], f.features[c], speech, trackers[c].mean)
    ensures AfterLearning(s, f, speech) == Core(channels, trackers, W32(s.frameCounter + 1), s.hangover)
  {
    hide NextTracker, NextChannel, W32;
    var r := AfterLearning(s, f, speech);
    assert r.trackers == trackers;
    assert r.channels == channels;
  }

  /** What GmmProbability does: the decision it returns and the state it leaves. */
  ghost function Next(s: Core, mode: Mode, f: Frame): (r: (int, Core))
    requires Shaped(s) && mode.Ok() && f.Ok()
    ensures Shaped(r.1)
  {
    var i := LengthIndex(f.frameLength);
    var speech := RawDecision(s, mode, f);
    var learned := if f.totalPower > MIN_ENERGY then AfterLearning(s, f, speech) else s;
    var (decision, hangover) := H.Smooth(s.hangover, speech, mode.overHangMax1[i], mode.overHangMax2[i]);
    (decision, learned.(hangover := hangover))
  }

  // ---------------------------------------------------------------- the start state

  function StartChannel(c: ChannelIndex): Channel {
    Channel(Gaussian(NOISE_MEANS[c], NOISE_STDS[c]), Gaussian(NOISE_MEANS[c + 6], NOISE_STDS[c + 6]),
            Gaussian(SPEECH_MEANS[c], SPEECH_STDS[c]), Gaussian(SPEECH_MEANS[c + 6], SPEECH_STDS[c + 6]))
  }

  ghost function Start(): (s: Core)
    ensures Shaped(s)
  {
    Core(seq(6, c requires 0 <= c < 6 => StartChannel(c)), seq(6, _ => Tracker(T.Start(), 1600)), 0, H.Hangover(0, 0))
  }

  // ---------------------------------------------------------------- invariants over runs

  ghost predicate TrackerOk(t: Tracker) {
    |t.entries| == T.SLOTS && T.EntriesOk(t.entries) && IsInt16(t.mean)
  }

  ghost predicate CoreOk(s: Core) {
    && Shaped(s)
    && (forall c: ChannelIndex :: ChannelOk(c, s.channels[c]))
    && (forall c: ChannelIndex :: TrackerOk(s.trackers[c]))
    && 0 <= s.hangover.numOfSpeech <= H.MAX_SPEECH_FRAMES && s.hangover.overHang >= 0
  }

  ghost predicate AllSeparated(s: Core)
    requires Shaped(s)
  {
    forall c: ChannelIndex :: Separated(c, s.channels[c])
  }

  predicate ModeOk(mode: Mode) {
    mode.Ok() && forall i | 0 <= i < 3 :: mode.overHangMax1[i] >= 0 && mode.overHangMax2[i] >= 0
  }

  lemma StartOk()
    ensures CoreOk(Start())
  {
    forall c: ChannelIndex
      ensures ChannelOk(c, StartChannel(c))
    {
      StartChannelOk(c);
    }
    T.RunKeeps([]);
  }

  lemma StartChannelOk(c: ChannelIndex)
    ensures ChannelOk(c, StartChannel(c))
  {
  }

  lemma TrackerKeeps(t: Tracker, feature: int, frameCounter: int)
    requires TrackerOk(t) && IsInt16(feature)
    ensures TrackerOk(NextTracker(t, feature, frameCounter))
  {
    T.StepKeeps(t.entries, feature);
  }

  /** One frame keeps the invariant; a frame that is loud enough to be processed separates the
      models of every channel. */
  lemma NextKeeps(s: Core, mode: Mode, f: Frame)
    requires CoreOk(s) && ModeOk(mode) && f.Ok()
    ensures CoreOk(Next(s, mode, f).1)
    ensures f.totalPower > MIN_ENERGY || AllSeparated(s) ==> AllSeparated(Next(s, mode, f).1)
  {
    hide ChannelOk, TrackerOk, Separated, Detect, NextTracker, UpdateChannel;
    if f.totalPower > MIN_ENERGY {
      var speech := RawDecision(s, mode, f);
      var l := AfterLearning(s, f, speech);
      forall c: ChannelIndex
        ensures TrackerOk(l.trackers[c]) && ChannelOk(c, l.channels[c]) && Separated(c, l.channels[c])
      {
        TrackerKeeps(s.trackers[c], f.features[c], s.frameCounter);
        var m := s.channels[c];
        UpdateKeeps(c, m, Detect(c, m, f.features[c]), f.features[c], speech, l.trackers[c].mean);
      }
    }
  }

  /** A call: the frame, and the mode in force, which may have been changed in between. */
  datatype Call = Call(mode: Mode, frame: Frame) {
    predicate Ok() { ModeOk(mode) && frame.Ok() }
  }

  /** The state after a run of calls. */
  ghost function Run(calls: seq<Call>): (s: Core)
    requires forall i | 0 <= i < |calls| :: calls[i].Ok()
    ensures Shaped(s)
  {
    if calls == [] then Start()
    else
      var last := calls[|calls| - 1];
      assert last.Ok();
      Next(Run(calls[..|calls| - 1]), last.mode, last.frame).1
  }

  predicate Loud(call: Call) { call.frame.totalPower > MIN_ENERGY }

  predicate Processed(calls: seq<Call>) { exists i :: 0 <= i < |calls| && Loud(calls[i]) }

  /** Frames too quiet to be processed leave the models and trackers alone. */
  lemma {:induction false} QuietRun(calls: seq<Call>)
    requires forall i | 0 <= i < |calls| :: calls[i].Ok()
    requires !Processed(calls)
    ensures Run(calls).channels == Start().channels && Run(calls).trackers == Start().trackers
  {
    if calls != [] {
      var front, last := calls[..|calls| - 1], calls[|calls| - 1];
      assert !Loud(last);
      assert forall i | 0 <= i < |front| :: Loud(front[i]) ==> Loud(calls[i]);
      QuietRun(front);
    }
  }

  /** Safety over whole runs: whatever the features, every reachable state meets the bounds, and the
      models of every channel are separated if and only if a frame has been processed. */
  lemma RunIsSafe(calls: seq<Call>)
    requires forall i | 0 <= i < |calls| :: calls[i].Ok()
    ensures CoreOk(Run(calls))
    ensures Processed(calls) <==> AllSeparated(Run(calls))
  {
    hide Run, CoreOk, AllSeparated, Start;
    ProcessedRun(calls);
    if !Processed(calls) {
      QuietRun(calls);
      StartIsNotSeparated();
      SameSeparation(Run(calls), Start());
    }
  }

  lemma SameSeparation(s: Core, t: Core)
    requires Shaped(s) && Shaped(t) && s.channels == t.channels
    ensures AllSeparated(s) == AllSeparated(t)
  {
  }

  lemma {:induction false} ProcessedRun(calls: seq<Call>)
    requires forall i | 0 <= i < |calls| :: calls[i].Ok()
    ensures CoreOk(Run(calls))
    ensures Processed(calls) ==> AllSeparated(Run(calls))
  {
    hide Next, CoreOk, AllSeparated;
    if calls == [] {
      StartOk();
    } else {
      var front, last := calls[..|calls| - 1], calls[|calls| - 1];
      ProcessedRun(front);
      NextKeeps(Run(front), last.mode, last.frame);
      if Processed(calls) {
        var i :| 0 <= i < |calls| && Loud(calls[i]);
        assert i < |front| ==> Loud(front[i]);
      }
    }
  }

  /** The raw decisions along a run. */
  ghost function RawDecisions(calls: seq<Call>): (r: seq<bool>)
    requires forall i | 0 <= i < |calls| :: calls[i].Ok()
    ensures |r| == |calls|
  {
    if calls == [] then []
    else
      var front, last := calls[..|calls| - 1], calls[|calls| - 1];
      assert last.Ok();
      RawDecisions(front) + [RawDecision(Run(front), last.mode, last.frame)]
  }

  /** With the mode and the frame length fixed, the counters of a run are those of the history of
      its raw decisions, so the run law of VadHangover speaks about every decision handed out. */
  lemma {:induction false} RunHangover(calls: seq<Call>, mode: Mode, index: nat)
    requires forall i | 0 <= i < |calls| :: calls[i].Ok()
    requires ModeOk(mode) && index < 3
    requires forall i | 0 <= i < |calls| :: calls[i].mode == mode && LengthIndex(calls[i].frame.frameLength) == index
    ensures Run(calls).hangover == H.After(RawDecisions(calls), mode.overHangMax1[index], mode.overHangMax2[index])
    ensures calls != [] ==>
              Next(Run(calls[..|calls| - 1]), mode, calls[|calls| - 1].frame).0
              == H.Decision(RawDecisions(calls), mode.overHangMax1[index], mode.overHangMax2[index])
  {
    if calls != [] {
      var front, last := calls[..|calls| - 1], calls[|calls| - 1];
      RunHangover(front, mode, index);
      assert last.Ok() && last.mode == mode;
      assert RawDecisions(calls)[..|calls| - 1] == RawDecisions(front);
    }
  }

  /** The start models are not separated yet, which is why a frame has to be processed first. */
  lemma StartIsNotSeparated()
    ensures !AllSeparated(Start())
  {
    var c: ChannelIndex := 0;
    assert !Separated(c, Start().channels[c]);
  }

  // ---------------------------------------------------------------- posteriors of a channel

  /** Two probabilities weighted with weights that sum to 128 add up exactly, below 2^27. */
  lemma MixtureIsExact(w0: int, w1: int, p0: int, p1: int)
    requires w0 >= 0 && w1 >= 0 && w0 + w1 == 128
    requires 0 <= p0 <= 347 * 2047 && 0 <= p1 <= 347 * 2047
    ensures W32(w0 * p0) == w0 * p0 >= 0 && W32(w1 * p1) == w1 * p1 >= 0
    ensures W32(w0 * p0 + w1 * p1) == w0 * p0 + w1 * p1 < 0x800_0000
  {
    MeanBound(w0, w1, p0, p1, 0, 347 * 2047);
    NonNegativeProduct(w0, p0);
    NonNegativeProduct(w1, p1);
    assert w0 * p0 == p0 * w0 && w1 * p1 == p1 * w1;
  }

  lemma TestsAreExact(c: ChannelIndex, m: Channel, feature: int)
    requires StdsOk(m)
    ensures var p0, p1 := NoiseProbability(c, 0, m.noise0, feature), NoiseProbability(c, 1, m.noise1, feature);
            0 <= p0 && 0 <= p1 && NoiseTest(c, m, feature) == p0 + p1 < 0x800_0000
    ensures var p0, p1 := SpeechProbability(c, 0, m.speech0, feature), SpeechProbability(c, 1, m.speech1, feature);
            0 <= p0 && 0 <= p1 && SpeechTest(c, m, feature) == p0 + p1 < 0x800_0000
  {
    WeightsSum(c);
    G.ProbabilityBounds(feature, m.noise0.mean, m.noise0.std);
    G.ProbabilityBounds(feature, m.noise1.mean, m.noise1.std);
    G.ProbabilityBounds(feature, m.speech0.mean, m.speech0.std);
    G.ProbabilityBounds(feature, m.speech1.mean, m.speech1.std);
    MixtureIsExact(NOISE_WEIGHTS[c], NOISE_WEIGHTS[c + 6], G.Probability(feature, m.noise0.mean, m.noise0.std),
                   G.Probability(feature, m.noise1.mean, m.noise1.std));
    MixtureIsExact(SPEECH_WEIGHTS[c], SPEECH_WEIGHTS[c + 6], G.Probability(feature, m.speech0.mean, m.speech0.std),
                   G.Probability(feature, m.speech1.mean, m.speech1.std));
  }

  /** In every channel the noise posteriors lie in 0..16384 and sum to 16384; the speech
      posteriors do too, or both are zero. No test value wraps. */
  lemma PosteriorsAreConditional(c: ChannelIndex, m: Channel, feature: int)
    requires StdsOk(m)
    ensures var e := Detect(c, m, feature);
            && 0 <= e.noise0.share <= 16384 && e.noise0.share + e.noise1.share == 16384
            && 0 <= e.speech0.share <= 16384
            && (e.speech0.share + e.speech1.share == 16384 || (e.speech0.share == 0 && e.speech1.share == 0))
  {
    TestsAreExact(c, m, feature);
    var n0, n1 := NoiseProbability(c, 0, m.noise0, feature), NoiseProbability(c, 1, m.noise1, feature);
    var s0, s1 := SpeechProbability(c, 0, m.speech0, feature), SpeechProbability(c, 1, m.speech1, feature);
    PosteriorPair(n0, n1, 16384);
    PosteriorPair(s0, s1, 0);
  }

  lemma PosteriorPair(p0: int, p1: int, otherwise: int)
    requires 0 <= p0 && 0 <= p1 && p0 + p1 < 0x800_0000
    ensures var s := Posteriors(p0, p0 + p1, otherwise);
            if (p0 + p1) / 4096 > 0 then 0 <= s.0 <= 16384 && s.0 + s.1 == 16384 else s == (otherwise, 0)
  {
    if (p0 + p1) / 4096 > 0 {
      G.SharesArePosteriors(p0, p1);
    }
  }
}
