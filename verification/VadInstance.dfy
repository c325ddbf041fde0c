/** VadInstT and GmmProbability on the instance's arrays, proved against VadCore. */
module VadInstance {
  import opened FixedPoint
  import opened VadModel
  import opened VadInvariants
  import opened VadCore
  import G = VadGaussian
  import H = VadHangover
  import M = VadMinimum
  import T = VadTracker

  class VadInst {
    const noiseMeans: array<int>
    const speechMeans: array<int>
    const noiseStds: array<int>
    const speechStds: array<int>
    const indexVector: array<int>
    const lowValueVector: array<int>
    const meanValue: array<int>
    var frameCounter: int
    var overHang: int
    var numOfSpeech: int
    var overHangMax1: seq<int>
    var overHangMax2: seq<int>
    var individual: seq<int>
    var total: seq<int>

    /** Array sizes; arrays of different sizes are different, and so are the rest. */
    ghost predicate Shape() {
      && noiseMeans.Length == 12 && speechMeans.Length == 12 && noiseStds.Length == 12 && speechStds.Length == 12
      && indexVector.Length == 96 && lowValueVector.Length == 96 && meanValue.Length == 6
      && noiseMeans != speechMeans && noiseMeans != noiseStds && noiseMeans != speechStds
      && speechMeans != noiseStds && speechMeans != speechStds && noiseStds != speechStds
      && indexVector != lowValueVector
    }

    ghost function ChannelAt(c: ChannelIndex): Channel
      requires Shape()
      reads noiseMeans, speechMeans, noiseStds, speechStds
    {
      Channel(Gaussian(noiseMeans[c], noiseStds[c]), Gaussian(noiseMeans[c + 6], noiseStds[c + 6]),
              Gaussian(speechMeans[c], speechStds[c]), Gaussian(speechMeans[c + 6], speechStds[c + 6]))
    }

    ghost function TrackerAt(c: ChannelIndex): Tracker
      requires Shape()
      reads indexVector, lowValueVector, meanValue
    {
      Tracker(M.Window(lowValueVector, indexVector, 16 * c), meanValue[c])
    }

    ghost function Channels(): (s: seq<Channel>)
      requires Shape()
      reads noiseMeans, speechMeans, noiseStds, speechStds
      ensures |s| == 6 && forall c: ChannelIndex :: s[c] == ChannelAt(c)
    {
      [ChannelAt(0), ChannelAt(1), ChannelAt(2), ChannelAt(3), ChannelAt(4), ChannelAt(5)]
    }

    ghost function Trackers(): (s: seq<Tracker>)
      requires Shape()
      reads indexVector, lowValueVector, meanValue
      ensures |s| == 6 && forall c: ChannelIndex :: s[c] == TrackerAt(c)
    {
      [TrackerAt(0), TrackerAt(1), TrackerAt(2), TrackerAt(3), TrackerAt(4), TrackerAt(5)]
    }

    /** The instance as a value. */
    ghost function State(): (s: Core)
      requires Shape()
      reads this, noiseMeans, speechMeans, noiseStds, speechStds, indexVector, lowValueVector, meanValue
      ensures Shaped(s)
    {
      Core(Channels(), Trackers(), frameCounter, H.Hangover(overHang, numOfSpeech))
    }

    function CurrentMode(): Mode
      reads this
    {
      Mode(overHangMax1, overHangMax2, individual, total)
    }

    ghost predicate Valid()
      reads this, noiseMeans, speechMeans, noiseStds, speechStds, indexVector, lowValueVector, meanValue
    {
      Shape() && CoreOk(State()) && ModeOk(CurrentMode())
    }

    // -------------------------------------------------------------- WebRtcVad_InitCore, set_mode

    /** Allocate an instance; `InitCore` gives it its contents. */
    constructor Create()
      ensures Shape()
      ensures fresh(noiseMeans) && fresh(speechMeans) && fresh(noiseStds) && fresh(speechStds)
      ensures fresh(indexVector) && fresh(lowValueVector) && fresh(meanValue)
    {
      noiseMeans, speechMeans, noiseStds, speechStds := new int[12], new int[12], new int[12], new int[12];
      lowValueVector, indexVector, meanValue := new int[96], new int[96], new int[6];
      frameCounter, overHang, numOfSpeech := 0, 0, 0;
      overHangMax1, overHangMax2, individual, total := [], [], [], [];
    }

    method InitCore()
      requires Shape()
      modifies this, noiseMeans, speechMeans, noiseStds, speechStds, indexVector, lowValueVector, meanValue
      ensures Valid() && State() == Start() && CurrentMode() == QUALITY
    {
      hide CoreOk, ChannelAt, TrackerAt, StartChannel, T.Start;
      frameCounter, overHang, numOfSpeech := 0, 0, 0;
      InitModels();
      InitMemory();
      var r := SetModeCore(0);
      assert Channels() == Start().channels;
      assert Trackers() == Start().trackers;
      StartOk();
    }

    method InitModels()
      requires Shape()
      modifies noiseMeans, speechMeans, noiseStds, speechStds
      ensures forall c: ChannelIndex :: ChannelAt(c) == StartChannel(c)
    {
      var i := 0;
      while i < 12
        invariant 0 <= i <= 12
        invariant forall j | 0 <= j < i :: noiseMeans[j] == NOISE_MEANS[j] && speechMeans[j] == SPEECH_MEANS[j]
        invariant forall j | 0 <= j < i :: noiseStds[j] == NOISE_STDS[j] && speechStds[j] == SPEECH_STDS[j]
      {
        noiseMeans[i] := NOISE_MEANS[i];
        speechMeans[i] := SPEECH_MEANS[i];
        noiseStds[i] := NOISE_STDS[i];
        speechStds[i] := SPEECH_STDS[i];
        i := i + 1;
      }
    }

    method InitMemory()
      requires Shape()
      modifies indexVector, lowValueVector, meanValue
      ensures forall c: ChannelIndex :: TrackerAt(c) == Tracker(T.Start(), 1600)
    {
      var i := 0;
      while i < 16 * 6
        invariant 0 <= i <= 96
        invariant forall j | 0 <= j < i :: lowValueVector[j] == 10000 && indexVector[j] == 0
      {
        lowValueVector[i] := 10000;
        indexVector[i] := 0;
        i := i + 1;
      }
      i := 0;
      while i < 6
        invariant 0 <= i <= 6
        invariant forall j | 0 <= j < i :: meanValue[j] == 1600
        invariant forall j | 0 <= j < 96 :: lowValueVector[j] == 10000 && indexVector[j] == 0
      {
        meanValue[i] := 1600;
        i := i + 1;
      }
      forall c: ChannelIndex
        ensures TrackerAt(c) == Tracker(T.Start(), 1600)
      {
        assert M.Window(lowValueVector, indexVector, 16 * c) == T.Start();
      }
    }

    /** Modes 0 to 3 replace all four threshold tables; any other mode is refused and changes nothing. */
    method SetModeCore(mode: int) returns (r: int)
      modifies `overHangMax1, `overHangMax2, `individual, `total
      ensures r == if 0 <= mode <= 3 then 0 else -1
      ensures CurrentMode() == if mode == 0 then QUALITY else if mode == 1 then LOW_BITRATE
                               else if mode == 2 then AGGRESSIVE else if mode == 3 then VERY_AGGRESSIVE
                               else old(CurrentMode())
    {
      r := 0;
      if mode == 0 {
        overHangMax1, overHangMax2 := [8, 4, 3], [14, 7, 5];
        individual, total := [24, 21, 24], [57, 48, 57];
      } else if mode == 1 {
        overHangMax1, overHangMax2 := [8, 4, 3], [14, 7, 5];
        individual, total := [37, 32, 37], [100, 80, 100];
      } else if mode == 2 {
        overHangMax1, overHangMax2 := [6, 3, 2], [9, 5, 3];
        individual, total := [82, 78, 82], [285, 260, 285];
      } else if mode == 3 {
        overHangMax1, overHangMax2 := [6, 3, 2], [9, 5, 3];
        individual, total := [94, 94, 94], [1100, 1050, 1100];
      } else {
        r := -1;
      }
    }

    // -------------------------------------------------------------- detection

    /** The weighted probability of Gaussian k, and its delta. */
    method WeightedProbability(weights: seq<int>, c: ChannelIndex, k: nat, feature: int, mean: int, std: int)
      returns (probability: int, delta: int)
      requires |weights| == 12 && k < 2
      ensures probability == Weighted(weights, c, k, Gaussian(mean, std), feature)
      ensures delta == G.Delta(feature, mean, std)
    {
      hide G.Probability, G.Delta, W32;
      probability, delta := G.GaussianProbability(feature, mean, std);
      probability := W32(weights[c + k * 6] * probability);
    }

    /** The weighted probabilities of a channel under both models, and the deltas. */
    method Probabilities(c: ChannelIndex, feature: int, deltaN: array<int>, deltaS: array<int>)
      returns (noise0: int, h0Test: int, speech0: int, h1Test: int)
      requires Shape() && deltaN.Length == 12 && deltaS.Length == 12 && deltaN != deltaS
      requires {deltaN, deltaS} !! {noiseMeans, speechMeans, noiseStds, speechStds}
      modifies deltaN, deltaS
      ensures var m := ChannelAt(c);
              && noise0 == NoiseProbability(c, 0, m.noise0, feature) && h0Test == NoiseTest(c, m, feature)
              && speech0 == SpeechProbability(c, 0, m.speech0, feature) && h1Test == SpeechTest(c, m, feature)
              && deltaN[c] == G.Delta(feature, m.noise0.mean, m.noise0.std)
              && deltaN[c + 6] == G.Delta(feature, m.noise1.mean, m.noise1.std)
              && deltaS[c] == G.Delta(feature, m.speech0.mean, m.speech0.std)
              && deltaS[c + 6] == G.Delta(feature, m.speech1.mean, m.speech1.std)
      ensures forall i | 0 <= i < 12 && i != c && i != c + 6 ::
                deltaN[i] == old(deltaN[i]) && deltaS[i] == old(deltaS[i])
    {
      hide Weighted, G.Delta, W32;
      ghost var m := ChannelAt(c);
      noise0, h0Test, speech0, h1Test := 0, 0, 0, 0;
      var k := 0;
      while k < 2
        invariant 0 <= k <= 2 && ChannelAt(c) == m
        invariant k == 0 ==> h0Test == h1Test == 0
        invariant k >= 1 ==> noise0 == NoiseProbability(c, 0, m.noise0, feature)
        invariant k >= 1 ==> speech0 == SpeechProbability(c, 0, m.speech0, feature)
        invariant k == 1 ==> h0Test == W32(0 + noise0) && h1Test == W32(0 + speech0)
        invariant k == 2 ==> h0Test == W32(W32(0 + noise0) + NoiseProbability(c, 1, m.noise1, feature))
        invariant k == 2 ==> h1Test == W32(W32(0 + speech0) + SpeechProbability(c, 1, m.speech1, feature))
        invariant k >= 1 ==> deltaN[c] == G.Delta(feature, m.noise0.mean, m.noise0.std)
        invariant k >= 1 ==> deltaS[c] == G.Delta(feature, m.speech0.mean, m.speech0.std)
        invariant k == 2 ==> deltaN[c + 6] == G.Delta(feature, m.noise1.mean, m.noise1.std)
        invariant k == 2 ==> deltaS[c + 6] == G.Delta(feature, m.speech1.mean, m.speech1.std)
        invariant forall i | 0 <= i < 12 && i != c && i != c + 6 ::
                    deltaN[i] == old(deltaN[i]) && deltaS[i] == old(deltaS[i])
      {
        var gaussian := c + k * 6;
        var p, d := WeightedProbability(NOISE_WEIGHTS, c, k, feature, noiseMeans[gaussian], noiseStds[gaussian]);
        deltaN[gaussian] := d;
        h0Test := W32(h0Test + p);
        var q, e := WeightedProbability(SPEECH_WEIGHTS, c, k, feature, speechMeans[gaussian], speechStds[gaussian]);
        deltaS[gaussian] := e;
        h1Test := W32(h1Test + q);
        if k == 0 {
          noise0, speech0 := p, q;
        }
        k := k + 1;
      }
      assert W32(0 + noise0) == noise0 && W32(0 + speech0) == speech0 by {
        WeightedIsWord(NOISE_WEIGHTS, c, 0, m.noise0, feature);
        WeightedIsWord(SPEECH_WEIGHTS, c, 0, m.speech0, feature);
      }
    }

    lemma WeightedIsWord(weights: seq<int>, c: ChannelIndex, k: nat, g: Gaussian, feature: int)
      requires |weights| == 12 && k < 2
      ensures IsInt32(Weighted(weights, c, k, g, feature))
    {
    }

    /** Fill in the evidence of one channel and return its likelihood ratio. */
    method DetectChannel(c: ChannelIndex, feature: int,
                         deltaN: array<int>, deltaS: array<int>, ngprvec: array<int>, sgprvec: array<int>)
      returns (ratio: int)
      requires Shape()
      requires Scratch(deltaN, deltaS, ngprvec, sgprvec)
      requires sgprvec[c] == sgprvec[c + 6] == ngprvec[c + 6] == 0
      modifies deltaN, deltaS, ngprvec, sgprvec
      ensures ratio == Ratio(c, ChannelAt(c), feature)
      ensures EvidenceAt(c, deltaN, deltaS, ngprvec, sgprvec) == Detect(c, ChannelAt(c), feature)
      ensures forall i | 0 <= i < 12 && i != c && i != c + 6 ::
                deltaN[i] == old(deltaN[i]) && deltaS[i] == old(deltaS[i])
                && ngprvec[i] == old(ngprvec[i]) && sgprvec[i] == old(sgprvec[i])
    {
      hide G.Delta, Weighted, NoiseTest, SpeechTest, W16, W32, NormW32, DivW32W16, ChannelAt;
      var noise0, h0Test, speech0, h1Test := Probabilities(c, feature, deltaN, deltaS);
      var shiftsH0, shiftsH1 := NormW32(h0Test), NormW32(h1Test);
      if h0Test == 0 {
        shiftsH0 := 31;
      }
      if h1Test == 0 {
        shiftsH1 := 31;
      }
      ratio := W16(shiftsH0 - shiftsH1);
      var h0 := W16(h0Test / 4096);
      if h0 > 0 {
        ngprvec[c] := W16(DivW32W16(W32(noise0 / 4096 * 4096 * 4), h0));
        ngprvec[c + 6] := W16(16384 - ngprvec[c]);
      } else {
        ngprvec[c] := 16384;
      }
      var h1 := W16(h1Test / 4096);
      if h1 > 0 {
        sgprvec[c] := W16(DivW32W16(W32(speech0 / 4096 * 4096 * 4), h1));
        sgprvec[c + 6] := W16(16384 - sgprvec[c]);
      }
      assert (ngprvec[c], ngprvec[c + 6]) == Posteriors(noise0, h0Test, 16384);
      assert (sgprvec[c], sgprvec[c + 6]) == Posteriors(speech0, h1Test, 0);
    }

    // -------------------------------------------------------------- learning

    ghost function NoiseAt(g: nat): Gaussian
      requires Shape() && g < 12
      reads noiseMeans, noiseStds
    {
      Gaussian(noiseMeans[g], noiseStds[g])
    }

    ghost function SpeechAt(g: nat): Gaussian
      requires Shape() && g < 12
      reads speechMeans, speechStds
    {
      Gaussian(speechMeans[g], speechStds[g])
    }

    /** No Gaussian but those at the given indices has changed. */
    twostate predicate OnlyGaussians(g: int, g': int)
      requires Shape()
      reads noiseMeans, speechMeans, noiseStds, speechStds
    {
      forall i | 0 <= i < 12 && i != g && i != g' ::
        && noiseMeans[i] == old(noiseMeans[i]) && noiseStds[i] == old(noiseStds[i])
        && speechMeans[i] == old(speechMeans[i]) && speechStds[i] == old(speechStds[i])
    }

    /** The new mean of a noise Gaussian, clamped. */
    static method LearnNoiseMean(c: ChannelIndex, k: nat, nmk: int, e: Evidence, vadflag: bool, ndelt: int)
      returns (nmk3: int)
      requires k < 2 && IsInt16(nmk)
      ensures nmk3 == NoiseMean(c, k, nmk, e, vadflag, ndelt)
    {
      hide W16;
      var nmk2 := nmk;
      if !vadflag {
        var delt := W16((e.share * e.delta) / 0x800);
        nmk2 := W16(nmk + W16(delt * 655 / 0x40_0000));
      }
      nmk3 := W16(nmk2 + W16((ndelt * 154) / 512));
      var tmp := (k + 5) * 128;
      if nmk3 < tmp {
        nmk3 := tmp;
      }
      tmp := (72 + k - c) * 128;
      if nmk3 > tmp {
        nmk3 := tmp;
      }
    }

    /** The new mean of a speech Gaussian, clamped. */
    static method LearnSpeechMean(k: nat, smk: int, e: Evidence, maxspe: int) returns (smk2: int)
      requires k < 2
      ensures smk2 == SpeechMean(k, smk, e, maxspe)
    {
      hide W16;
      var delt := W16((e.share * e.delta) / 0x800);
      var tmp := W16(delt * 6554 / 0x20_0000);
      smk2 := W16(smk + (tmp + 1) / 2);
      var maxmu := maxspe + 640;
      if smk2 < MINIMUM_MEAN[k] {
        smk2 := MINIMUM_MEAN[k];
      }
      if smk2 > maxmu {
        smk2 := maxmu;
      }
    }

    /** The new deviation of a speech Gaussian, floored. */
    static method LearnSpeechStd(smk: int, ssk: int, feature: int, e: Evidence) returns (std: int)
      ensures std == SpeechStd(Gaussian(smk, ssk), feature, e)
    {
      hide W16, W32, DivW32W16;
      var tmp := W16((smk + 4) / 8);
      tmp := W16(feature - tmp);
      var tmp2 := (e.delta * tmp) / 8 - 4096;
      tmp := e.share / 4;
      tmp2 := W32(tmp * tmp2) / 16;
      if tmp2 > 0 {
        tmp := W16(DivW32W16(tmp2, W16(ssk * 10)));
      } else {
        tmp := W16(DivW32W16(-tmp2, W16(ssk * 10)));
        tmp := W16(-tmp);
      }
      tmp := W16(tmp + 128);
      std := W16(ssk + tmp / 256);
      if std < MIN_STD {
        std := MIN_STD;
      }
    }

    /** The new deviation of a noise Gaussian, floored. */
    static method LearnNoiseStd(nmk: int, nsk: int, feature: int, e: Evidence) returns (std: int)
      ensures std == NoiseStd(Gaussian(nmk, nsk), feature, e)
    {
      hide W16, W32, DivW32W16;
      var tmp := W16(feature - nmk / 8);
      var tmp1 := (e.delta * tmp) / 8;
      tmp1 := tmp1 - 4096;
      tmp := (e.share + 2) / 4;
      var tmp2 := W32(tmp * tmp1);
      tmp1 := tmp2 / 0x4000;
      if tmp1 > 0 {
        tmp := W16(DivW32W16(tmp1, nsk));
      } else {
        tmp := W16(DivW32W16(-tmp1, nsk));
        tmp := W16(-tmp);
      }
      tmp := W16(tmp + 32);
      std := W16(nsk + tmp / 64);
      if std < MIN_STD {
        std := MIN_STD;
      }
    }

    /** Update the means and the deviation of Gaussian k of a channel. */
    method LearnGaussian(c: ChannelIndex, k: nat, feature: int, vadflag: bool, ndelt: int, maxspe: int,
                         noise: Evidence, speech: Evidence)
      requires Shape() && k < 2 && IsInt16(noiseMeans[c + k * 6])
      modifies noiseMeans, speechMeans, noiseStds, speechStds
      ensures NoiseAt(c + k * 6) == UpdateNoise(c, k, old(NoiseAt(c + k * 6)), noise, feature, vadflag, ndelt)
      ensures SpeechAt(c + k * 6) == UpdateSpeech(k, old(SpeechAt(c + k * 6)), speech, feature, vadflag, maxspe)
      ensures OnlyGaussians(c + k * 6, c + k * 6)
    {
      hide NoiseMean, SpeechMean, SpeechStd, NoiseStd;
      var gaussian := c + k * 6;
      var nmk, smk := noiseMeans[gaussian], speechMeans[gaussian];
      var nsk, ssk := noiseStds[gaussian], speechStds[gaussian];
      noiseMeans[gaussian] := LearnNoiseMean(c, k, nmk, noise, vadflag, ndelt);
      if vadflag {
        speechMeans[gaussian] := LearnSpeechMean(k, smk, speech, maxspe);
        speechStds[gaussian] := LearnSpeechStd(smk, ssk, feature, speech);
      } else {
        noiseStds[gaussian] := LearnNoiseStd(nmk, nsk, feature, noise);
      }
    }

    /** The weighted mean of a mixture, after adding an offset to both components. */
    static method WeightedAverage(data: array<int>, c: ChannelIndex, offset: int, weights: seq<int>)
      returns (average: int)
      requires data.Length == 12 && |weights| == 12
      modifies data
      ensures data[c] == W16(old(data[c]) + offset) && data[c + 6] == W16(old(data[c + 6]) + offset)
      ensures forall i | 0 <= i < 12 && i != c && i != c + 6 :: data[i] == old(data[i])
      ensures average == WeightedSum(data[c], data[c + 6], weights[c], weights[c + 6])
    {
      hide W16;
      average := 0;
      var k := 0;
      while k < 2
        invariant 0 <= k <= 2
        invariant data[c] == if k > 0 then W16(old(data[c]) + offset) else old(data[c])
        invariant data[c + 6] == if k > 1 then W16(old(data[c + 6]) + offset) else old(data[c + 6])
        invariant forall i | 0 <= i < 12 && i != c && i != c + 6 :: data[i] == old(data[i])
        invariant average == if k == 0 then 0 else if k == 1 then data[c] * weights[c]
                             else data[c] * weights[c] + data[c + 6] * weights[c + 6]
      {
        data[c + k * 6] := W16(data[c + k * 6] + offset);
        average := average + data[c + k * 6] * weights[c + k * 6];
        k := k + 1;
      }
    }

    /** Shift both components of a mixture down, as the caps do. */
    static method ShiftDown(data: array<int>, c: ChannelIndex, excess: int)
      requires data.Length == 12
      modifies data
      ensures data[c] == W16(old(data[c]) - excess) && data[c + 6] == W16(old(data[c + 6]) - excess)
      ensures forall i | 0 <= i < 12 && i != c && i != c + 6 :: data[i] == old(data[i])
    {
      hide W16;
      var k := 0;
      while k < 2
        invariant 0 <= k <= 2
        invariant data[c] == if k > 0 then W16(old(data[c]) - excess) else old(data[c])
        invariant data[c + 6] == if k > 1 then W16(old(data[c + 6]) - excess) else old(data[c + 6])
        invariant forall i | 0 <= i < 12 && i != c && i != c + 6 :: data[i] == old(data[i])
      {
        data[c + k * 6] := W16(data[c + k * 6] - excess);
        k := k + 1;
      }
    }

    /** All four means of a channel are words. */
    predicate MeansAreWords(m: Channel) {
      && IsInt16(m.noise0.mean) && IsInt16(m.noise1.mean)
      && IsInt16(m.speech0.mean) && IsInt16(m.speech1.mean)
    }

    /** Separate the models of a channel when they are too close; report both weighted means. */
    method SeparateModels(c: ChannelIndex) returns (noiseGlobalMean: int, speechGlobalMean: int)
      requires Shape() && MeansAreWords(ChannelAt(c))
      modifies noiseMeans, speechMeans
      ensures ChannelAt(c) == Separate(c, old(ChannelAt(c)))
      ensures noiseGlobalMean == NoiseGlobal(c, ChannelAt(c)) && speechGlobalMean == SpeechGlobal(c, ChannelAt(c))
      ensures OnlyGaussians(c, c + 6)
    {
      hide W16, WeightedSum;
      ghost var m := ChannelAt(c);
      noiseGlobalMean := WeightedAverage(noiseMeans, c, 0, NOISE_WEIGHTS);
      speechGlobalMean := WeightedAverage(speechMeans, c, 0, SPEECH_WEIGHTS);
      assert ChannelAt(c) == m;
      var diff := W16(W16(speechGlobalMean / 512) - W16(noiseGlobalMean / 512));
      if diff < MINIMUM_DIFFERENCE[c] {
        var gap := W16(MINIMUM_DIFFERENCE[c] - diff);
        var tmp1 := W16(13 * gap / 4);
        var tmp2 := W16(3 * gap / 4);
        speechGlobalMean := WeightedAverage(speechMeans, c, tmp1, SPEECH_WEIGHTS);
        noiseGlobalMean := WeightedAverage(noiseMeans, c, W16(-tmp2), NOISE_WEIGHTS);
      }
    }

    /** Cap both mixtures of a channel, the weighted means being as given. */
    method CapModels(c: ChannelIndex, noiseGlobalMean: int, speechGlobalMean: int)
      requires Shape()
      requires noiseGlobalMean == NoiseGlobal(c, ChannelAt(c)) && speechGlobalMean == SpeechGlobal(c, ChannelAt(c))
      modifies noiseMeans, speechMeans
      ensures ChannelAt(c) == CapNoise(c, CapSpeech(c, old(ChannelAt(c))))
      ensures OnlyGaussians(c, c + 6)
    {
      hide W16, WeightedSum;
      var maxspe := MAXIMUM_SPEECH[c];
      var tmp2 := W16(speechGlobalMean / 128);
      if tmp2 > maxspe {
        tmp2 := W16(tmp2 - maxspe);
        ShiftDown(speechMeans, c, tmp2);
      }
      assert ChannelAt(c) == CapSpeech(c, old(ChannelAt(c)));
      assert NoiseGlobal(c, ChannelAt(c)) == noiseGlobalMean;
      hide NoiseGlobal, SpeechGlobal;
      tmp2 := W16(noiseGlobalMean / 128);
      if tmp2 > MAXIMUM_NOISE[c] {
        tmp2 := W16(tmp2 - MAXIMUM_NOISE[c]);
        ShiftDown(noiseMeans, c, tmp2);
      }
    }

    /** The learning step of a channel, without the evidence gathering. */
    method LearnChannel(c: ChannelIndex, feature: int, vadflag: bool, featureMinimum: int, maxspe: int,
                        ghost e: ChannelEvidence,
                        deltaN: array<int>, deltaS: array<int>, ngprvec: array<int>, sgprvec: array<int>)
      requires Shape() && MeansAreWords(ChannelAt(c))
      requires Scratch(deltaN, deltaS, ngprvec, sgprvec) && e == EvidenceAt(c, deltaN, deltaS, ngprvec, sgprvec)
      modifies noiseMeans, speechMeans, noiseStds, speechStds
      ensures ChannelAt(c) == Learn(c, old(ChannelAt(c)), e, feature, vadflag, featureMinimum, maxspe)
      ensures OnlyGaussians(c, c + 6)
    {
      hide W16, WeightedSum, UpdateNoise, UpdateSpeech;
      ghost var m := ChannelAt(c);
      var noiseGlobalMean := WeightedAverage(noiseMeans, c, 0, NOISE_WEIGHTS);
      assert ChannelAt(c) == m && noiseGlobalMean == NoiseGlobal(c, m);
      var tmp1 := W16(noiseGlobalMean / 64);
      var ndelt := W16(featureMinimum * 16 - tmp1);
      var k := 0;
      while k < 2
        invariant 0 <= k <= 2
        invariant NoiseAt(c)
                  == if k > 0 then UpdateNoise(c, 0, m.noise0, e.noise0, feature, vadflag, ndelt) else m.noise0
        invariant NoiseAt(c + 6)
                  == if k > 1 then UpdateNoise(c, 1, m.noise1, e.noise1, feature, vadflag, ndelt) else m.noise1
        invariant SpeechAt(c)
                  == if k > 0 then UpdateSpeech(0, m.speech0, e.speech0, feature, vadflag, maxspe) else m.speech0
        invariant SpeechAt(c + 6)
                  == if k > 1 then UpdateSpeech(1, m.speech1, e.speech1, feature, vadflag, maxspe) else m.speech1
        invariant OnlyGaussians(c, c + 6)
      {
        var g := c + k * 6;
        LearnGaussian(c, k, feature, vadflag, ndelt, maxspe,
                      Evidence(ngprvec[g], deltaN[g]), Evidence(sgprvec[g], deltaS[g]));
        k := k + 1;
      }
    }

    /** One round of the update loop: the channel's memory and models take their step, the other
        channels keep theirs. */
    method UpdateOne(c: ChannelIndex, feature: int, vadflag: bool, maxspe: int,
                     deltaN: array<int>, deltaS: array<int>, ngprvec: array<int>, sgprvec: array<int>)
      requires Shape() && Scratch(deltaN, deltaS, ngprvec, sgprvec)
      requires ChannelOk(c, ChannelAt(c)) && TrackerOk(TrackerAt(c)) && maxspe == MaxSpe(c)
      requires EvidenceAt(c, deltaN, deltaS, ngprvec, sgprvec) == Detect(c, ChannelAt(c), feature)
      modifies noiseMeans, speechMeans, noiseStds, speechStds, indexVector, lowValueVector, meanValue
      ensures TrackerAt(c) == NextTracker(old(TrackerAt(c)), feature, frameCounter)
      ensures ChannelAt(c) == NextChannel(c, old(ChannelAt(c)), feature, vadflag, TrackerAt(c).mean)
      ensures forall d: ChannelIndex | d != c :: ChannelAt(d) == old(ChannelAt(d)) && TrackerAt(d) == old(TrackerAt(d))
    {
      hide Detect, Learn, Separate, CapSpeech, CapNoise, ChannelOk, NoiseGlobal, SpeechGlobal, T.Step, T.NextMean;
      ghost var m, e := ChannelAt(c), EvidenceAt(c, deltaN, deltaS, ngprvec, sgprvec);
      var featureMinimum := M.FindMinimum(lowValueVector, indexVector, meanValue, frameCounter, feature, c);
      ghost var t := TrackerAt(c);
      WindowsApart(c);
      MeansFit(c, m);
      LearnChannel(c, feature, vadflag, featureMinimum, maxspe, e, deltaN, deltaS, ngprvec, sgprvec);
      ghost var l := ChannelAt(c);
      LearnedFits(c, m, e, feature, vadflag, featureMinimum);
      var noiseGlobalMean, speechGlobalMean := SeparateModels(c);
      CapModels(c, noiseGlobalMean, speechGlobalMean);
      assert TrackerAt(c) == t;
    }

    lemma MeansFit(c: ChannelIndex, m: Channel)
      requires ChannelOk(c, m)
      ensures MeansAreWords(m)
    {
    }

    lemma LearnedFits(c: ChannelIndex, m: Channel, e: ChannelEvidence, feature: int, speech: bool, featureMinimum: int)
      requires ChannelOk(c, m)
      ensures MeansAreWords(Learn(c, m, e, feature, speech, featureMinimum, MaxSpe(c)))
    {
      hide Learn;
      LearnKeeps(c, m, e, feature, speech, featureMinimum);
      LearnedBounds(c, Learn(c, m, e, feature, speech, featureMinimum, MaxSpe(c)));
    }

    /** A change inside one channel's window leaves the other channels' windows alone. */
    twostate lemma WindowsApart(c: ChannelIndex)
      requires Shape() && M.OnlyWindow(lowValueVector, indexVector, 16 * c)
      requires forall d | 0 <= d < 6 && d != c :: meanValue[d] == old(meanValue[d])
      ensures forall d: ChannelIndex | d != c :: TrackerAt(d) == old(TrackerAt(d))
    {
      forall d: ChannelIndex | d != c
        ensures TrackerAt(d) == old(TrackerAt(d))
      {
        var low, low' := old(lowValueVector[16 * d..16 * d + 16]), lowValueVector[16 * d..16 * d + 16];
        var age, age' := old(indexVector[16 * d..16 * d + 16]), indexVector[16 * d..16 * d + 16];
        assert low == low' && age == age';
      }
    }

    // -------------------------------------------------------------- the whole frame

    /** The likelihood test over the channels: the decision, with the evidence filled in. */
    method DetectAll(features: seq<int>, individualTest: int, totalTest: int,
                     deltaN: array<int>, deltaS: array<int>, ngprvec: array<int>, sgprvec: array<int>)
      returns (vadflag: bool)
      requires Shape() && Scratch(deltaN, deltaS, ngprvec, sgprvec) && |features| == 6
      requires forall i | 0 <= i < 12 :: ngprvec[i] == 0 && sgprvec[i] == 0
      modifies deltaN, deltaS, ngprvec, sgprvec
      ensures vadflag == IsSpeech(Channels(), features, individualTest, totalTest)
      ensures forall c: ChannelIndex ::
                EvidenceAt(c, deltaN, deltaS, ngprvec, sgprvec) == Detect(c, ChannelAt(c), features[c])
    {
      hide Detect, Ratio, ChannelAt, Channels, W32;
      vadflag := false;
      var sumLogLikelihoodRatios := 0;
      var channel := 0;
      ghost var channels := Channels();
      while channel < 6
        invariant 0 <= channel <= 6 && Channels() == channels
        invariant sumLogLikelihoodRatios == RatioSum(channels, features, channel)
        invariant vadflag <==> exists c: ChannelIndex ::
                    c < channel && Ratio(c, channels[c], features[c]) * 4 > individualTest
        invariant forall i | channel <= i < 6 || channel + 6 <= i < 12 :: ngprvec[i] == 0 && sgprvec[i] == 0
        invariant forall c: ChannelIndex | c < channel ::
                    EvidenceAt(c, deltaN, deltaS, ngprvec, sgprvec) == Detect(c, channels[c], features[c])
      {
        var c: ChannelIndex := channel;
        var logLikelihoodRatio := DetectChannel(c, features[c], deltaN, deltaS, ngprvec, sgprvec);
        sumLogLikelihoodRatios := sumLogLikelihoodRatios + logLikelihoodRatio * SPECTRUM_WEIGHT[channel];
        if logLikelihoodRatio * 4 > individualTest {
          vadflag := true;
        }
        channel := channel + 1;
      }
      vadflag := vadflag || sumLogLikelihoodRatios >= totalTest;
    }

    /** The update loop over the channels. */
    method UpdateAll(f: Frame, vadflag: bool,
                     deltaN: array<int>, deltaS: array<int>, ngprvec: array<int>, sgprvec: array<int>)
      requires Valid() && Scratch(deltaN, deltaS, ngprvec, sgprvec) && f.Ok()
      requires forall c: ChannelIndex ::
                 EvidenceAt(c, deltaN, deltaS, ngprvec, sgprvec) == Detect(c, ChannelAt(c), f.features[c])
      modifies noiseMeans, speechMeans, noiseStds, speechStds, indexVector, lowValueVector, meanValue
      ensures AfterLearning(old(State()), f, vadflag)
              == Core(Channels(), Trackers(), W32(frameCounter + 1), H.Hangover(overHang, numOfSpeech))
    {
      hide Detect, UpdateChannel, ChannelOk, TrackerOk, NextTracker, NextChannel,
        ChannelAt, TrackerAt, Channels, Trackers, W32, AfterLearning;
      ghost var s, channels, trackers := State(), Channels(), Trackers();
      assert forall c: ChannelIndex :: ChannelOk(c, channels[c]) && TrackerOk(trackers[c]);
      var maxspe := 12800;
      var channel := 0;
      while channel < 6
        invariant 0 <= channel <= 6
        invariant channel < 6 ==> maxspe == MaxSpe(channel)
        invariant forall c: ChannelIndex :: c < channel ==>
                    && TrackerAt(c) == NextTracker(trackers[c], f.features[c], frameCounter)
                    && ChannelAt(c) == NextChannel(c, channels[c], f.features[c], vadflag, TrackerAt(c).mean)
        invariant forall c: ChannelIndex :: c >= channel ==> ChannelAt(c) == channels[c] && TrackerAt(c) == trackers[c]
      {
        var c: ChannelIndex := channel;
        UpdateOne(c, f.features[c], vadflag, maxspe, deltaN, deltaS, ngprvec, sgprvec);
        maxspe := MAXIMUM_SPEECH[channel];
        channel := channel + 1;
      }
      AfterLearningIs(s, f, vadflag, Channels(), Trackers());
    }

    /** The part of GmmProbability for a frame with enough power: decide, then learn. */
    method ProcessFrame(f: Frame, individualTest: int, totalTest: int) returns (speech: bool)
      requires Valid() && f.Ok()
      modifies `frameCounter, noiseMeans, speechMeans, noiseStds, speechStds, indexVector, lowValueVector, meanValue
      ensures speech == IsSpeech(old(State()).channels, f.features, individualTest, totalTest)
      ensures State() == AfterLearning(old(State()), f, speech)
    {
      hide Detect, IsSpeech, CoreOk, NextTracker, NextChannel, ChannelAt, TrackerAt, Channels, Trackers,
        W32, ChannelOk, TrackerOk, AfterLearning;
      var deltaN, deltaS := new int[12], new int[12];
      var ngprvec, sgprvec := new int[12](_ => 0), new int[12](_ => 0);
      speech := DetectAll(f.features, individualTest, totalTest, deltaN, deltaS, ngprvec, sgprvec);
      assert Channels() == old(Channels()) && Trackers() == old(Trackers());
      UpdateAll(f, speech, deltaN, deltaS, ngprvec, sgprvec);
      frameCounter := W32(frameCounter + 1);
    }

    /** The hysteresis: hand out the smoothed decision. */
    method Hysteresis(speech: bool, overhead1: int, overhead2: int) returns (vadflag: int)
      modifies `overHang, `numOfSpeech
      ensures (vadflag, H.Hangover(overHang, numOfSpeech))
              == H.Smooth(old(H.Hangover(overHang, numOfSpeech)), speech, overhead1, overhead2)
    {
      if !speech {
        vadflag := 0;
        if overHang > 0 {
          vadflag := 2 + overHang;
          overHang := overHang - 1;
        }
        numOfSpeech := 0;
      } else {
        vadflag := 1;
        numOfSpeech := numOfSpeech + 1;
        if numOfSpeech > H.MAX_SPEECH_FRAMES {
          numOfSpeech := H.MAX_SPEECH_FRAMES;
          overHang := overhead2;
        } else {
          overHang := overhead1;
        }
      }
    }

    /** GmmProbability: the decision and the new state are those of `Next`. */
    method GmmProbability(f: Frame) returns (vadflag: int)
      requires Valid() && f.Ok()
      modifies this, noiseMeans, speechMeans, noiseStds, speechStds, indexVector, lowValueVector, meanValue
      ensures Valid() && CurrentMode() == old(CurrentMode())
      ensures vadflag == Next(old(State()), old(CurrentMode()), f).0
      ensures State() == Next(old(State()), old(CurrentMode()), f).1
    {
      hide IsSpeech, AfterLearning, CoreOk, ChannelAt, TrackerAt, Channels, Trackers, H.Smooth;
      NextKeeps(State(), CurrentMode(), f);
      var i := 2;
      if f.frameLength == 80 {
        i := 0;
      } else if f.frameLength == 160 {
        i := 1;
      }
      var overhead1, overhead2 := overHangMax1[i], overHangMax2[i];
      var individualTest, totalTest := individual[i], total[i];
      var speech := false;
      if f.totalPower > MIN_ENERGY {
        speech := ProcessFrame(f, individualTest, totalTest);
      }
      vadflag := Hysteresis(speech, overhead1, overhead2);
    }

    /** The four local vectors: of the right size, not aliased, not part of the instance. */
    ghost predicate Scratch(deltaN: array<int>, deltaS: array<int>, ngprvec: array<int>, sgprvec: array<int>) {
      && deltaN.Length == 12 && deltaS.Length == 12 && ngprvec.Length == 12 && sgprvec.Length == 12
      && deltaN != deltaS && deltaN != ngprvec && deltaN != sgprvec
      && deltaS != ngprvec && deltaS != sgprvec && ngprvec != sgprvec
      && {deltaN, deltaS, ngprvec, sgprvec} !! {noiseMeans, speechMeans, noiseStds, speechStds}
    }

    ghost function EvidenceAt(c: ChannelIndex, deltaN: array<int>, deltaS: array<int>,
                              ngprvec: array<int>, sgprvec: array<int>): ChannelEvidence
      requires Scratch(deltaN, deltaS, ngprvec, sgprvec)
      reads deltaN, deltaS, ngprvec, sgprvec
    {
      ChannelEvidence(Evidence(ngprvec[c], deltaN[c]), Evidence(ngprvec[c + 6], deltaN[c + 6]),
                      Evidence(sgprvec[c], deltaS[c]), Evidence(sgprvec[c + 6], deltaS[c + 6]))
    }
  }
}
