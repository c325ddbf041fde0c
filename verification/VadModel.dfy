/** The Gaussian mixture of vad_core.c, one channel at a time: how a frame moves the two
    noise and the two speech Gaussians, and what keeps the two models apart. */
module VadModel {
  import opened FixedPoint

  const MIN_STD := 384
  const NOISE_UPDATE := 655
  const SPEECH_UPDATE := 6554
  const BACK_ETA := 154

  const SPECTRUM_WEIGHT: seq<int> := [6, 8, 10, 12, 14, 16]
  const MINIMUM_DIFFERENCE: seq<int> := [544, 544, 576, 576, 576, 576]
  const MAXIMUM_SPEECH: seq<int> := [11392, 11392, 11520, 11520, 11520, 11520]
  const MAXIMUM_NOISE: seq<int> := [9216, 9088, 8960, 8832, 8704, 8576]
  const MINIMUM_MEAN: seq<int> := [640, 768]
  const NOISE_WEIGHTS: seq<int> := [34, 62, 72, 66, 53, 25, 94, 66, 56, 62, 75, 103]
  const SPEECH_WEIGHTS: seq<int> := [48, 82, 45, 87, 50, 47, 80, 46, 83, 41, 78, 81]
  const NOISE_MEANS: seq<int> := [6738, 4892, 7065, 6715, 6771, 3369, 7646, 3863, 7820, 7266, 5020, 4362]
  const SPEECH_MEANS: seq<int> := [8306, 10085, 10078, 11823, 11843, 6309, 9473, 9571, 10879, 7581, 8180, 7483]
  const NOISE_STDS: seq<int> := [378, 1064, 493, 582, 688, 593, 474, 697, 475, 688, 421, 455]
  const SPEECH_STDS: seq<int> := [555, 505, 567, 524, 585, 1231, 509, 828, 492, 1540, 1079, 850]

  type ChannelIndex = c: int | 0 <= c < 6

  /** One Gaussian: mean and standard deviation, both in Q7. */
  datatype Gaussian = Gaussian(mean: int, std: int)

  /** The four Gaussians of a frequency band. */
  datatype Channel = Channel(noise0: Gaussian, noise1: Gaussian, speech0: Gaussian, speech1: Gaussian)

  /** What the detection half of a frame found for one Gaussian: its share of the
      probability (Q14) and (x - mean) / std^2 (Q11). */
  datatype Evidence = Evidence(share: int, delta: int)

  datatype ChannelEvidence =
    ChannelEvidence(noise0: Evidence, noise1: Evidence, speech0: Evidence, speech1: Evidence)

  // ---------------------------------------------------------------- updating one Gaussian

  function NoiseMeanStep(share: int, delta: int, speech: bool): int {
    if speech then 0 else W16(W16((share * delta) / 0x800) * NOISE_UPDATE / 0x40_0000)
  }

  function BackStep(ndelt: int): int { W16((ndelt * BACK_ETA) / 512) }

  function Clamp(x: int, lo: int, hi: int): int {
    if x < lo then (if lo > hi then hi else lo) else if x > hi then hi else x
  }

  /** The new mean of noise Gaussian k of channel c. */
  function NoiseMean(c: ChannelIndex, k: int, mean: int, e: Evidence, speech: bool, ndelt: int): int {
    Clamp(W16(W16(mean + NoiseMeanStep(e.share, e.delta, speech)) + BackStep(ndelt)),
          (k + 5) * 128, (72 + k - c) * 128)
  }

  function SpeechMeanStep(e: Evidence): int {
    (W16(W16((e.share * e.delta) / 0x800) * SPEECH_UPDATE / 0x20_0000) + 1) / 2
  }

  /** The new mean of speech Gaussian k in a frame taken for speech. */
  function SpeechMean(k: int, mean: int, e: Evidence, maxspe: int): int
    requires 0 <= k < 2
  {
    Clamp(W16(mean + SpeechMeanStep(e)), MINIMUM_MEAN[k], maxspe + 640)
  }

  /** Division that rounds the magnitude down and keeps the sign, as the update steps do. */
  function SignedStep(num: int, den: int): int {
    if num > 0 then W16(DivW32W16(num, den)) else W16(-W16(DivW32W16(-num, den)))
  }

  function SpeechStd(g: Gaussian, feature: int, e: Evidence): int {
    var dist := W16(feature - W16((g.mean + 4) / 8));
    var excess := (e.delta * dist) / 8 - 4096;
    var num := W32((e.share / 4) * excess) / 16;
    var std := W16(g.std + W16(SignedStep(num, W16(g.std * 10)) + 128) / 256);
    if std < MIN_STD then MIN_STD else std
  }

  function NoiseStd(g: Gaussian, feature: int, e: Evidence): int {
    var dist := W16(feature - g.mean / 8);
    var excess := (e.delta * dist) / 8 - 4096;
    var num := W32(((e.share + 2) / 4) * excess) / 0x4000;
    var std := W16(g.std + W16(SignedStep(num, g.std) + 32) / 64);
    if std < MIN_STD then MIN_STD else std
  }

  function UpdateNoise(c: ChannelIndex, k: int, g: Gaussian, e: Evidence, feature: int, speech: bool, ndelt: int)
    : Gaussian
  {
    Gaussian(NoiseMean(c, k, g.mean, e, speech, ndelt), if speech then g.std else NoiseStd(g, feature, e))
  }

  function UpdateSpeech(k: int, g: Gaussian, e: Evidence, feature: int, speech: bool, maxspe: int): Gaussian
    requires 0 <= k < 2
  {
    if speech then Gaussian(SpeechMean(k, g.mean, e, maxspe), SpeechStd(g, feature, e)) else g
  }

  // ---------------------------------------------------------------- the whole channel

  function WeightedSum(a: int, b: int, w0: int, w1: int): int { a * w0 + b * w1 }

  /** The weighted means of the two mixtures, in Q14. */
  function NoiseGlobal(c: ChannelIndex, m: Channel): int {
    WeightedSum(m.noise0.mean, m.noise1.mean, NOISE_WEIGHTS[c], NOISE_WEIGHTS[c + 6])
  }

  function SpeechGlobal(c: ChannelIndex, m: Channel): int {
    WeightedSum(m.speech0.mean, m.speech1.mean, SPEECH_WEIGHTS[c], SPEECH_WEIGHTS[c + 6])
  }

  function ShiftNoise(m: Channel, shift: int): Channel {
    m.(noise0 := m.noise0.(mean := W16(m.noise0.mean + shift)),
       noise1 := m.noise1.(mean := W16(m.noise1.mean + shift)))
  }

  function ShiftSpeech(m: Channel, shift: int): Channel {
    m.(speech0 := m.speech0.(mean := W16(m.speech0.mean + shift)),
       speech1 := m.speech1.(mean := W16(m.speech1.mean + shift)))
  }

  /** The learning step proper: each Gaussian on its own. */
  function Learn(c: ChannelIndex, m: Channel, e: ChannelEvidence, feature: int, speech: bool,
                 featureMinimum: int, maxspe: int): Channel
  {
    var ndelt := W16(featureMinimum * 16 - W16(NoiseGlobal(c, m) / 64));
    Channel(UpdateNoise(c, 0, m.noise0, e.noise0, feature, speech, ndelt),
            UpdateNoise(c, 1, m.noise1, e.noise1, feature, speech, ndelt),
            UpdateSpeech(0, m.speech0, e.speech0, feature, speech, maxspe),
            UpdateSpeech(1, m.speech1, e.speech1, feature, speech, maxspe))
  }

  /** How far, in Q5, the two models are from each other. */
  function Distance(c: ChannelIndex, m: Channel): int {
    W16(W16(SpeechGlobal(c, m) / 512) - W16(NoiseGlobal(c, m) / 512))
  }

  /** Push the models apart when they are closer than the minimum difference. */
  function Separate(c: ChannelIndex, m: Channel): Channel {
    var diff := Distance(c, m);
    if diff < MINIMUM_DIFFERENCE[c] then
      var gap := W16(MINIMUM_DIFFERENCE[c] - diff);
      ShiftNoise(ShiftSpeech(m, W16(13 * gap / 4)), W16(-W16(3 * gap / 4)))
    else m
  }

  function CapSpeech(c: ChannelIndex, m: Channel): Channel {
    var level := W16(SpeechGlobal(c, m) / 128);
    if level > MAXIMUM_SPEECH[c] then ShiftSpeech(m, -W16(level - MAXIMUM_SPEECH[c])) else m
  }

  function CapNoise(c: ChannelIndex, m: Channel): Channel {
    var level := W16(NoiseGlobal(c, m) / 128);
    if level > MAXIMUM_NOISE[c] then ShiftNoise(m, -W16(level - MAXIMUM_NOISE[c])) else m
  }

  function UpdateChannel(c: ChannelIndex, m: Channel, e: ChannelEvidence, feature: int, speech: bool,
                         featureMinimum: int, maxspe: int): Channel
  {
    CapNoise(c, CapSpeech(c, Separate(c, Learn(c, m, e, feature, speech, featureMinimum, maxspe))))
  }

  /** `maxspe` as channel c sees it: the cap of the channel before, 12800 for the first. */
  function MaxSpe(c: ChannelIndex): int { if c == 0 then 12800 else MAXIMUM_SPEECH[c - 1] }

  // ---------------------------------------------------------------- the invariants

  predicate StdsOk(m: Channel) {
    && 378 <= m.noise0.std <= 32767 && 378 <= m.noise1.std <= 32767
    && 378 <= m.speech0.std <= 32767 && 378 <= m.speech1.std <= 32767
  }

  predicate NoiseOk(c: ChannelIndex, m: Channel) {
    && -1552 <= m.noise0.mean <= (72 - c) * 128
    && -1552 <= m.noise1.mean <= (73 - c) * 128
    && NoiseGlobal(c, m) / 128 <= MAXIMUM_NOISE[c]
  }

  /** Noise frames move the speech means without clamping either, so the bound on each is the
      bound on their weighted mean together with the bound on how far apart they are. */
  predicate SpeechOk(c: ChannelIndex, m: Channel) {
    && 640 <= SpeechGlobal(c, m) / 128 <= MAXIMUM_SPEECH[c]
    && -12800 <= m.speech0.mean - m.speech1.mean <= 12800
  }

  predicate ChannelOk(c: ChannelIndex, m: Channel) {
    NoiseOk(c, m) && SpeechOk(c, m) && StdsOk(m)
  }

  /** The models are separated: the Q7 gap is at least four times the Q5 minimum, up to rounding. */
  predicate Separated(c: ChannelIndex, m: Channel) {
    SpeechGlobal(c, m) / 128 - NoiseGlobal(c, m) / 128 >= 4 * MINIMUM_DIFFERENCE[c] - 4
  }

  lemma WeightsSum(c: ChannelIndex)
    ensures NOISE_WEIGHTS[c] >= 25 && NOISE_WEIGHTS[c + 6] >= 25
    ensures SPEECH_WEIGHTS[c] >= 41 && SPEECH_WEIGHTS[c + 6] >= 41
    ensures NOISE_WEIGHTS[c] + NOISE_WEIGHTS[c + 6] == 128
    ensures SPEECH_WEIGHTS[c] + SPEECH_WEIGHTS[c + 6] == 128
    ensures MAXIMUM_SPEECH[c] - MAXIMUM_NOISE[c] >= 4 * MINIMUM_DIFFERENCE[c]
    ensures MAXIMUM_NOISE[c] == (72 - c) * 128
    ensures 544 <= MINIMUM_DIFFERENCE[c] <= 576 && 11392 <= MAXIMUM_SPEECH[c] <= 11520
  {
  }

  // ---------------------------------------------------------------- arithmetic of weighted means

  /** A component lies no further from the weighted mean than the components from each other. */
  lemma SpreadBound(w0: int, w1: int, a: int, b: int, spread: int)
    requires w0 + w1 == 128 && w0 >= 0 && w1 >= 0
    requires -spread <= a - b <= spread
    ensures -spread <= a - (a * w0 + b * w1) / 128 <= spread + 1
    ensures -spread <= b - (a * w0 + b * w1) / 128 <= spread + 1
  {
    var d := a - b;
    assert a * w0 + b * w1 == 128 * a - w1 * d by { assert w0 == 128 - w1; }
    assert a * w0 + b * w1 == 128 * b + w0 * d by { assert w1 == 128 - w0; }
    ScaleBound(w1, d, spread);
    ScaleBound(w0, d, spread);
  }

  lemma ScaleBound(w: int, d: int, spread: int)
    requires 0 <= w <= 128 && -spread <= d <= spread
    ensures -128 * spread <= w * d <= 128 * spread
  {
  }

  /** A weighted mean lies between the bounds of its components. */
  lemma MeanBound(w0: int, w1: int, a: int, b: int, lo: int, hi: int)
    requires w0 + w1 == 128 && w0 >= 0 && w1 >= 0
    requires lo <= a <= hi && lo <= b <= hi
    ensures 128 * lo <= a * w0 + b * w1 <= 128 * hi
  {
    ScaleOrder(lo, a, w0);
    ScaleOrder(a, hi, w0);
    ScaleOrder(lo, b, w1);
    ScaleOrder(b, hi, w1);
    ScaleSum(lo, w0, w1);
    ScaleSum(hi, w0, w1);
  }

  lemma ScaleSum(x: int, v: int, w: int)
    ensures x * v + x * w == x * (v + w)
  {
  }
}
