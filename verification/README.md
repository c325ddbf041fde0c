# Verification of the voice and transfer core

This project models the parts of the voice agent whose correctness rests on invariants over whole runs, and proves
them with Dafny.

* **Voice activity detection** (WebRTC's fixed-point core). Six channels with two noise and two speech Gaussians
  each are re-estimated on every frame in 16 and 32-bit arithmetic. `FixedPoint` holds the word arithmetic,
  `VadModel` the learning step on one channel, `VadInvariants` what it keeps, `VadGaussian` the probability step,
  `VadTracker` and `VadMinimum` the ageing memory of the smallest features, `VadHangover` the hysteresis, `VadCore`
  a whole call and whole runs, `VadReach` how far the models of a reachable state can be from the features,
  `VadDecision` when a frame is speech, in terms of the likelihoods, `VadLearning` and `VadDeviations` which way a frame
  moves the means and the deviations, and `VadInstance` the instance with its arrays, updated in place as the C code
  does, every method proved against those functions.
* **The numeric kernels around it.** `EnergyScaling`, `LogEnergy` and `LogLaw` (the log energy of a band), `Division`
  (restoring division), `BitReverse` and `BitReverseTables` (the in-place permutation), `Allpass`, `ResampleBy2` and
  `Resample48To8` (the 48 to 8 kHz resampler in one overlapping scratch buffer), `ResampleResponse` and `HalfBandRamp`
  (what its filters make of a constant, the highest frequency and a ramp).
* **The streaming codecs of the HTTP library.** `UrlCoding` and `Query` (query strings), `LineReader`, `ChunkSize`,
  `ChunkedReader`, `ChunkedWriter` and `ChunkedCoding` (the chunked transfer coding of section 7.1 of RFC 9112),
  `HeaderFields`, `FormHeaders`, `ExtendedName`, `MultipartModel`, `MultipartParser`, `MultipartBody`, `Multipart`,
  `MultipartRoundTrip`, `HeaderLimit`, `MultipartSplit`, `MultipartLost` and `MultipartUpload` (multipart/form-data as
  in RFC 7578 and section 5.1.1 of RFC 2046).
* **The application's own state machines.** `Segmenter` and `SegmenterTiming` (the padded trigger and release of speech
  segments), `Playback` (the queue that feeds 160-sample frames) and `TaskQueue` (one worker, many callers, one
  shutdown).

`dafny verify dfyconfig.toml` checks everything.

## How the code is read

* A word is an `int`; `W16` and `W32` write out the conversions to `int16_t` and `int32_t` and the wrap-around of a
  signed 32-bit overflow. A right shift is floor division. Where C leaves a shift count undefined, it is read modulo
  32. For these computations lemmas show that nothing overflows: the sums stored into the means (`NoMeanWraps`), every
  step of the four probabilities of a channel in every reachable state and for every feature the filter bank yields
  (`RunStepsAreExact`), the weighted probabilities (`TestsAreExact`), the product that updates a speech deviation
  (`RunSpeechProductFits`), the energy (`EnergyFits`) and every round of the division (`EveryRoundFits`). The taps of
  the fractional resampler are exact for samples of up to 48204 (`TapBoundIsExact`) and read as wrapping beyond; the
  other filter stages and the update of a noise deviation are read as wrapping throughout.
* A byte is a `char` below 256 and a byte string a `string`. `std::string` members that the code overwrites in place
  are `seq<char>` fields. A pointer into a scratch buffer is the buffer and a position, so aliasing between the input
  and the output of a resampler stage is part of the model.
* Streams, callbacks and schedulers are nondeterministic: a stream returns or takes as few bytes as it likes, it may
  end in a failure, a callback may refuse. The contracts say what holds in every case and what holds if nobody refuses.
* A loop or a class of the code is a loop or a class here, and its contract equates the result with a function whose
  properties are proved as lemmas. The tables for bit reversal are cut into rows by their lower index.
* `VAD_RATIO` is single precision in the code. The comparison is stated as `20 * n > 17 * size`; `RatioIsExact` shows
  that for a ring of at most forty frames it agrees with the comparison against any rounding of the product that is no
  further from it than an integer is.

## Where a promise is narrower than its wording

* `GetScalingSquare` is meant to keep the sum in `Energy` within 32 bits. That fails for two samples -32768
  (`MinimumOverflows`). It holds for all vectors over a set of samples if and only if -32768 is not in the set
  (`GuardIsExact`), and for vectors of equal samples exactly when the sample is not -32768 or stands alone
  (`ConstantVector`).
* The gate of the detector compares the sum of the squares of a frame with a threshold. It is right for all frames over
  a set of samples if and only if -32768 is not in the set (`GateGuardIsExact`): four such samples are silence to it
  (`MinimumIsSilent`).
* The feature memory is described as that of a hundred-frame window. It is the sixteen smallest of the window for all
  runs of up to n calls if and only if n is at most a hundred (`WindowIsExact`); after that a feature that was pushed
  out cannot come back when the smaller one expires (`OverdueFails`).
* The limit on a multipart header line is tested once for each visit to the header state, on the first line that is
  pending then. Lines that are accepted one by one pass under every split of their bytes if and only if all of them are
  shorter than the limit (`HeaderLimit.LimitIsExact`); behind a first line within the limit a line of any length passes
  (`UncheckedBehindFirst`), and a line of exactly the limit passes or not with the split (`LimitDependsOnSplit`).
* The first delimiter line of a multipart body must arrive in one piece. A serialized body is accepted with exactly its
  items if and only if it has items and the first bytes that reach the parser hold that line whole
  (`AcceptedIsExact`, for the non-empty boundaries that `parse_multipart_boundary` lets through). Otherwise the cut
  line is dropped and parsing resumes at the next delimiter line that arrives whole, so that the upload may end valid
  with its first parts missing (`FirstPartIsLost`).
* A multimap survives printing and parsing, up to duplicate pairs, exactly if each of its keys is non-empty, does not
  begin with a blank, contains neither `&` nor `=`, and has no plus sign and no complete percent code
  (`RoundTripIsExact`).
* The writer of a chunked body reports success for runs whose body is not complete. For any operations of the provider,
  in any calls that all return true, the reader accepts what was emitted if and only if a done is among the operations
  executed, and then it delivers the payloads before the first one (`RunIsComplete`); an empty write at the end of a
  call is one way to stop without it (`EmptyWriteTruncates`).
* Learning is meant to pull the means towards the feature, and a deviation up when the squared distance of the feature
  exceeds it and down when it does not. In every reachable state it does (`RunLearns`), but for these two cases.
  When the noise mixture gives the feature no probability worth dividing by, the code hands the whole share to the first
  noise Gaussian, and eight times its delta no longer fits a word: the mean then moves towards the feature if and only
  if that word has kept its sign or is too small to count (`Steady` in `DefaultMoves`), and an excess raises the
  deviation if and only if what 32 bits leave of the product exceeds -33 times the deviation (`DefaultSpread`). A loud
  feature in the start state moves both the wrong way (`LoudFeatureRunsAway`). And the update of a speech deviation
  divides by ten times the deviation as a word: it is what it is meant to be, for all evidence, if and only if the
  deviation is at most 3276 (`SpreadIsExact`).
* The long-term correction of the noise means is 154/512 of their distance from the minimum if and only if that distance
  is a word (`CorrectionIsExact`).
* The initial models are not separated (`StartIsNotSeparated`). After any run all channels are separated if and only if
  some frame of the run was processed (`RunIsSafe`).
* `DivResultInQ31` needs a denominator of at most 2^30: every round fits 32 bits for all numerators below the
  denominator if and only if it is (`BoundIsExact`).

## Model

| member | source | states |
|---|---|---|
| VadInvariants.UpdateKeeps | include/deps/webrtc/common_audio/vad/vad_core.c:289-476 | for any feature and any evidence, one frame on one channel keeps all parameter bounds, and afterwards the two models are separated, despite the caps, whether or not they were before |
| VadInvariants.LearnKeeps | include/deps/webrtc/common_audio/vad/vad_core.c:299-419 | the learning step keeps clamped noise means, deviations of at least 378, and a bound on the speech pair that needs their spread |
| VadInvariants.SeparateWorks | include/deps/webrtc/common_audio/vad/vad_core.c:421-454 | moving the models apart establishes the gap of four times the minimum difference, less rounding |
| VadInvariants.CapSpeechWorks | include/deps/webrtc/common_audio/vad/vad_core.c:456-466 | the cap on the speech model puts its weighted mean under the maximum and does not undo the separation |
| VadInvariants.CapNoiseWorks | include/deps/webrtc/common_audio/vad/vad_core.c:468-475 | the cap on the noise model puts its weighted mean under the maximum and does not undo the separation |
| VadInvariants.NoMeanWraps | include/deps/webrtc/common_audio/vad/vad_core.c:307-358 | every sum stored back into a mean fits its 16-bit word, for any evidence |
| VadInvariants.SeparationGap | include/deps/webrtc/common_audio/vad/vad_core.c:433-453 | shares of 13/4 and 3/4 of the missing gap make up four times the gap up to rounding |
| VadModel.WeightsSum | include/deps/webrtc/common_audio/vad/vad_core.c:24-46 | both weights of a channel sum to 128, and the maxima leave room for four times the minimum difference |
| VadCore.NextKeeps | include/deps/webrtc/common_audio/vad/vad_core.c:143-497 | a whole call keeps the invariant of the instance; a processed frame separates all channels and a skipped one leaves them separated |
| VadCore.RunIsSafe | include/deps/webrtc/common_audio/vad/vad_core.c:143-497 | over any run of calls and mode changes the bounds hold, and every channel is separated if and only if a frame of the run was processed |
| VadCore.StartOk | include/deps/webrtc/common_audio/vad/vad_core.c:500-555 | the initial state satisfies the invariant, its first noise deviation being 378 |
| VadCore.StartIsNotSeparated | include/deps/webrtc/common_audio/vad/vad_core.c:47-54 | the initial models are not separated, so the separation invariant needs a processed frame |
| VadReach.UpdateFloors | include/deps/webrtc/common_audio/vad/vad_core.c:379-416 | a processed frame puts the deviations it learns at 384 or above and leaves the others as they are |
| VadReach.UpdateBand | include/deps/webrtc/common_audio/vad/vad_core.c:289-476 | one frame keeps the speech means above their minimum and no further apart than the clamps allow |
| VadReach.RunInBand | include/deps/webrtc/common_audio/vad/vad_core.c:143-497 | over any run the speech means of every channel stay in that band, and all deviations at 384 or above but the first noise deviation of channel 0, which starts at 378 |
| VadReach.RunStepsAreExact | include/deps/webrtc/common_audio/vad/vad_gmm.c:29-83 | in every reachable state and for every feature the filter bank can yield, all four Gaussians of a channel are within the range in which no step of the probability overflows |
| VadReach.PositiveShare | include/deps/webrtc/common_audio/vad/vad_gmm.c:53-82 | a positive share means that the exponent was below the cutoff, which bounds the distance from the mean |
| VadReach.SpeechProductFits | include/deps/webrtc/common_audio/vad/vad_core.c:362-368 | for a Gaussian in that range the product that updates its deviation fits 32 bits |
| VadReach.RunSpeechProductFits | include/deps/webrtc/common_audio/vad/vad_core.c:362-368 | in every reachable state the product that updates a speech deviation fits 32 bits, for the shares that the detection step computes |
| VadCore.RunHangover | include/deps/webrtc/common_audio/vad/vad_core.c:480-496 | in any run with a fixed mode and frame length the decisions and counters are those of the hysteresis on the raw decisions |
| VadCore.TestsAreExact | include/deps/webrtc/common_audio/vad/vad_core.c:202-223 | for parameters within the invariant the weighted probabilities and their sums do not overflow |
| VadCore.MixtureIsExact | include/deps/webrtc/common_audio/vad/vad_core.c:212-222 | two weighted probabilities of a mixture and their sum are exact and below 2^27 |
| VadCore.PosteriorsAreConditional | include/deps/webrtc/common_audio/vad/vad_core.c:257-281 | the two noise posteriors lie in 0..16384 and sum to 16384; the speech pair does, too, or is all zero |
| VadDecision.RatioBrackets | include/deps/webrtc/common_audio/vad/vad_core.c:225-246 | the ratio r of a channel is the logarithm of the quotient of the two likelihoods h1 and h0 to within one: 2^(r-1) h0 < h1 < 2^(r+1) h0 in integers |
| VadDecision.OneChannelDecides | include/deps/webrtc/common_audio/vad/vad_core.c:252-255 | one channel in which speech is 2^e times as likely as noise, with 4e above the threshold of the mode, makes a loud frame speech, whatever the others say |
| VadDecision.AllChannelsDecide | include/deps/webrtc/common_audio/vad/vad_core.c:248-285 | evidence of 2^e in each channel makes a loud frame speech once the exponents, weighted 6 to 16, reach the threshold for all channels |
| VadDecision.DoubtDecides | include/deps/webrtc/common_audio/vad/vad_core.c:248-285 | evidence of at most 2^e in each channel makes the frame noise if no 4e passes the threshold for one channel and the weighted exponents stay below the one for all: the mirror image of the two above |
| VadDecision.NoiseDecides | include/deps/webrtc/common_audio/vad/vad_core.c:198-285 | a frame that is at least as likely noise as speech in every channel is noise, in each of the four modes |
| VadDecision.RunDecides | include/deps/webrtc/common_audio/vad/vad_core.c:198-285 | in every reachable state and each of the four modes, the four before this hold of a loud frame |
| VadDecision.MilderHearsMore | include/deps/webrtc/common_audio/vad/vad_core.c:248-285 | a frame that is speech to a mode is speech to every milder one, in the same state |
| VadDecision.ModesAreOrdered | include/deps/webrtc/common_audio/vad/vad_core.c:558-613 | the four modes are ordered by all their thresholds |
| VadLearning.DetectIsBayes | include/deps/webrtc/common_audio/vad/vad_core.c:257-281 | the shares of the two Gaussians of a mixture are the parts of their weighted probabilities in the sum, in Q14 and rounded; without a sum the noise shares are 16384 and 0 and the speech shares 0 |
| VadLearning.SpeechMoves | include/deps/webrtc/common_audio/vad/vad_core.c:343-348 | a speech mean moves towards the feature and not past it, by 6554/2^33 of share times delta to the nearest, and moves at all from 2048 * 321 on |
| VadLearning.NoiseMoves | include/deps/webrtc/common_audio/vad/vad_core.c:308-316 | a noise mean moves towards the feature and not past it, by 655/2^33 of share times delta rounded down |
| VadLearning.DefaultMoves | include/deps/webrtc/common_audio/vad/vad_core.c:308-316 | on the default share the first noise mean moves towards the feature if and only if the word of eight times delta has kept its sign or is too small to count |
| VadLearning.CorrectionIsExact | include/deps/webrtc/common_audio/vad/vad_core.c:318-322 | the long-term correction is 154/512 of the distance between the minimum and the weighted noise mean, rounded down, if and only if the distance is a word |
| VadLearning.SpeechFrame | include/deps/webrtc/common_audio/vad/vad_core.c:299-357 | after a speech frame every speech mean is where its move towards the feature puts it, and every noise mean where the correction does, but for the clamps |
| VadLearning.NoiseFrame | include/deps/webrtc/common_audio/vad/vad_core.c:299-334 | after a noise frame the speech means are as before and every noise mean is where its move towards the feature and the correction put it, but for the clamps and the default share |
| VadDeviations.SpreadIsExact | include/deps/webrtc/common_audio/vad/vad_core.c:367-384 | for all shares and all distances at which a Gaussian has a probability, a speech deviation rises with an excess of the squared distance and falls with a lack, by the share of the excess over 40960 times the deviation, if and only if it is at most 3276 |
| VadDeviations.NoiseSpreadFollows | include/deps/webrtc/common_audio/vad/vad_core.c:390-412 | a noise deviation rises with an excess and falls with a lack, by the share of the excess over 2^20 times the deviation |
| VadDeviations.DefaultSpread | include/deps/webrtc/common_audio/vad/vad_core.c:390-412 | on the default share a lack never raises the first noise deviation, and an excess does not lower it if and only if what 32 bits leave of the product exceeds -33 times the deviation |
| VadDeviations.SpeechFrameStds | include/deps/webrtc/common_audio/vad/vad_core.c:360-387 | after a speech frame the speech deviations are those, floored, and the noise deviations as before |
| VadDeviations.NoiseFrameStds | include/deps/webrtc/common_audio/vad/vad_core.c:388-416 | after a noise frame the noise deviations are those, floored, and the speech deviations as before |
| VadDeviations.RunLearns | include/deps/webrtc/common_audio/vad/vad_core.c:299-419 | in every reachable state and for every feature of the filter bank, learning moves the means and deviations of a channel so |
| VadDeviations.LoudFeatureRunsAway | include/deps/webrtc/common_audio/vad/vad_core.c:269-273 | a loud feature in the start state: the default share moves the mean away from it and shrinks the deviation |
| VadInstance.VadInst.InitCore | include/deps/webrtc/common_audio/vad/vad_core.c:500-555 | the arrays hold the start state and the default mode |
| VadInstance.VadInst.SetModeCore | include/deps/webrtc/common_audio/vad/vad_core.c:558-613 | the four modes set their thresholds and return 0; any other mode returns -1 and changes nothing |
| VadInstance.VadInst.DetectChannel | include/deps/webrtc/common_audio/vad/vad_core.c:198-282 | the likelihood ratio and the evidence of a channel, stored in the local vectors |
| VadInstance.VadInst.LearnGaussian | include/deps/webrtc/common_audio/vad/vad_core.c:299-419 | one Gaussian pair is updated in place and the other parameters stay |
| VadInstance.VadInst.SeparateModels | include/deps/webrtc/common_audio/vad/vad_core.c:421-454 | the models are moved apart in place and the weighted means returned are the new ones |
| VadInstance.VadInst.CapModels | include/deps/webrtc/common_audio/vad/vad_core.c:456-475 | both caps are applied in place |
| VadInstance.VadInst.UpdateOne | include/deps/webrtc/common_audio/vad/vad_core.c:289-476 | the whole update of one channel leaves the other channels alone |
| VadInstance.VadInst.WeightedAverage | include/deps/webrtc/common_audio/vad/vad_core.c:109-120 | both means are shifted in place and their weighted sum is returned |
| VadInstance.VadInst.LearnNoiseMean | include/deps/webrtc/common_audio/vad/vad_core.c:307-334 | the new noise mean, with the long-term correction and both clamps |
| VadInstance.VadInst.LearnSpeechMean | include/deps/webrtc/common_audio/vad/vad_core.c:343-357 | the new speech mean, rounded and clamped |
| VadInstance.VadInst.LearnSpeechStd | include/deps/webrtc/common_audio/vad/vad_core.c:360-387 | the new speech deviation, the division's sign handled separately, floored |
| VadInstance.VadInst.LearnNoiseStd | include/deps/webrtc/common_audio/vad/vad_core.c:390-416 | the new noise deviation, with the multiplication that may overflow, floored |
| VadInstance.VadInst.DetectAll | include/deps/webrtc/common_audio/vad/vad_core.c:198-285 | the decision over all channels, and every channel's evidence in the local vectors |
| VadInstance.VadInst.UpdateAll | include/deps/webrtc/common_audio/vad/vad_core.c:287-476 | every channel's tracker and models become those of the step on values, the minimum of a channel entering its own update |
| VadInstance.VadInst.ProcessFrame | include/deps/webrtc/common_audio/vad/vad_core.c:186-478 | the raw decision and the state after learning |
| VadInstance.VadInst.Hysteresis | include/deps/webrtc/common_audio/vad/vad_core.c:480-496 | the decision and the counters after the smoothing step |
| VadInstance.VadInst.GmmProbability | include/deps/webrtc/common_audio/vad/vad_core.c:143-497 | the decision and the whole new state of the instance are those of the call on values, for which the run theorems are proved |
| VadGaussian.GaussianProbability | include/deps/webrtc/common_audio/vad/vad_gmm.c:29-83 | the step by step code, bit operations included, computes the two functions the lemmas are about |
| VadGaussian.StepIsExact | include/deps/webrtc/common_audio/vad/vad_gmm.c:37-78 | for a deviation of at least 378 and a distance of at most 18000 every product, sum and conversion of the step is exact, and the shift count is below the width of the word |
| VadGaussian.FallsAwayFromMean | include/deps/webrtc/common_audio/vad/vad_gmm.c:59-82 | the probability never grows as the input moves away from the mean on either side, and never exceeds its value at the mean |
| VadGaussian.Exp2Octave | include/deps/webrtc/common_audio/vad/vad_gmm.c:64-78 | the exponential lies in the octave of the true power of two and equals it at whole octaves |
| VadGaussian.Exp2Monotone | include/deps/webrtc/common_audio/vad/vad_gmm.c:64-78 | the bit-level exponential is monotone across octaves |
| VadGaussian.InversesAreAccurate | include/deps/webrtc/common_audio/vad/vad_gmm.c:37-49 | the inverse deviation is 2^17 over the deviation to the nearest, and the inverse variance a 64th of its square but for the bits the code drops |
| VadGaussian.OctaveHalves | include/deps/webrtc/common_audio/vad/vad_gmm.c:72-77 | the exponential is exactly halved from octave to octave |
| VadGaussian.HalvesAtLogTwo | include/deps/webrtc/common_audio/vad/vad_gmm.c:67-77 | as a function of the exponent it is halved between 709 and 710 steps of 1/1024 on, at the logarithm of two |
| VadGaussian.SharesArePosteriors | include/deps/webrtc/common_audio/vad/vad_core.c:260-267 | for weighted probabilities below 2^27 the quotient of the code is exact and in 0..16384 |
| VadGaussian.ProbabilityBounds | include/deps/webrtc/common_audio/vad/vad_gmm.c:29-83 | any input whatever gives a non-negative, bounded probability once the deviation is floored |
| VadTracker.AgeingKeepsSurvivors | include/deps/webrtc/common_audio/vad/vad_sp.c:75-89 | the ageing pass keeps exactly the entries that do not expire, in order, and fills up with 10000; the entry that takes an expired one's place is not aged |
| VadTracker.StepKeeps | include/deps/webrtc/common_audio/vad/vad_sp.c:75-153 | each call keeps the values sorted and at most 10000, and the ages of values below 10000 in 1..100 |
| VadTracker.StepExchanges | include/deps/webrtc/common_audio/vad/vad_sp.c:91-153 | as a multiset, a call exchanges the largest survivor for the feature, or nothing |
| VadTracker.FirstHundred | include/deps/webrtc/common_audio/vad/vad_sp.c:75-153 | over the first hundred calls the memory is exactly the sixteen smallest of the features seen and the start values |
| VadTracker.WindowIsExact | include/deps/webrtc/common_audio/vad/vad_sp.h:37-38 | the memory is the sixteen smallest of a hundred-frame window for all runs of up to n calls if and only if n is at most a hundred |
| VadTracker.OverdueFails | include/deps/webrtc/common_audio/vad/vad_sp.c:75-153 | a run of a hundred and one features, the first expiring while sixteen smaller ones than the last are in the window, after which the memory is not its sixteen smallest |
| VadTracker.RunKeeps | include/deps/webrtc/common_audio/vad/vad_sp.c:57-176 | the order and age bounds hold after any run of features |
| VadTracker.SmoothingIsBetween | include/deps/webrtc/common_audio/vad/vad_sp.c:155-173 | the smoothed mean lies between the old mean and the chosen median |
| VadTracker.FallsFastRisesSlowly | include/deps/webrtc/common_audio/vad/vad_sp.c:155-173 | the mean falls by four fifths of the way to the third smallest value in the memory if that is below it, and rises by a hundredth of the way otherwise, up to rounding; for the first two frames it is the smallest value, and before them the mean becomes 1600 |
| VadMinimum.Remove | include/deps/webrtc/common_audio/vad/vad_sp.c:81-88 | the two arrays are shifted down together and a filler comes in at the end |
| VadMinimum.AgeAll | include/deps/webrtc/common_audio/vad/vad_sp.c:77-89 | the loop in place is the recursive ageing pass |
| VadMinimum.Search | include/deps/webrtc/common_audio/vad/vad_sp.c:94-142 | the hand-unrolled comparison tree returns the least index whose value exceeds the feature, or -1 |
| VadMinimum.InsertAtPosition | include/deps/webrtc/common_audio/vad/vad_sp.c:144-153 | the larger values are shifted up and the feature comes in with age 1 |
| VadMinimum.FindMinimum | include/deps/webrtc/common_audio/vad/vad_sp.c:57-176 | one channel's window and mean become those of the tracker step, the others stay |
| VadMinimum.SmoothMean | include/deps/webrtc/common_audio/vad/vad_sp.c:155-175 | the mean of the channel becomes the smoothed one, the other channels' stay |
| VadHangover.CountersOfHistory | include/deps/webrtc/common_audio/vad/vad_core.c:480-495 | closed form of both counters in terms of the last run of speech and the quiet frames since |
| VadHangover.RunLaw | include/deps/webrtc/common_audio/vad/vad_core.c:480-496 | the decision is positive if and only if the frame is speech or among the first hang-time frames of noise after it, with its exact value |
| VadHangover.HangsOver | include/deps/webrtc/common_audio/vad/vad_core.c:480-496 | after a maximal run of m speech frames, noise frame n is still speech if and only if n is at most the first maximum (m <= 6) or the second |
| EnergyScaling.GetScalingSquare | include/deps/webrtc/common_audio/signal_processing/get_scaling_square.c:19-42 | the loop finds the largest magnitude as the code sees it and the shift that belongs to it |
| EnergyScaling.Energy | include/deps/webrtc/common_audio/signal_processing/energy.c:19-36 | the result is the wrapped sum of shifted squares, and the exact sum if no sample is -32768 |
| EnergyScaling.EnergyFits | include/deps/webrtc/common_audio/signal_processing/get_scaling_square.c:19-42 | without the sample -32768 the sum of shifted squares stays below 2^31, for every length |
| EnergyScaling.MinimumOverflows | include/deps/webrtc/common_audio/signal_processing/get_scaling_square.c:27-31 | two samples -32768 are added unshifted and leave 32 bits |
| EnergyScaling.ConstantVector | include/deps/webrtc/common_audio/signal_processing/get_scaling_square.c:19-42 | for equal samples the sum fits if and only if the sample is not -32768 or there is at most one |
| EnergyScaling.GuardIsExact | include/deps/webrtc/common_audio/signal_processing/get_scaling_square.c:19-42 | the promise holds for every vector over a set of sample values, of any length, if and only if -32768 is not in the set |
| LogEnergy.LogOfEnergy | include/deps/webrtc/common_audio/vad/vad_filterbank.c:154-243 | for any band of 16-bit samples, the energy being read as unsigned, the feature and the energy indicator are those of the functions the lemmas are about |
| LogEnergy.FeatureRange | include/deps/webrtc/common_audio/vad/vad_filterbank.c:154-243 | for the band lengths in use and any 16-bit samples every feature lies between its offset and 2047, so eight times it is a word |
| LogLaw.FeatureOfPower | include/deps/webrtc/common_audio/vad/vad_filterbank.c:169-222 | the feature depends on the energy and the shift it was taken at only through the energy scaled back |
| LogLaw.LouderIsHigher | include/deps/webrtc/common_audio/vad/vad_filterbank.c:154-225 | of two bands the one with more energy never gets the smaller feature |
| LogLaw.FeatureIsLogarithm | include/deps/webrtc/common_audio/vad/vad_filterbank.c:190-222 | for an energy (1 + x) 2^k, 512 times the feature above its offset is 24660 (k + x), less at most 1049: the logarithm, along the chord of its octave |
| LogLaw.FeatureIsInOctave | include/deps/webrtc/common_audio/vad/vad_filterbank.c:190-222 | so it lies between k and k + 1 times 24660/512 |
| LogLaw.PowerIsNearSquares | include/deps/webrtc/common_audio/signal_processing/energy.c:19-36 | without the sample -32768 the energy scaled back is the sum of the squares, less at most what the shifts drop |
| LogEnergy.NormalizedHasFifteenBits | include/deps/webrtc/common_audio/vad/vad_filterbank.c:171-188 | normalising leaves exactly fifteen bits |
| LogEnergy.IndicatorAdds | include/deps/webrtc/common_audio/vad/vad_filterbank.c:227-242 | without the sample -32768, up to the threshold a short band adds the sum of its squares exactly, or passes the threshold when that sum does; past it the indicator stays |
| LogEnergy.GateIsExact | include/deps/webrtc/common_audio/vad/vad_filterbank.c:283-331 | without the sample -32768 the indicator of a frame exceeds the minimum energy if and only if the sum of the squares of all samples does, and is that sum otherwise |
| LogEnergy.PowerIsSquares | include/deps/webrtc/common_audio/signal_processing/energy.c:19-36 | for fewer than 64 samples the energy scaled back is the sum of the squares, or both are far above the threshold |
| LogEnergy.GateGuardIsExact | include/deps/webrtc/common_audio/vad/vad_filterbank.c:227-242 | the gate is right about every frame of short bands over a set of samples if and only if -32768 is not in the set |
| LogEnergy.MinimumIsSilent | include/deps/webrtc/common_audio/vad/vad_filterbank.c:167-170 | four samples -32768 leave the indicator at 0, although their squares add up to 2^32 |
| Division.DivResultInQ31 | include/deps/webrtc/common_audio/signal_processing/division_operations.c:56-87 | for a magnitude of the numerator below that of a denominator of at most 2^30, the signed quotient in Q31 truncated toward zero |
| Division.DivideMagnitudes | include/deps/webrtc/common_audio/signal_processing/division_operations.c:68-82 | the 31 rounds of doubling and subtracting give the floor of num * 2^31 / den, and no doubled remainder of any round leaves 32 bits |
| Division.RoundsDivide | include/deps/webrtc/common_audio/signal_processing/division_operations.c:68-82 | after k rounds the quotient and the remainder are those of num * 2^k by den |
| Division.EveryRoundFits | include/deps/webrtc/common_audio/signal_processing/division_operations.c:71-77 | for a denominator of at most 2^30 the doubled remainder of every round fits 32 bits |
| Division.BoundIsExact | include/deps/webrtc/common_audio/signal_processing/division_operations.c:68-77 | every doubled remainder over all 31 rounds fits 32 bits for all numerators below the denominator, if and only if the denominator is at most 2^30 |
| Division.Q31IsNearestBelow | include/deps/webrtc/common_audio/signal_processing/division_operations.c:56-87 | the quotient is the greatest fraction over 2^31 not above the true one in magnitude, with the right sign |
| BitReverse.SwapByLoop | include/deps/webrtc/common_audio/signal_processing/complex_bit_reverse.c:78-105 | the generic loop leaves out[i] = in[rev(i)], for every number of stages |
| BitReverse.NextIndex | include/deps/webrtc/common_audio/signal_processing/complex_bit_reverse.c:84-93 | the inner do-while ends, and mr becomes the reversal of m |
| BitReverse.NextReversed | include/deps/webrtc/common_audio/signal_processing/complex_bit_reverse.c:84-93 | clearing the bits from the greatest fitting power of two up, and setting it, takes the reversal of m - 1 to that of m |
| BitReverse.RevInvolution | include/deps/webrtc/common_audio/signal_processing/complex_bit_reverse.c:48-107 | reversing an index twice gives it back |
| BitReverse.BitReversedTwice | include/deps/webrtc/common_audio/signal_processing/complex_bit_reverse.c:48-107 | the permutation is its own inverse |
| BitReverse.BitReversedIsPermutation | include/deps/webrtc/common_audio/signal_processing/complex_bit_reverse.c:48-107 | every element reaches the place of its reversed index |
| BitReverse.PartialStep | include/deps/webrtc/common_audio/signal_processing/complex_bit_reverse.c:94-104 | each round swaps the pair of m exactly when m is its lower index, so each pair is swapped once |
| BitReverseTables.Index7IsComplete | include/deps/webrtc/common_audio/signal_processing/complex_bit_reverse.c:19-27 | the table for 7 stages lists each pair (m, rev(m)) with m < rev(m) once, in order, and nothing else |
| BitReverseTables.Index8IsComplete | include/deps/webrtc/common_audio/signal_processing/complex_bit_reverse.c:30-46 | the same for the table for 8 stages |
| BitReverseTables.SwapByTable | include/deps/webrtc/common_audio/signal_processing/complex_bit_reverse.c:55-76 | swapping the pairs of a complete table gives the permutation of the generic loop |
| BitReverseTables.ComplexBitReverse | include/deps/webrtc/common_audio/signal_processing/complex_bit_reverse.c:48-107 | on either path the array ends bit-reversed |
| Allpass.FilterAppend | include/deps/webrtc/common_audio/signal_processing/resample_by_2_internal.c:31-116 | an allpass section over a stream in two parts, with the state carried over, is the section over the whole stream |
| Allpass.FilterRemembers | include/deps/webrtc/common_audio/signal_processing/resample_by_2_internal.c:543-669 | the first word of a section is the last sample it saw, which is how the delay element survives a call |
| ResampleBy2.Step | include/deps/webrtc/common_audio/signal_processing/resample_by_2_internal.c:43-64 | the statements repeated in every loop advance one section in place and leave the rest of the state array alone |
| ResampleBy2.Branch | include/deps/webrtc/common_audio/signal_processing/resample_by_2_internal.c:43-68 | a loop over every second word, in place or into a range in front, stores the section's output stream and touches no other word |
| ResampleBy2.LateBranch | include/deps/webrtc/common_audio/signal_processing/resample_by_2_internal.c:552-580 | the loop that starts with the delay element filters the stream one sample late |
| ResampleBy2.AveragingBranch | include/deps/webrtc/common_audio/signal_processing/resample_by_2_internal.c:583-611 | the loop that adds the second branch and scales down |
| ResampleBy2.Combine | include/deps/webrtc/common_audio/signal_processing/resample_by_2_internal.c:100-115 | both branches added, scaled and saturated, two outputs a round |
| ResampleBy2.DownBy2ShortToInt | include/deps/webrtc/common_audio/signal_processing/resample_by_2_internal.c:124-194 | output range and state become those of the decimator over the stream; the rest of the buffer stays |
| ResampleBy2.LPBy2IntToInt | include/deps/webrtc/common_audio/signal_processing/resample_by_2_internal.c:543-669 | four interleaved loops on two ranges of one buffer compute the low pass, including the late first branch |
| ResampleBy2.DownBy2IntToShort | include/deps/webrtc/common_audio/signal_processing/resample_by_2_internal.c:31-116 | the decimator that overwrites its input computes the saturated stream filter |
| ResampleBy2.LowPassAppend | include/deps/webrtc/common_audio/signal_processing/resample_by_2_internal.c:543-669 | the low pass over a stream in two parts, the delay element carried in the state, is the low pass over the whole |
| ResampleBy2.HalfBandAppend | include/deps/webrtc/common_audio/signal_processing/resample_by_2_internal.c:31-194 | both decimators' branches over a stream in two even parts are those over the whole |
| HalfBandRamp.BranchesAgree | include/deps/webrtc/common_audio/signal_processing/resample_by_2_internal.c:20-23 | the two rows of coefficients delay a ramp by one and by one and a half samples of their branch, so that both branches end on the same value |
| HalfBandRamp.AdvanceSettled | include/deps/webrtc/common_audio/signal_processing/resample_by_2_internal.c:43-64 | a section that has settled on a ramp stays within the bounds, whatever its roundings and truncations, and no sum wraps |
| HalfBandRamp.HalfBandOfRamp | include/deps/webrtc/common_audio/signal_processing/resample_by_2_internal.c:31-194 | on a ramp the half-band filter puts out the ramp of two samples before, within the bounds |
| Resample48To8.Resample48khzTo32khz | include/deps/webrtc/common_audio/signal_processing/resample_fractional.c:43-80 | with the output in the same buffer, eight words in front of the input, no input is overwritten before it is read |
| Resample48To8.TwoThirdsAppend | include/deps/webrtc/common_audio/signal_processing/resample_48khz.c:121-124 | carrying the last eight samples makes the three to two stage over two parts equal to the stage over the whole |
| Resample48To8.TapBoundIsExact | include/deps/webrtc/common_audio/signal_processing/resample_fractional.c:43-80 | the eight taps of an output are the exact weighted sum as long as they do not overflow, and they do not for any samples within a bound if and only if the bound is at most 48204 |
| ResampleResponse.RampStaysRamp | include/deps/webrtc/common_audio/signal_processing/resample_fractional.c:43-80 | on a ramp neighbouring outputs differ by 49312 or 49337 times the slope, in turn: three halves of it, in units of 2^-15 |
| ResampleResponse.SettledResponse | include/deps/webrtc/common_audio/signal_processing/resample_48khz.c:102-131 | a settled resampler turns the stream u, v, u, v, ... into the constant that is their mean times 32883/32768, rounded and saturated: a constant stays one and the highest frequency is silenced |
| Resample48To8.ResampledAppend | include/deps/webrtc/common_audio/signal_processing/resample_48khz.c:102-131 | the four filters over a stream in two parts are the four filters over the whole |
| Resample48To8.BlockWiseIsOneShot | include/deps/webrtc/common_audio/signal_processing/resample_48khz.c:102-131 | any sequence of 480-sample blocks with carried state gives the same output and end state as the four filters over the whole stream at once |
| Resample48To8.SixToOne | include/deps/webrtc/common_audio/signal_processing/resample_48khz.c:102-131 | six samples in give one sample out |
| Resample48To8.Resampler.Resample48khzTo8khz | include/deps/webrtc/common_audio/signal_processing/resample_48khz.c:102-131 | one call through the shared scratch memory, with both copies of the carried samples, is the four filters on that block |
| Resample48To8.Resampler.constructor | include/deps/webrtc/common_audio/signal_processing/resample_48khz.c:134-140 | the filter states start at zero |
| UrlCoding.EncodeQueryParam | include/deps/httplib.h:2679-2698 | the loop computes the encoding whose inverse is proved below |
| UrlCoding.DecodeUrl | include/deps/httplib.h:2732-2767 | the loop decodes unit by unit: percent codes, four-digit codes, plus signs, and everything malformed as it stands |
| UrlCoding.FromHexToI | include/deps/httplib.h:2533-2548 | the value of exactly cnt digits at a position, or a failure |
| UrlCoding.DecodeEncoded | include/deps/httplib.h:2679-2767 | decoding inverts encoding on every byte string, at any position, with and without plus signs for spaces |
| UrlCoding.EncodedCharacters | include/deps/httplib.h:2679-2698 | an encoded value is made of plain characters and percent signs only |
| Query.Trim | include/deps/httplib.h:2787-2796 | the returned range is the field without its blanks, and empty exactly if the field is blank |
| Query.Split | include/deps/httplib.h:2836-2856 | the pieces are the stripped non-empty fields, in order |
| Query.StripBetween | include/deps/httplib.h:2787-2796 | stripping removes exactly the blanks at both ends |
| Query.PiecesAppend | include/deps/httplib.h:2836-2856 | the pieces of two texts joined by a separator are the pieces of one and then of the other |
| Query.ParseQueryText | include/deps/httplib.h:4688-4709 | the loop with its cache computes the parse that the round trip is about, adding to the parameters given |
| Query.ParamsToQueryStr | include/deps/httplib.h:4676-4686 | the loop prints what the round trip starts from |
| Query.RoundTrip | include/deps/httplib.h:4676-4709 | for a multimap with clean keys and any byte values, parsing the printed query gives the map without duplicate pairs |
| Query.RoundTripIsExact | include/deps/httplib.h:4676-4709 | the condition is exact for every multimap: it survives printing and parsing, up to duplicate pairs, if and only if all its keys are clean |
| Query.LongestIsRead | include/deps/httplib.h:4676-4709 | a longest unclean key could only be read back from another one of the same length by turning plus signs into spaces |
| Query.TakePiecesKeepsSorted | include/deps/httplib.h:4688-4709 | whatever the text, the parameters stay in the order of a multimap |
| Query.EmplaceKeepsSorted | include/deps/httplib.h:4705-4707 | inserting behind equal keys keeps the order |
| LineReader.StreamLineReader.Append | include/deps/httplib.h:2919-2930 | the fixed and the growing buffer together hold exactly the bytes appended, and the assertion in the code holds |
| LineReader.StreamLineReader.Getline | include/deps/httplib.h:2884-2917 | the line is the input up to its first CRLF, or all of it at the end of the stream; exactly that is consumed; when it fails |
| ChunkSize.FromIToHex | include/deps/httplib.h:2550-2558 | the do-while prints the hexadecimal digits |
| ChunkSize.SizeRoundTrip | include/deps/httplib.h:4264-4269 | reading a printed size with strtoul gives the size, whatever non-digit follows |
| ChunkedReader.ReadContentWithLength | include/deps/httplib.h:4207-4227 | exactly len bytes are delivered in order whatever the stream's read sizes, or a prefix of them on failure |
| ChunkedReader.ReadChunkData | include/deps/httplib.h:4276-4282 | the data of one chunk and the line end behind it, or what was delivered before the failure |
| ChunkedReader.ReadContentChunked | include/deps/httplib.h:4256-4319 | for every stream behaviour the outcome, the bytes delivered, the bytes left and the trailer lines are those of the reading function |
| ChunkedReader.ReadTrailers | include/deps/httplib.h:4302-4316 | what happens behind the last chunk: end of stream accepted, lines read up to an empty one, overlong lines refused |
| ChunkedWriter.WriteData | include/deps/httplib.h:4444-4452 | all bytes are written in order however the stream cuts its writes, or a prefix on failure |
| ChunkedWriter.DataSink.Write | include/deps/httplib.h:4545-4570 | a non-empty write emits one whole chunk, an empty one nothing but the end of data |
| ChunkedWriter.DataSink.Finish | include/deps/httplib.h:4574-4613 | done emits the terminator |
| ChunkedWriter.WriteContentChunked | include/deps/httplib.h:4537-4638 | the run over the provider's calls emits what the run on values does; on failure the error says so |
| ChunkedCoding.BodyRoundTrip | include/deps/httplib.h:4256-4319 | reading chunks and terminator delivers exactly the payloads and stops behind the terminator, whatever follows |
| ChunkedCoding.RunEmits | include/deps/httplib.h:4537-4638 | however a provider spreads non-empty writes and one final done over its calls, their chunks and the terminator are emitted and the run succeeds |
| ChunkedCoding.WriterToReader | include/deps/httplib.h:4537-4638 | the two together: what a run of the writer emits, the reader delivers |
| ChunkedCoding.ReadOps | include/deps/httplib.h:4256-4319 | what the reader makes of the output of any operations: accepted if and only if a done is among them, and then the payloads before the first one, stopping behind its terminator |
| ChunkedCoding.RunIsComplete | include/deps/httplib.h:4537-4638 | for any calls of the provider that all return true, with any operations, the reader accepts the emitted bytes if and only if a done was executed; the body is the payloads before the first one |
| ChunkedCoding.TruncationIsDetected | include/deps/httplib.h:4256-4290 | a chunked body cut anywhere before its terminator is never accepted |
| ChunkedCoding.EmptyWriteTruncates | include/deps/httplib.h:4545-4547 | an empty write at the end of a provider call ends the run with success but without a terminator, and the reader refuses the result |
| HeaderFields.ParseHeader | include/deps/httplib.h:4120-4165 | the index loops find the key and the stripped value; values with CR, LF or NUL after decoding are refused |
| HeaderFields.ParseDispositionParams | include/deps/httplib.h:4726-4748 | the nested splits collect the unquoted parameters, each distinct piece once |
| HeaderFields.HandleHeader | include/deps/httplib.h:4852-4899 | one header line's effect on the part, for all its accepting and refusing paths |
| FormHeaders.DispositionLineRead | include/deps/httplib.h:4865-4899 | the printed Content-Disposition line gives back the name and the file name |
| FormHeaders.TypeLineRead | include/deps/httplib.h:4860-4864 | the printed Content-Type line gives back the type |
| FormHeaders.ParamsRead | include/deps/httplib.h:4726-4748 | the parameters read from a printed disposition are exactly name and, if any, filename |
| ExtendedName.ExtendedLineRead | include/deps/httplib.h:4865-4899 | a line with an encoded UTF-8 file name gives back the name that was encoded; it is refused if and only if that is empty or holds a line end or a zero byte |
| ExtendedName.ExtendedParams | include/deps/httplib.h:4726-4748 | the parameters read from such a line are exactly the extended file name and the name |
| MultipartParser.MultipartFormDataParser.BufFind | include/deps/httplib.h:4998-5019 | the place of the first occurrence in the pending bytes, or their number |
| MultipartParser.MultipartFormDataParser.BufAppend | include/deps/httplib.h:5021-5037 | compacting and appending lose, repeat or reorder no pending byte |
| MultipartParser.MultipartFormDataParser.InitialBoundary | include/deps/httplib.h:4820-4827 | the preamble case is the turn of state 0 |
| MultipartParser.MultipartFormDataParser.ReadHeaders | include/deps/httplib.h:4833-4903 | the header loop is the turn of state 2 on values, unless a callback refuses |
| MultipartParser.MultipartFormDataParser.ReadBody | include/deps/httplib.h:4904-4926 | the body case is the turn of state 3 |
| MultipartParser.MultipartFormDataParser.ReadBoundary | include/deps/httplib.h:4927-4944 | the boundary case is the turn of state 4 |
| MultipartParser.MultipartFormDataParser.Parse | include/deps/httplib.h:4813-4948 | one call leaves the parser and the parts handed over as the state machine on values says, unless a callback refuses |
| MultipartModel.SeekIsFirst | include/deps/httplib.h:4998-5019 | nothing occurs before the place found, and nothing at all if none is found |
| MultipartBody.BodyTurnExtracts | include/deps/httplib.h:4904-4926 | with any bytes still to come, one turn of state 3 hands over up to the first delimiter of the whole text, or bytes in which no delimiter begins |
| MultipartBody.BodyIsExtracted | include/deps/httplib.h:4904-4926 | for any bytes and any split, the content handed over is exactly what stands before the first CRLF, dashes and boundary; otherwise nothing is lost and at most a delimiter's length is held back |
| Multipart.SerializeMultipartFormdata | include/deps/httplib.h:5084-5127 | the loops print the body the round trip is about |
| Multipart.SerializedIs | include/deps/httplib.h:5084-5127 | the printed body is a delimiter line followed by the grammar the parser expects |
| MultipartRoundTrip.LoopLeads | include/deps/httplib.h:4813-4948 | every call of parse keeps the parts handed over, the buffer and the bytes still to come in step; once nothing is to come, all is handed over and valid |
| MultipartRoundTrip.RoundTrip | include/deps/httplib.h:4813-4948 | parsing a serialized body of one or more items gives the items in order and ends valid, however the bytes behind the first delimiter line are split over the calls |
| MultipartRoundTrip.SeekContent | include/deps/httplib.h:4904-4926 | behind a content free of the delimiter, the delimiter is found where it stands and never across the seam |
| MultipartSplit.FirstPartIsLost | include/deps/httplib.h:4820-4827 | a cut first delimiter line is dropped and parsing resumes at the next one that arrives whole: the upload ends valid with exactly the items behind it |
| MultipartLost.AcceptedIsExact | include/deps/httplib.h:4813-4948 | a serialized body of safe items is accepted with exactly its items if and only if there are items and the first bytes that reach the parser hold the whole first delimiter line, for every split |
| MultipartLost.LoopBehind | include/deps/httplib.h:4813-4948 | a parser that lost the first delimiter line stays behind: every call leaves it behind the content due, or with an item out of place, or refuses |
| MultipartLost.StillBehind | include/deps/httplib.h:4904-4926 | a content that began too late and has the length of the one due ends at the delimiter of a later item, so the parser is behind again |
| MultipartLost.StartsBehind | include/deps/httplib.h:4820-4827 | a delimiter line found behind the first one ends behind the first item's header lines, or cuts off the first of them at least |
| MultipartRoundTrip.LimitDependsOnSplit | include/deps/httplib.h:4834-4835 | a line of exactly the limit passes with its CRLF and is refused with its CR alone |
| HeaderLimit.LimitIsExact | include/deps/httplib.h:4833-4903 | header lines that are accepted one by one pass under every split if and only if each is shorter than the limit |
| HeaderLimit.UncheckedBehindFirst | include/deps/httplib.h:4834-4843 | a line of any length passes behind a first line within the limit that arrives with it |
| MultipartUpload.ReadContentCore | include/deps/httplib.h:6587-6642 | the server's loop over the pieces accepts the body if and only if no call fails and the parser ends valid; a serialized body cut anywhere behind its first delimiter line is accepted with exactly its items |
| Segmenter.VAD.ProcessVAD | src/vad.cpp:55-97 | ring, voice buffer, trigger and callbacks after a frame are those of the step on values |
| Segmenter.VAD.ProcessVoicedFrame | src/vad.cpp:99-107 | the frame is delivered, and kept while the buffer has room |
| Segmenter.VAD.ProcessFrame | src/vad.cpp:11-20 | an empty frame changes nothing, any other is processed with the raw decision |
| Segmenter.StepExplained | src/vad.cpp:55-97 | one frame keeps the account of which frames are delivered, in the ring or dropped |
| Segmenter.RunExplained | src/vad.cpp:4-107 | over any input the segments are disjoint non-empty blocks delivered once in order and cut to ten thousand frames, the ring holds the most recent rest, and after every step 20 * matching <= 17 * size |
| Segmenter.CallbacksAlternate | src/vad.cpp:55-114 | start and end callbacks alternate, and frames and segments are delivered only in between |
| SegmenterTiming.TurnsExactly | src/vad.cpp:55-97 | over any run, from the marks of the frames: while no segment is open, a frame starts one if and only if more than 17 in 20 of the last w frames are voiced, w being the number of frames since the last end, padding included, but at most forty; the mirrored law for the end |
| SegmenterTiming.StartDelivers | src/vad.cpp:66-76 | a start is announced and hands over exactly those w frames |
| SegmenterTiming.NoEarlyStart | src/vad.cpp:55-77 | from the start state no segment opens before the thirty-fifth voiced frame |
| SegmenterTiming.StartsInTime | src/vad.cpp:55-77 | the thirty-fifth of thirty-five voiced frames in a row opens the first segment |
| SegmenterTiming.RightKind | src/vad.cpp:55-97 | an unvoiced frame starts no segment and a voiced one ends none |
| SegmenterTiming.FortyEnd | src/vad.cpp:78-96 | after forty unvoiced frames in a row no segment is open, whatever came before |
| Segmenter.RatioIsExact | include/sip/vad.h:40-43 | the comparison with the single-precision ratio is the exact one |
| Playback.MediaPort.AddToQueue | src/media_port.cpp:7-10 | the samples go in behind those pending, and the call enters the history whose account the port always matches |
| Playback.MediaPort.OnFrameRequested | src/media_port.cpp:12-49 | a frame is 160 samples: the pending ones in order, zeros only as a suffix and only when nothing is left; the loop ends even with empty buffers |
| Playback.MediaPort.FillFrame | src/media_port.cpp:12-49 | the loop copies the pending samples across buffer ends until the frame is full or nothing is left |
| Playback.MediaPort.ClearQueue | src/media_port.cpp:56-61 | everything pending is dropped |
| Playback.Conservation | src/media_port.cpp:7-61 | over any history of a port, samples taken out followed by those pending are the samples put in, and every frame has 160 samples |
| Playback.PlaysInOrder | src/media_port.cpp:7-49 | without a clear, the frames a port has played, less their padding, are a prefix of what was enqueued |
| TaskQueue.SharedQueue.Enqueue | src/manager.cpp:184-193 | a stopped queue takes nothing and owes no notification |
| TaskQueue.SharedQueue.Dequeue | src/manager.cpp:195-207 | waits exactly while there is neither a task nor a stop; takes the first task |
| TaskQueue.SharedQueue.Stop | src/manager.cpp:209-214 | the queue is stopped and keeps its tasks |
| TaskQueue.StepKeepsInv | src/manager.cpp:174-239 | every step of every thread keeps the protocol invariant |
| TaskQueue.StartedIsPrefix | src/manager.cpp:184-239 | in every interleaving the tasks started are a prefix of those accepted, the rest is in hand or queued |
| TaskQueue.OnlyGrows | src/manager.cpp:174-216 | nothing is accepted after the stop, and nothing accepted or started is taken back |
| TaskQueue.AtMostOneMore | src/manager.cpp:174-239 | at most one task starts after the running flag is cleared, and none if the worker was not committed |
| TaskQueue.WorkerGetsOut | src/manager.cpp:174-239 | after stop and notify the worker can always step, and each of its steps brings it nearer to the end |
| TaskQueue.NoLostWakeup | src/manager.cpp:184-207 | a worker asleep beside a task is about to be woken by a caller that can step |

## Left out

- EnergyScaling.EnergyFits: a single vector that contains -32768 may still fit, depending on its whole sum; the exact
  conditions are the one on the set of samples and the one for equal samples.
- ChunkedReader.ReadTrailers: returns the trailer lines as they stand; entering them into the header map is not
  modelled, and neither is the case of a one-byte line at the end of the stream, whose terminator the code strips
  unconditionally.
- VadCore.RunIsSafe: there is no upper bound on the deviations beyond their word, because the code has none. The frame
  counter is read as wrapping after 2^31 frames, where C leaves the overflow undefined.
- VadInstance.VadInst.InitCore: the `vad` field, `init_flag` and the filter states are not fields of the model, which
  starts at the features.
- ChunkedReader.ReadContentChunked: the trailers come back as lines, as for `ReadTrailers`.
- ChunkedWriter.DataSink.Finish: writes no trailers and flushes no compressor; the model is that of the identity
  compressor.
- ChunkedWriter.WriteContentChunked: only the identity compressor, and a shutdown only ends the listed calls.
- MultipartUpload.ReadContentCore: finding the boundary in the content type, the transfer of the body and the response
  status are not modelled.
- Segmenter.VAD.ProcessFrame: the decision of the detector is a parameter.
- VadDeviations.RunLearns: whether a speech deviation above 3276 can be reached is not shown, and neither is a bound on
  the minimum that the correction uses; for deviations above 3276 it only says which value is floored.
- HalfBandRamp.HalfBandOfRamp: that a filter settles from any state is not shown, only that it stays settled, and
  nothing between the constant and the highest frequency is said about its frequency response.
- Resample48To8.TapBoundIsExact: that the stages before keep their output within the bound on any stream is not proved;
  they are recursive filters that the code does not saturate.
- `WebRtcVad_CalcVad48khz`: its loop never advances the input, so the streaming property is stated on the resampler.
- The split, high-pass and downsampling filters of the filter bank, the interpolators, FFT, square root: they permit
  overflow or are approximate; the bands enter as vectors of samples.
- Feature vectors are sequences, and the arguments of `Energy` and `LogOfEnergy` too: the code only reads them.
- A write or read of a stream is assumed to make progress or fail; a stream that accepts zero bytes for ever is not
  modelled. Timeouts, progress callbacks, compressors and sending trailers are left out.
- A refusal by a callback only shows as a failing call; what the caller does with it is not modelled.
- `std::regex` is modelled by the strings it matches, not by its stack use. Names use C's default locale.
- Callbacks of the segmenter are assumed to be installed; `mergeFrames` is a plain concatenation. The raw decision of
  the detector enters as a parameter.
- The media port's calls are taken as atomic; it has no lock of its own.
- The worker is assumed to register with PJSIP; a task that throws counts as ended. A second shutdown is modelled only
  after the first has joined. Hanging up calls and destroying the library are outside.
- The leading-zero count without compiler support, 64-bit and platform variants.
- PJSIP, WebSockets, TLS, HTTP routing, JSON and BSON, the database, Lua, configuration and logging.
