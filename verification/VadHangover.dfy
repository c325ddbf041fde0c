/** The transition hysteresis at the end of GmmProbability in vad_core.c, and what it does to a
    whole history of raw decisions. */
module VadHangover {

  const MAX_SPEECH_FRAMES := 6

  /** `over_hang` and `num_of_speech`. */
  datatype Hangover = Hangover(overHang: int, numOfSpeech: int)

  /** One frame: the decision handed out, and the counters after it. */
  function Smooth(h: Hangover, speech: bool, max1: int, max2: int): (int, Hangover) {
    if !speech then
      if h.overHang > 0 then (2 + h.overHang, Hangover(h.overHang - 1, 0))
      else (0, Hangover(h.overHang, 0))
    else if h.numOfSpeech + 1 > MAX_SPEECH_FRAMES then (1, Hangover(max2, MAX_SPEECH_FRAMES))
    else (1, Hangover(max1, h.numOfSpeech + 1))
  }

  /** The counters after a history of raw decisions, from a freshly initialised instance. */
  function After(history: seq<bool>, max1: int, max2: int): Hangover {
    if history == [] then Hangover(0, 0)
    else Smooth(After(history[..|history| - 1], max1, max2), history[|history| - 1], max1, max2).1
  }

  /** The decision on the last frame of a history. */
  function Decision(history: seq<bool>, max1: int, max2: int): int
    requires history != []
  {
    Smooth(After(history[..|history| - 1], max1, max2), history[|history| - 1], max1, max2).0
  }

  /** How many frames at the end of the history are noise. */
  function Quiet(history: seq<bool>): nat {
    if history == [] || history[|history| - 1] then 0 else 1 + Quiet(history[..|history| - 1])
  }

  /** The length of the run of speech that ends the history. */
  function Talk(history: seq<bool>): nat {
    if history == [] || !history[|history| - 1] then 0 else 1 + Talk(history[..|history| - 1])
  }

  /** The length of the last maximal run of speech, 0 if there was none. */
  function LastRun(history: seq<bool>): nat {
    if history == [] then 0
    else if history[|history| - 1] then Talk(history)
    else LastRun(history[..|history| - 1])
  }

  /** How many frames a run of m speech frames hangs over. */
  function HangTime(m: nat, max1: int, max2: int): int {
    if m == 0 then 0 else if m <= MAX_SPEECH_FRAMES then max1 else max2
  }

  function Least(a: int, b: int): int { if a < b then a else b }

  /** The counters in closed form: the hang time of the last run less the quiet frames since,
      and the length of the run in progress, counted up to six. */
  lemma {:induction false} CountersOfHistory(history: seq<bool>, max1: nat, max2: nat)
    ensures var h := After(history, max1, max2);
            && h.numOfSpeech == Least(Talk(history), MAX_SPEECH_FRAMES)
            && h.overHang == (var left := HangTime(LastRun(history), max1, max2) - Quiet(history);
                              if left > 0 then left else 0)
  {
    if history != [] {
      CountersOfHistory(history[..|history| - 1], max1, max2);
    }
  }

  /** The run law: the decision is positive exactly when the frame is raw speech or is among the
      first `HangTime` frames of noise after the last run of speech; a hanging decision is two
      more than the frames left. */
  lemma RunLaw(history: seq<bool>, max1: nat, max2: nat)
    requires history != []
    ensures var d := Decision(history, max1, max2);
            var speech := history[|history| - 1];
            var hang := HangTime(LastRun(history), max1, max2);
            && (d > 0 <==> speech || Quiet(history) <= hang)
            && d == if speech then 1 else if Quiet(history) <= hang then 3 + hang - Quiet(history) else 0
  {
    CountersOfHistory(history[..|history| - 1], max1, max2);
  }

  /** A history cut into what came before a maximal run of m speech frames, the run, and n quiet
      frames: the functions above read off m and n. */
  lemma {:induction false} ReadsOffRun(before: seq<bool>, m: nat, n: nat)
    requires m > 0 && (before != [] ==> !before[|before| - 1])
    ensures var history := before + seq(m, _ => true) + seq(n, _ => false);
            LastRun(history) == m && Quiet(history) == n && (n == 0 ==> Talk(history) == m)
    decreases m + n
  {
    var history := before + seq(m, _ => true) + seq(n, _ => false);
    var front := history[..|history| - 1];
    if n > 0 {
      assert front == before + seq(m, _ => true) + seq(n - 1, _ => false);
      ReadsOffRun(before, m, n - 1);
    } else if m > 1 {
      assert front == before + seq(m - 1, _ => true) + seq(0, _ => false);
      ReadsOffRun(before, m - 1, 0);
    } else {
      assert front == before;
    }
  }

  /** After a maximal run of m speech frames, the n-th frame of noise is still taken for speech
      if and only if n is at most the first maximum for m <= 6, and the second for a longer run. */
  lemma HangsOver(before: seq<bool>, m: nat, n: nat, max1: nat, max2: nat)
    requires m > 0 && n > 0 && (before != [] ==> !before[|before| - 1])
    ensures Decision(before + seq(m, _ => true) + seq(n, _ => false), max1, max2) > 0
            <==> n <= if m <= MAX_SPEECH_FRAMES then max1 else max2
  {
    ReadsOffRun(before, m, n);
    RunLaw(before + seq(m, _ => true) + seq(n, _ => false), max1, max2);
  }
}
