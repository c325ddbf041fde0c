/** The padded trigger/release segmenter of src/vad.cpp: which input frames reach which callback. */
module Segmenter {

  const MAX_BUFFER_SIZE := 10000
  const PADDING_FRAMES := 40 // PADDING_MS / FRAME_DURATION_MS

  datatype MediaFrame = MediaFrame(buf: seq<int>)

  /** A frame with the decision of the voice-activity detector. */
  datatype Marked = Marked(frame: MediaFrame, voiced: bool)

  /** The callbacks, in the order they are called. */
  datatype Event = SpeechStarted | VoiceFrame(frame: MediaFrame) | VoiceSegment(frames: seq<MediaFrame>) | Silence

  // ---------------------------------------------------------------- the threshold

  /** `n > VAD_RATIO * size`, where VAD_RATIO is 0.85. */
  predicate Exceeds(n: int, size: int) { 20 * n > 17 * size }

  /** The float nearest to 0.85. */
  const VAD_RATIO: real := 14260634.0 / 16777216.0

  function Distance(x: real, y: real): real { if x < y then y - x else x - y }

  ghost predicate NoFurtherThanIntegers(rounded: real, exact: real) {
    forall i: int :: Distance(rounded, exact) <= DistanceToInt(i, exact)
  }

  function DistanceToInt(i: int, x: real): real { Distance(i as real, x) }

  /** The comparison in single precision is the exact one: whatever float `product` the
      multiplication rounds to, it is no further from the true product than any integer is. */
  lemma RatioIsExact(n: int, size: int, product: real)
    requires 0 <= size <= PADDING_FRAMES
    requires Distance(product, VAD_RATIO * size as real) <= 0.01
    requires NoFurtherThanIntegers(product, VAD_RATIO * size as real)
    ensures n as real > product <==> Exceeds(n, size)
  {
    var p := VAD_RATIO * size as real;
    var whole := 17 * size / 20;
    ProductBrackets(size, whole);
    assert Distance(product, p) <= DistanceToInt(whole, p);
    assert whole as real <= product < (whole + 1) as real;
    if n > whole {
      assert n as real >= (whole + 1) as real;
    } else {
      assert n as real <= whole as real;
    }
  }

  lemma ProductBrackets(size: int, whole: int)
    requires 0 <= size <= PADDING_FRAMES && 20 * whole <= 17 * size <= 20 * whole + 19
    ensures whole as real <= VAD_RATIO * size as real <= whole as real + 0.96
  {
    var s, w := size as real, whole as real;
    assert 20.0 * w <= 17.0 * s <= 20.0 * w + 19.0 && s <= 40.0;
    assert 0.85 * s <= VAD_RATIO * s <= 0.85 * s + 0.01;
  }

  // ---------------------------------------------------------------- one frame

  datatype State = State(ring: seq<Marked>, voice: seq<MediaFrame>, triggered: bool, log: seq<Event>)

  function Count(ring: seq<Marked>, voiced: bool): (n: nat)
    ensures n <= |ring|
  {
    if ring == [] then 0
    else Count(ring[..|ring| - 1], voiced) + if ring[|ring| - 1].voiced == voiced then 1 else 0
  }

  function Frames(ring: seq<Marked>): (fs: seq<MediaFrame>)
    ensures |fs| == |ring| && forall i | 0 <= i < |ring| :: fs[i] == ring[i].frame
  {
    seq(|ring|, i requires 0 <= i < |ring| => ring[i].frame)
  }

  function Delivered(fs: seq<MediaFrame>): (es: seq<Event>)
    ensures |es| == |fs| && forall i | 0 <= i < |fs| :: es[i] == VoiceFrame(fs[i])
  {
    seq(|fs|, i requires 0 <= i < |fs| => VoiceFrame(fs[i]))
  }

  /** The part of a segment that is kept for its end. */
  function Kept(fs: seq<MediaFrame>): (k: seq<MediaFrame>)
    ensures k <= fs
  {
    if |fs| <= MAX_BUFFER_SIZE then fs else fs[..MAX_BUFFER_SIZE]
  }

  /** The ring after a frame comes in. */
  function Push(ring: seq<Marked>, x: Marked): (r: seq<Marked>)
    ensures |r| >= 1
  {
    if |ring + [x]| > PADDING_FRAMES then (ring + [x])[1..] else ring + [x]
  }

  /** What processVAD does. */
  function Process(s: State, x: Marked): State {
    var ring := Push(s.ring, x);
    if !s.triggered then
      if Exceeds(Count(ring, true), |ring|) then
        State([], Kept(Frames(ring)), true, s.log + [SpeechStarted] + Delivered(Frames(ring)))
      else s.(ring := ring)
    else
      var voice := Kept(s.voice + [x.frame]);
      var log := s.log + [VoiceFrame(x.frame)];
      if Exceeds(Count(ring, false), |ring|) then
        State([], [], false, log + (if voice != [] then [VoiceSegment(voice)] else []) + [Silence])
      else State(ring, voice, true, log)
  }

  /** The ring starts with forty unvoiced padding frames. */
  function Padding(): (p: seq<Marked>)
    ensures |p| == PADDING_FRAMES
  {
    seq(PADDING_FRAMES, _ => Marked(MediaFrame([]), false))
  }

  function Start(): State { State(Padding(), [], false, []) }

  /** The state after a run of frames. */
  function Run(input: seq<Marked>): State {
    if input == [] then Start() else Process(Run(input[..|input| - 1]), input[|input| - 1])
  }

  // ---------------------------------------------------------------- the account of a run

  /** A block of consecutive positions [from, to). */
  datatype Span = Span(from: nat, to: nat)

  /** How a run has cut its input: the closed segments, and where the open segment, or the ring
      when there is none, begins. */
  datatype Layout = Layout(spans: seq<Span>, mark: nat)

  function EndOf(spans: seq<Span>): nat { if spans == [] then 0 else spans[|spans| - 1].to }

  /** Non-empty blocks, in order, none overlapping another. */
  predicate Disjoint(spans: seq<Span>) {
    && (forall i | 0 <= i < |spans| :: spans[i].from < spans[i].to)
    && (forall i, j | 0 <= i < j < |spans| :: spans[i].to <= spans[j].from)
  }

  /** The callbacks of one segment: start, every frame, the first ten thousand frames, silence. */
  function SegmentLog(fs: seq<MediaFrame>): seq<Event> {
    [SpeechStarted] + Delivered(fs) + [VoiceSegment(Kept(fs)), Silence]
  }

  /** The callbacks of the closed segments, one after the other. */
  function ClosedLog(input: seq<Marked>, spans: seq<Span>): seq<Event>
    requires forall i | 0 <= i < |spans| :: spans[i].from <= spans[i].to <= |input|
  {
    if spans == [] then []
    else
      var last := spans[|spans| - 1];
      ClosedLog(input, spans[..|spans| - 1]) + SegmentLog(Frames(input[last.from..last.to]))
  }

  /** The layout accounts for the state. `all` is the padding followed by the input. */
  predicate Explains(l: Layout, all: seq<Marked>, s: State) {
    && Disjoint(l.spans) && EndOf(l.spans) <= l.mark <= |all|
    && (forall i | 0 <= i < |l.spans| :: l.spans[i].to <= |all|)
    && |s.ring| <= PADDING_FRAMES && |s.ring| <= |all| - EndOf(l.spans)
    && s.ring == all[|all| - |s.ring|..]
    && if s.triggered then
         && l.mark < |all|
         && s.voice == Kept(Frames(all[l.mark..]))
         && s.log == ClosedLog(all, l.spans) + [SpeechStarted] + Delivered(Frames(all[l.mark..]))
         && !Exceeds(Count(s.ring, false), |s.ring|)
       else
         && l.mark == |all| - |s.ring|
         && (l.mark == EndOf(l.spans) || |s.ring| == PADDING_FRAMES)
         && s.log == ClosedLog(all, l.spans)
         && !Exceeds(Count(s.ring, true), |s.ring|)
  }

  /** The layout after one more frame. */
  function NextLayout(l: Layout, n: nat, s: State, x: Marked): Layout {
    var ring := Push(s.ring, x);
    if s.triggered then
      if Exceeds(Count(ring, false), |ring|) then Layout(l.spans + [Span(l.mark, n + 1)], n + 1) else l
    else if |ring| <= n + 1 then Layout(l.spans, n + 1 - |ring|)
    else l
  }

  lemma {:induction false} ClosedLogExtends(all: seq<Marked>, x: Marked, spans: seq<Span>)
    requires forall i | 0 <= i < |spans| :: spans[i].from <= spans[i].to <= |all|
    ensures ClosedLog(all + [x], spans) == ClosedLog(all, spans)
  {
    if spans != [] {
      var last := spans[|spans| - 1];
      ClosedLogExtends(all, x, spans[..|spans| - 1]);
      assert (all + [x])[last.from..last.to] == all[last.from..last.to];
    }
  }

  lemma FramesExtend(fs: seq<Marked>, x: Marked)
    ensures Frames(fs + [x]) == Frames(fs) + [x.frame]
    ensures Delivered(Frames(fs) + [x.frame]) == Delivered(Frames(fs)) + [VoiceFrame(x.frame)]
    ensures Kept(Kept(Frames(fs)) + [x.frame]) == Kept(Frames(fs) + [x.frame])
  {
  }

  lemma PushIsSuffix(all: seq<Marked>, ring: seq<Marked>, x: Marked)
    requires |ring| <= |all| && ring == all[|all| - |ring|..] && |ring| <= PADDING_FRAMES
    ensures var r := Push(ring, x);
            && |r| <= |all| + 1 && |r| <= PADDING_FRAMES && r == (all + [x])[|all| + 1 - |r|..]
            && |r| == if |ring| == PADDING_FRAMES then PADDING_FRAMES else |ring| + 1
  {
  }

  /** One frame keeps the account. */
  lemma StepExplained(l: Layout, all: seq<Marked>, s: State, x: Marked)
    requires Explains(l, all, s)
    ensures Explains(NextLayout(l, |all|, s, x), all + [x], Process(s, x))
  {
    hide Explains, Process, NextLayout;
    if s.triggered {
      TalkingStep(l, all, s, x);
    } else {
      QuietStep(l, all, s, x);
    }
  }

  lemma QuietStep(l: Layout, all: seq<Marked>, s: State, x: Marked)
    requires Explains(l, all, s) && !s.triggered
    ensures Explains(NextLayout(l, |all|, s, x), all + [x], Process(s, x))
  {
    hide Push, Kept, Count, Exceeds, Frames, Delivered, ClosedLog;
    var all', r := all + [x], Push(s.ring, x);
    PushIsSuffix(all, s.ring, x);
    ClosedLogExtends(all, x, l.spans);
    NothingExceeds();
    var l', s' := NextLayout(l, |all|, s, x), Process(s, x);
    assert l'.mark == |all'| - |r| && r == all'[l'.mark..];
  }

  /** While a segment is open the log and the buffer grow with it. */
  lemma SegmentGrows(l: Layout, all: seq<Marked>, s: State, x: Marked)
    requires Explains(l, all, s) && s.triggered
    ensures var fs := Frames((all + [x])[l.mark..]);
            && fs != []
            && s.log + [VoiceFrame(x.frame)] == ClosedLog(all + [x], l.spans) + ([SpeechStarted] + Delivered(fs))
            && Kept(s.voice + [x.frame]) == Kept(fs)
  {
    hide Kept, Count, Exceeds, Frames, Delivered, ClosedLog;
    ClosedLogExtends(all, x, l.spans);
    assert (all + [x])[l.mark..] == all[l.mark..] + [x];
    FramesExtend(all[l.mark..], x);
  }

  lemma ClosedLogSnoc(all: seq<Marked>, spans: seq<Span>, last: Span)
    requires forall i | 0 <= i < |spans| :: spans[i].from <= spans[i].to <= |all|
    requires last.from <= last.to <= |all|
    ensures ClosedLog(all, spans + [last]) == ClosedLog(all, spans) + SegmentLog(Frames(all[last.from..last.to]))
  {
  }

  lemma ReleasedLog(s: State, x: Marked)
    requires s.triggered && Exceeds(Count(Push(s.ring, x), false), |Push(s.ring, x)|)
    ensures Process(s, x).log == (s.log + [VoiceFrame(x.frame)]) + [VoiceSegment(Kept(s.voice + [x.frame])), Silence]
  {
  }

  lemma SpansWithin(l: Layout, all: seq<Marked>, s: State)
    requires Explains(l, all, s)
    ensures l.mark <= |all| && forall i | 0 <= i < |l.spans| :: l.spans[i].from <= l.spans[i].to <= |all|
  {
  }

  /** A segment that closes has logged exactly its own callbacks. */
  lemma ReleaseLog(l: Layout, all: seq<Marked>, s: State, x: Marked)
    requires Explains(l, all, s) && s.triggered
    requires Exceeds(Count(Push(s.ring, x), false), |Push(s.ring, x)|)
    ensures Process(s, x).log == ClosedLog(all + [x], l.spans + [Span(l.mark, |all| + 1)])
  {
    hide Push, Kept, Count, Exceeds, Frames, Delivered, ClosedLog, Process, Explains;
    SpansWithin(l, all, s);
    SegmentGrows(l, all, s, x);
    ReleasedLog(s, x);
    var all' := all + [x];
    var fs := Frames(all'[l.mark..]);
    ClosedLogSnoc(all', l.spans, Span(l.mark, |all'|));
    assert all'[l.mark..|all'|] == all'[l.mark..];
    Regroup(ClosedLog(all', l.spans), [SpeechStarted] + Delivered(fs), [VoiceSegment(Kept(fs)), Silence]);
  }

  lemma TalkingStep(l: Layout, all: seq<Marked>, s: State, x: Marked)
    requires Explains(l, all, s) && s.triggered
    ensures Explains(NextLayout(l, |all|, s, x), all + [x], Process(s, x))
  {
    hide Push, Kept, Count, Exceeds, Frames, Delivered, ClosedLog;
    PushIsSuffix(all, s.ring, x);
    NothingExceeds();
    if Exceeds(Count(Push(s.ring, x), false), |Push(s.ring, x)|) {
      ReleaseLog(l, all, s, x);
    } else {
      SegmentGrows(l, all, s, x);
    }
  }

  lemma Regroup(a: seq<Event>, b: seq<Event>, c: seq<Event>)
    ensures (a + b) + c == a + (b + c)
  {
  }

  lemma NothingExceeds()
    ensures Count([], true) == 0 && Count([], false) == 0 && !Exceeds(0, 0)
  {
  }

  lemma {:induction false} CountOfPadding(n: nat)
    ensures Count(seq(n, _ => Marked(MediaFrame([]), false)), true) == 0
  {
    if n > 0 {
      var r := seq(n, _ => Marked(MediaFrame([]), false));
      assert r[..n - 1] == seq(n - 1, _ => Marked(MediaFrame([]), false));
      CountOfPadding(n - 1);
    }
  }

  lemma StartExplained()
    ensures Explains(Layout([], 0), Padding() + [], Start())
  {
    assert Padding() + [] == Padding();
    CountOfPadding(PADDING_FRAMES);
    assert Padding() == seq(PADDING_FRAMES, _ => Marked(MediaFrame([]), false));
  }

  /** Conservation over any run. The padding and the input are cut into disjoint, non-empty,
      consecutive blocks, in order; the callbacks are, block by block, the start of speech, every
      frame of the block once and in order, the block's first ten thousand frames, silence; a last
      block may still be open. What lies outside the blocks is in the ring, if it is recent enough,
      and otherwise dropped. After every frame at most 17 in 20 of the ring are of the kind that
      would end the present state. */
  lemma {:induction false} RunExplained(input: seq<Marked>) returns (l: Layout)
    ensures Explains(l, Padding() + input, Run(input))
  {
    hide Explains, Process, NextLayout, Padding;
    if input == [] {
      l := Layout([], 0);
      StartExplained();
    } else {
      var front, x := input[..|input| - 1], input[|input| - 1];
      var l' := RunExplained(front);
      StepExplained(l', Padding() + front, Run(front), x);
      assert Padding() + front + [x] == Padding() + input;
      l := NextLayout(l', |Padding() + front|, Run(front), x);
    }
  }

  // ---------------------------------------------------------------- start and end alternate

  /** Whether a segment is open after a log: its last start has not been answered by silence. None
      if the log has an end without a start, a start within a segment, or a voice frame outside one. */
  datatype Phase = Closed | Open | Broken

  function Advance(e: Event, from: Phase): Phase {
    match (e, from)
    case (SpeechStarted, Closed) => Open
    case (VoiceFrame(_), Open) => Open
    case (VoiceSegment(_), Open) => Open
    case (Silence, Open) => Closed
    case _ => Broken
  }

  function Follow(log: seq<Event>, from: Phase): Phase {
    if log == [] then from else Advance(log[|log| - 1], Follow(log[..|log| - 1], from))
  }

  lemma FollowOne(log: seq<Event>, e: Event, from: Phase)
    ensures Follow(log + [e], from) == Advance(e, Follow(log, from))
  {
  }

  lemma {:induction false} FollowDelivered(log: seq<Event>, fs: seq<MediaFrame>, from: Phase)
    requires Follow(log, from) == Open
    ensures Follow(log + Delivered(fs), from) == Open
  {
    if fs == [] {
      assert log + Delivered(fs) == log;
    } else {
      var n := |fs| - 1;
      FollowDelivered(log, fs[..n], from);
      FollowOne(log + Delivered(fs[..n]), VoiceFrame(fs[n]), from);
      assert log + Delivered(fs) == (log + Delivered(fs[..n])) + [VoiceFrame(fs[n])];
    }
  }

  /** In every run the callbacks alternate: no segment starts inside another or ends without having
      started, and frames and segments are only delivered between a start and its end. */
  lemma {:induction false} CallbacksAlternate(input: seq<Marked>)
    ensures Follow(Run(input).log, Closed) == if Run(input).triggered then Open else Closed
  {
    if input != [] {
      CallbacksAlternate(input[..|input| - 1]);
      FollowProcess(Run(input[..|input| - 1]), input[|input| - 1]);
    }
  }

  lemma FollowProcess(s: State, x: Marked)
    requires Follow(s.log, Closed) == if s.triggered then Open else Closed
    ensures Follow(Process(s, x).log, Closed) == if Process(s, x).triggered then Open else Closed
  {
    var ring := Push(s.ring, x);
    hide Push, Count, Exceeds, Kept, Frames, Delivered, Follow;
    if s.triggered {
      var voice := Kept(s.voice + [x.frame]);
      var log := s.log + [VoiceFrame(x.frame)];
      FollowOne(s.log, VoiceFrame(x.frame), Closed);
      FollowOne(log, VoiceSegment(voice), Closed);
      FollowOne(log, Silence, Closed);
      FollowOne(log + [VoiceSegment(voice)], Silence, Closed);
      assert log + [] == log;
    } else {
      FollowOne(s.log, SpeechStarted, Closed);
      FollowDelivered(s.log + [SpeechStarted], Frames(ring), Closed);
    }
  }

  // ---------------------------------------------------------------- the class

  class VAD {
    var vadRingBuffer: seq<Marked>
    var voiceBuffer: seq<MediaFrame>
    var triggered: bool
    /** The callbacks called so far. */
    ghost var log: seq<Event>

    ghost function Current(): State
      reads this
    {
      State(vadRingBuffer, voiceBuffer, triggered, log)
    }

    ghost predicate Valid()
      reads this
    {
      |vadRingBuffer| <= PADDING_FRAMES && |voiceBuffer| <= MAX_BUFFER_SIZE
    }

    constructor ()
      ensures Valid() && Current() == Start()
    {
      vadRingBuffer, voiceBuffer, triggered, log := Padding(), [], false, [];
    }

    method CountIf(voiced: bool) returns (n: nat)
      ensures n == Count(vadRingBuffer, voiced)
    {
      n := 0;
      for i := 0 to |vadRingBuffer|
        invariant n == Count(vadRingBuffer[..i], voiced)
      {
        if vadRingBuffer[i].voiced == voiced {
          n := n + 1;
        }
        assert vadRingBuffer[..i + 1][..i] == vadRingBuffer[..i];
      }
      assert vadRingBuffer[..|vadRingBuffer|] == vadRingBuffer;
    }

    method ProcessVoicedFrame(frame: MediaFrame)
      requires Valid()
      modifies `voiceBuffer, `log
      ensures Valid() && voiceBuffer == Kept(old(voiceBuffer) + [frame])
      ensures log == old(log) + [VoiceFrame(frame)]
    {
      if |voiceBuffer| < MAX_BUFFER_SIZE {
        voiceBuffer := voiceBuffer + [frame];
      }
      log := log + [VoiceFrame(frame)];
    }

    /** The loop that hands over the ring when a segment starts. */
    method ProcessRing()
      requires Valid() && voiceBuffer == []
      modifies `voiceBuffer, `log
      ensures Valid() && voiceBuffer == Kept(Frames(vadRingBuffer))
      ensures log == old(log) + Delivered(Frames(vadRingBuffer))
    {
      var ring := vadRingBuffer;
      for i := 0 to |ring|
        invariant Valid() && voiceBuffer == Kept(Frames(ring[..i]))
        invariant log == old(log) + Delivered(Frames(ring[..i]))
      {
        ProcessVoicedFrame(ring[i].frame);
        assert ring[..i + 1] == ring[..i] + [ring[i]];
        FramesExtend(ring[..i], ring[i]);
      }
      assert ring[..|ring|] == ring;
    }

    method PushRing(x: Marked)
      requires Valid()
      modifies `vadRingBuffer
      ensures Valid() && vadRingBuffer == Push(old(vadRingBuffer), x)
    {
      vadRingBuffer := vadRingBuffer + [x];
      if |vadRingBuffer| > PADDING_FRAMES {
        vadRingBuffer := vadRingBuffer[1..];
      }
    }

    method ProcessVAD(frame: MediaFrame, isVoiced: bool)
      requires Valid()
      modifies this
      ensures Valid() && Current() == Process(old(Current()), Marked(frame, isVoiced))
    {
      hide Push, Count, Kept, Frames, Delivered;
      if !triggered {
        PushRing(Marked(frame, isVoiced));
        var numVoiced := CountIf(true);
        if Exceeds(numVoiced, |vadRingBuffer|) {
          triggered := true;
          voiceBuffer := [];
          log := log + [SpeechStarted];
          ProcessRing();
          vadRingBuffer := [];
        }
      } else {
        ProcessVoicedFrame(frame);
        PushRing(Marked(frame, isVoiced));
        var numUnvoiced := CountIf(false);
        if Exceeds(numUnvoiced, |vadRingBuffer|) {
          if voiceBuffer != [] {
            log := log + [VoiceSegment(voiceBuffer)];
          }
          triggered := false;
          log := log + [Silence];
          voiceBuffer := [];
          vadRingBuffer := [];
        }
      }
    }

    /** An empty frame is ignored; the decision of the detector is a parameter. */
    method ProcessFrame(frame: MediaFrame, isVoiced: bool)
      requires Valid()
      modifies this
      ensures Valid()
      ensures Current() == if frame.buf == [] then old(Current())
                           else Process(old(Current()), Marked(frame, isVoiced))
    {
      if frame.buf == [] {
        return;
      }
      ProcessVAD(frame, isVoiced);
    }
  }
}
