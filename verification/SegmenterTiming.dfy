/** When a segment starts and when it ends, from the marks of the frames alone. */
module SegmenterTiming {
  import opened Segmenter

  // ---------------------------------------------------------------- the observable history

  /** A segment is open: the last start that the callbacks have announced has not been answered by silence. */
  predicate Talking(input: seq<Marked>) { Follow(Run(input).log, Closed) == Open }

  /** How many frames came since the last start or end, the padding included. */
  function Since(input: seq<Marked>): nat {
    if input == [] then 40
    else
      var front := input[..|input| - 1];
      if Talking(input) != Talking(front) then 0 else Since(front) + 1
  }

  /** How many of the last w frames are voiced. The padding before the first frame is not. */
  function Voiced(input: seq<Marked>, w: nat): (n: nat)
    ensures n <= w
  {
    if input == [] || w == 0 then 0
    else Voiced(input[..|input| - 1], w - 1) + if input[|input| - 1].voiced then 1 else 0
  }

  /** How many frames are looked at when one more comes in: those since the last start or end, but at most forty. */
  function Window(front: seq<Marked>): nat { if Since(front) + 1 < 40 then Since(front) + 1 else 40 }

  // ---------------------------------------------------------------- the ring is the window

  lemma TalkingIs(input: seq<Marked>)
    ensures Talking(input) == Run(input).triggered
  {
    hide Run, Follow;
    CallbacksAlternate(input);
  }

  lemma RunStep(front: seq<Marked>, x: Marked)
    ensures Run(front + [x]) == Process(Run(front), x)
  {
    hide Process;
    assert (front + [x])[..|front|] == front;
  }

  lemma SinceStep(front: seq<Marked>, x: Marked)
    ensures Since(front + [x]) == if Talking(front + [x]) != Talking(front) then 0 else Since(front) + 1
  {
    hide Talking;
    assert (front + [x])[..|front|] == front;
  }

  lemma VoicedStep(front: seq<Marked>, x: Marked, w: nat)
    requires w > 0
    ensures Voiced(front + [x], w) == Voiced(front, w - 1) + if x.voiced then 1 else 0
  {
    assert (front + [x])[..|front|] == front;
  }

  /** A frame turns the state over exactly if it empties the ring. */
  lemma ProcessRing(s: State, x: Marked)
    ensures
      var s' := Process(s, x);
      if s'.triggered != s.triggered then s'.ring == [] else s'.ring == Push(s.ring, x)
  {
    hide Push, Count, Exceeds, Kept, Frames, Delivered;
  }

  lemma {:induction false} RingLength(input: seq<Marked>)
    ensures |Run(input).ring| == if Since(input) < 40 then Since(input) else 40
  {
    hide Process, Push, Talking, Padding;
    if input == [] {
    } else {
      var front, x := input[..|input| - 1], input[|input| - 1];
      assert input == front + [x];
      RingLength(front);
      RunStep(front, x);
      SinceStep(front, x);
      TalkingIs(front);
      TalkingIs(input);
      ProcessRing(Run(front), x);
      PushLength(Run(front).ring, x);
    }
  }

  lemma PushLength(ring: seq<Marked>, x: Marked)
    requires |ring| <= 40
    ensures |Push(ring, x)| == if |ring| == 40 then 40 else |ring| + 1
  {
  }

  /** The last k frames, the padding before the input included. */
  function Last(input: seq<Marked>, k: nat): seq<Marked>
    requires k <= 40 + |input|
  {
    (Padding() + input)[40 + |input| - k..]
  }

  lemma RingIsLast(front: seq<Marked>, x: Marked)
    ensures Window(front) <= 40 + |front| + 1 && Push(Run(front).ring, x) == Last(front + [x], Window(front))
  {
    hide Run, Since, Explains, Padding, Push, Last;
    var l := RunExplained(front);
    var all, ring := Padding() + front, Run(front).ring;
    RingLength(front);
    RingIsSuffix(l, all, Run(front));
    PushIsSuffix(all, ring, x);
    LastIs(all, front, x, Window(front));
  }

  lemma LastIs(all: seq<Marked>, front: seq<Marked>, x: Marked, w: nat)
    requires all == Padding() + front && w <= |all| + 1
    ensures w <= 40 + |front| + 1 && (all + [x])[|all| + 1 - w..] == Last(front + [x], w)
  {
    hide Padding;
    assert all + [x] == Padding() + (front + [x]);
  }

  lemma RingIsSuffix(l: Layout, all: seq<Marked>, s: State)
    requires Explains(l, all, s)
    ensures |s.ring| <= 40 && |s.ring| <= |all| && s.ring == all[|all| - |s.ring|..]
    ensures !Exceeds(Count(s.ring, !s.triggered), |s.ring|)
  {
    hide Disjoint, ClosedLog, Delivered, Frames, Kept, Count, Exceeds;
  }

  /** What is counted in the ring are the marks of the last frames. */
  lemma {:induction false} CountIsVoiced(input: seq<Marked>, k: nat)
    requires k <= 40 + |input|
    ensures Count(Last(input, k), true) == Voiced(input, k)
  {
    hide Padding;
    if k == 0 {
      assert Last(input, k) == [];
    } else if input == [] {
      PaddingIs(k);
      CountOfPadding(k);
    } else {
      var front, x := input[..|input| - 1], input[|input| - 1];
      CountIsVoiced(front, k - 1);
      assert Last(input, k) == Last(front, k - 1) + [x];
      CountStep(Last(front, k - 1), x);
    }
  }

  lemma CountStep(r: seq<Marked>, x: Marked)
    ensures Count(r + [x], true) == Count(r, true) + if x.voiced then 1 else 0
  {
    assert (r + [x])[..|r|] == r;
  }

  lemma PaddingIs(k: nat)
    requires k <= 40
    ensures Last([], k) == seq(k, _ => Marked(MediaFrame([]), false))
  {
  }

  lemma {:induction false} CountOfBoth(r: seq<Marked>)
    ensures Count(r, true) + Count(r, false) == |r|
  {
    if r != [] {
      CountOfBoth(r[..|r| - 1]);
    }
  }

  // ---------------------------------------------------------------- the law of a start and an end

  lemma ProcessTurns(s: State, x: Marked)
    ensures
      var ring := Push(s.ring, x);
      Process(s, x).triggered != s.triggered <==> Exceeds(Count(ring, !s.triggered), |ring|)
  {
    hide Push, Count, Exceeds, Kept, Frames, Delivered;
  }

  /** Over any run: while no segment is open, a frame starts one if and only if more than 17 in 20 of the frames in the
      window are voiced; while one is open, a frame ends it if and only if more than 17 in 20 are not. */
  lemma TurnsExactly(front: seq<Marked>, x: Marked)
    ensures
      var w := Window(front);
      var v := Voiced(front + [x], w);
      && (!Talking(front) ==> (Talking(front + [x]) <==> 20 * v > 17 * w))
      && (Talking(front) ==> (!Talking(front + [x]) <==> 20 * (w - v) > 17 * w))
  {
    hide Run, Since, Voiced, Process, Push, Count, Follow, Last;
    TalkingIs(front);
    TalkingIs(front + [x]);
    RunStep(front, x);
    ProcessTurns(Run(front), x);
    RingIsLast(front, x);
    CountIsVoiced(front + [x], Window(front));
    CountOfBoth(Push(Run(front).ring, x));
    LastLength(front + [x], Window(front));
  }

  lemma LastLength(input: seq<Marked>, k: nat)
    requires k <= 40 + |input|
    ensures |Last(input, k)| == k
  {
  }

  /** A start announces itself and hands over the frames of the window, and nothing else is called. */
  lemma StartDelivers(front: seq<Marked>, x: Marked)
    requires !Talking(front) && Talking(front + [x])
    ensures Window(front) <= 41 + |front|
    ensures Run(front + [x]).log
            == Run(front).log + [SpeechStarted] + Delivered(Frames(Last(front + [x], Window(front))))
  {
    hide Run, Window, Push, Count, Exceeds, Follow, Last, Frames, Delivered, Kept;
    TalkingIs(front);
    TalkingIs(front + [x]);
    RunStep(front, x);
    RingIsLast(front, x);
  }

  // ---------------------------------------------------------------- what follows

  /** From the start state no segment opens before the thirty-fifth voiced frame. */
  lemma {:induction false} NoEarlyStart(input: seq<Marked>)
    requires Voiced(input, |input|) < 35
    ensures !Talking(input) && Since(input) >= 40
  {
    hide Run, Follow;
    if input == [] {
      TalkingIs([]);
      StartIsQuiet();
    } else {
      var front, x := input[..|input| - 1], input[|input| - 1];
      assert input == front + [x];
      NoEarlyStart(front);
      TurnsExactly(front, x);
      SinceStep(front, x);
      VoicedAll(input, Window(front));
    }
  }

  lemma StartIsQuiet()
    ensures !Run([]).triggered
  {
  }

  lemma VoicedAll(input: seq<Marked>, w: nat)
    ensures Voiced(input, w) <= Voiced(input, |input|)
  {
  }

  /** The thirty-fifth of thirty-five voiced frames in a row opens the first segment. */
  lemma StartsInTime(input: seq<Marked>)
    requires |input| == 35 && forall i | 0 <= i < 35 :: input[i].voiced
    ensures !Talking(input[..34]) && Talking(input)
  {
    hide Run, Follow, Since;
    var front, x := input[..34], input[34];
    assert input == front + [x];
    AllVoiced(front, 34);
    AllVoiced(input, 40);
    NoEarlyStart(front);
    TurnsExactly(front, x);
  }

  lemma {:induction false} AllVoiced(input: seq<Marked>, w: nat)
    requires w >= |input| && forall i | 0 <= i < |input| :: input[i].voiced
    ensures Voiced(input, w) == |input|
  {
    if input != [] {
      AllVoiced(input[..|input| - 1], w - 1);
    }
  }

  /** The window of the state before a frame has not exceeded the threshold. */
  lemma NotYet(front: seq<Marked>)
    ensures
      var w := if Since(front) < 40 then Since(front) else 40;
      var v := Voiced(front, w);
      w <= 40 + |front| && 20 * (if Talking(front) then w - v else v) <= 17 * w
  {
    hide Run, Since, Voiced, Explains, Count, Follow, Padding;
    var l := RunExplained(front);
    RingLength(front);
    TalkingIs(front);
    RingIsSuffix(l, Padding() + front, Run(front));
    var k := |Run(front).ring|;
    CountIsVoiced(front, k);
    CountOfBoth(Run(front).ring);
  }

  /** An unvoiced frame starts no segment, and a voiced one ends none. */
  lemma RightKind(front: seq<Marked>, x: Marked)
    ensures !x.voiced && !Talking(front) ==> !Talking(front + [x])
    ensures x.voiced && Talking(front) ==> Talking(front + [x])
  {
    hide Since, Talking;
    NotYet(front);
    TurnsExactly(front, x);
    VoicedStep(front, x, Window(front));
    OneFewer(front, Window(front) - 1);
  }

  lemma {:induction false} OneFewer(input: seq<Marked>, w: nat)
    ensures Voiced(input, w) <= Voiced(input, w + 1) <= Voiced(input, w) + 1
  {
    if input != [] && w > 0 {
      OneFewer(input[..|input| - 1], w - 1);
    }
  }

  /** After forty unvoiced frames in a row no segment is open, whatever came before. */
  lemma FortyEnd(front: seq<Marked>, tail: seq<Marked>)
    requires |tail| == 40 && forall i | 0 <= i < 40 :: !tail[i].voiced
    ensures !Talking(front + tail)
  {
    hide Talking;
    StillOpen(front, tail);
  }

  lemma {:induction false} StillOpen(front: seq<Marked>, tail: seq<Marked>)
    requires |tail| <= 40 && forall i | 0 <= i < |tail| :: !tail[i].voiced
    ensures Talking(front + tail) ==>
              |tail| < 40 && Since(front + tail) >= |tail| && Voiced(front + tail, |tail|) == 0
  {
    hide Talking, Since, Voiced;
    if tail == [] {
      NoneOfNone(front + tail);
    } else {
      var t, x := tail[..|tail| - 1], tail[|tail| - 1];
      assert front + tail == (front + t) + [x];
      StillOpen(front, t);
      RightKind(front + t, x);
      SinceStep(front + t, x);
      VoicedStep(front + t, x, |tail|);
      TurnsExactly(front + t, x);
    }
  }

  lemma NoneOfNone(input: seq<Marked>)
    ensures Voiced(input, 0) == 0
  {
  }
}
