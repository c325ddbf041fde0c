/** The playback queue of media_port.cpp: buffers go in whole, 160-sample frames come out. */
module Playback {

  const SAMPLES_PER_FRAME := 160

  /** The samples of a list of buffers, in order. */
  function Flatten(buffers: seq<seq<int>>): seq<int> {
    if buffers == [] then [] else buffers[0] + Flatten(buffers[1..])
  }

  lemma {:induction false} FlattenAppend(buffers: seq<seq<int>>, last: seq<int>)
    ensures Flatten(buffers + [last]) == Flatten(buffers) + last
  {
    if buffers == [] {
      assert [] + [last] == [last];
      assert Flatten([last]) == last + Flatten([]);
    } else {
      assert (buffers + [last])[1..] == buffers[1..] + [last];
      FlattenAppend(buffers[1..], last);
    }
  }

  function Zeros(n: nat): (z: seq<int>)
    ensures |z| == n && forall i | 0 <= i < n :: z[i] == 0
  {
    seq(n, _ => 0)
  }

  /** The frame buffer once its first c samples are copied. */
  function Filled(pending: seq<int>, c: nat): (b: seq<int>)
    requires c <= |pending| && c <= SAMPLES_PER_FRAME
    ensures |b| == SAMPLES_PER_FRAME
  {
    pending[..c] + Zeros(SAMPLES_PER_FRAME - c)
  }

  lemma FilledIs(pending: seq<int>, c: nat)
    requires c <= |pending| && c <= SAMPLES_PER_FRAME
    ensures Filled(pending, c) == pending[..c] + Zeros(SAMPLES_PER_FRAME - c)
    ensures Filled(pending, 0) == Zeros(SAMPLES_PER_FRAME)
  {
    assert pending[..0] == [];
  }

  lemma FlattenFirst(buffers: seq<seq<int>>)
    ensures Flatten(buffers) == if buffers == [] then [] else buffers[0] + Flatten(buffers[1..])
  {
  }

  /** The first c of the pending samples are in the frame; the others are still in the buffer and the queue. */
  predicate Copied(pending: seq<int>, c: nat, frame: seq<int>, buffer: seq<int>, at: nat, queue: seq<seq<int>>) {
    && c <= |pending| && c <= SAMPLES_PER_FRAME && at <= |buffer|
    && frame == Filled(pending, c) && pending[c..] == buffer[at..] + Flatten(queue)
  }

  lemma NoneCopied(buffer: seq<int>, at: nat, queue: seq<seq<int>>)
    requires at <= |buffer|
    ensures Copied(buffer[at..] + Flatten(queue), 0, Zeros(SAMPLES_PER_FRAME), buffer, at, queue)
  {
    hide Flatten, Zeros, Filled;
    var pending := buffer[at..] + Flatten(queue);
    FilledIs(pending, 0);
    assert pending[0..] == pending;
  }

  /** An exhausted buffer is replaced by the first of the queue; if there is none, everything is copied. */
  lemma Refill(pending: seq<int>, c: nat, frame: seq<int>, buffer: seq<int>, at: nat, queue: seq<seq<int>>)
    requires Copied(pending, c, frame, buffer, at, queue) && at == |buffer|
    ensures if queue == [] then c == |pending| else Copied(pending, c, frame, queue[0], 0, queue[1..])
  {
    hide Flatten, Filled;
    FlattenFirst(queue);
    assert buffer[at..] == [] && [] + Flatten(queue) == Flatten(queue);
    if queue != [] {
      assert queue[0][0..] == queue[0];
    }
  }

  lemma CopiedIs(pending: seq<int>, c: nat, frame: seq<int>, buffer: seq<int>, at: nat, queue: seq<seq<int>>)
    requires Copied(pending, c, frame, buffer, at, queue)
    ensures c <= |pending| && c <= SAMPLES_PER_FRAME && at <= |buffer|
    ensures frame == Filled(pending, c) && pending[c..] == buffer[at..] + Flatten(queue)
  {
  }

  /** Copying k more samples of the buffer. */
  lemma CopyPiece(pending: seq<int>, c: nat, frame: seq<int>, buffer: seq<int>, at: nat, queue: seq<seq<int>>, k: nat)
    requires Copied(pending, c, frame, buffer, at, queue) && c + k <= SAMPLES_PER_FRAME && at + k <= |buffer|
    ensures |frame| == SAMPLES_PER_FRAME
    ensures Copied(pending, c + k, frame[..c] + buffer[at..at + k] + frame[c + k..], buffer, at + k, queue)
  {
    var piece, rest := buffer[at..at + k], Flatten(queue);
    hide Flatten;
    assert buffer[at..] == piece + buffer[at + k..];
    assert pending == pending[..c] + (piece + buffer[at + k..] + rest);
    assert pending[..c + k] == pending[..c] + piece;
    assert pending[c + k..] == buffer[at + k..] + rest;
  }

  /** How many pending samples a frame takes. */
  function Taken(pending: seq<int>): (n: nat)
    ensures n <= |pending| && n <= SAMPLES_PER_FRAME
  {
    if |pending| < SAMPLES_PER_FRAME then |pending| else SAMPLES_PER_FRAME
  }

  // ---------------------------------------------------------------- what a run of calls does

  datatype Call = Add(audio: seq<int>) | Request | Clear

  /** What a run of calls has enqueued, what it has taken out, piece by piece, and what is left. */
  datatype Account = Account(enqueued: seq<int>, played: seq<seq<int>>, taken: seq<seq<int>>, pending: seq<int>)

  /** The account after a run of calls. */
  function Run(calls: seq<Call>): Account {
    if calls == [] then Account([], [], [], [])
    else
      var a := Run(calls[..|calls| - 1]);
      match calls[|calls| - 1]
      case Add(audio) => a.(enqueued := a.enqueued + audio, pending := a.pending + audio)
      case Request =>
        var n := Taken(a.pending);
        a.(played := a.played + [a.pending[..n] + Zeros(SAMPLES_PER_FRAME - n)],
           taken := a.taken + [a.pending[..n]], pending := a.pending[n..])
      case Clear => a.(taken := a.taken + [a.pending], pending := [])
  }

  lemma RunNext(calls: seq<Call>, call: Call)
    ensures
      var a, b := Run(calls), Run(calls + [call]);
      match call
      case Add(audio) => b == a.(enqueued := a.enqueued + audio, pending := a.pending + audio)
      case Request =>
        var n := Taken(a.pending);
        b == a.(played := a.played + [a.pending[..n] + Zeros(SAMPLES_PER_FRAME - n)],
                taken := a.taken + [a.pending[..n]], pending := a.pending[n..])
      case Clear => b == a.(taken := a.taken + [a.pending], pending := [])
  {
    assert (calls + [call])[..|calls|] == calls;
  }

  /** What was taken out, followed by what is pending, is what was put in; every frame played is
      160 samples long. */
  lemma {:induction false} Conservation(calls: seq<Call>)
    ensures var a := Run(calls);
            && Flatten(a.taken) + a.pending == a.enqueued
            && forall i | 0 <= i < |a.played| :: |a.played[i]| == SAMPLES_PER_FRAME
  {
    if calls != [] {
      Conservation(calls[..|calls| - 1]);
      var a := Run(calls[..|calls| - 1]);
      match calls[|calls| - 1] {
        case Add(audio) =>
          assert Flatten(a.taken) + (a.pending + audio) == a.enqueued + audio;
        case Request =>
          var n := Taken(a.pending);
          FlattenAppend(a.taken, a.pending[..n]);
          assert a.pending == a.pending[..n] + a.pending[n..];
        case Clear =>
          FlattenAppend(a.taken, a.pending);
      }
    }
  }

  /** Without a clear, the frames played are the enqueued samples in order, padded with zeros only
      where the queue ran dry: dropping each frame's padding leaves a prefix of what was enqueued. */
  lemma {:induction false} PlaysInOrder(calls: seq<Call>)
    requires Clear !in calls
    ensures var a := Run(calls);
            && |a.played| == |a.taken| && Flatten(a.taken) <= a.enqueued
            && forall i | 0 <= i < |a.played| ::
                 && |a.taken[i]| <= SAMPLES_PER_FRAME
                 && a.played[i] == a.taken[i] + Zeros(SAMPLES_PER_FRAME - |a.taken[i]|)
  {
    Conservation(calls);
    if calls != [] {
      PlaysInOrder(calls[..|calls| - 1]);
      assert calls[|calls| - 1] in calls;
    }
  }

  // ---------------------------------------------------------------- the port

  lemma TakenIs(pending: seq<int>, c: nat)
    requires c <= |pending| && c <= SAMPLES_PER_FRAME && (c == |pending| || c == SAMPLES_PER_FRAME)
    ensures Taken(pending) == c
  {
  }

  class MediaPort {
    var audioQueue: seq<seq<int>>
    var pcmBuffer: seq<int>
    var pcmBufferIndex: nat
    /** The calls made so far. */
    ghost var history: seq<Call>

    constructor ()
      ensures Valid() && history == [] && Pending() == []
    {
      audioQueue, pcmBuffer, pcmBufferIndex := [], [], 0;
      history := [];
    }

    /** The samples still to be played, in order. */
    ghost function Pending(): seq<int>
      requires pcmBufferIndex <= |pcmBuffer|
      reads this
    {
      pcmBuffer[pcmBufferIndex..] + Flatten(audioQueue)
    }

    /** What is pending is what the account of the calls made says. */
    ghost predicate Valid()
      reads this
    {
      pcmBufferIndex <= |pcmBuffer| && Pending() == Run(history).pending
    }

    method AddToQueue(audioData: seq<int>)
      requires Valid()
      modifies this
      ensures Valid() && history == old(history) + [Add(audioData)]
      ensures Pending() == old(Pending()) + audioData
    {
      hide Run;
      FlattenAppend(audioQueue, audioData);
      RunNext(history, Add(audioData));
      audioQueue := audioQueue + [audioData];
      history := history + [Add(audioData)];
    }

    /** The loop of onFrameRequested: the pending samples are copied into the frame until it is full or the queue is
        empty. */
    method FillFrame() returns (tempBuffer: seq<int>, ghost copied: nat)
      requires pcmBufferIndex <= |pcmBuffer|
      modifies this`pcmBuffer, this`pcmBufferIndex, this`audioQueue
      ensures pcmBufferIndex <= |pcmBuffer|
      ensures copied <= |old(Pending())| && copied <= SAMPLES_PER_FRAME
      ensures copied == |old(Pending())| || copied == SAMPLES_PER_FRAME
      ensures tempBuffer == Filled(old(Pending()), copied) && Pending() == old(Pending())[copied..]
    {
      hide Copied, Filled, Zeros, Flatten;
      ghost var pending := Pending();
      NoneCopied(pcmBuffer, pcmBufferIndex, audioQueue);
      var requiredSamples := 320 / 2;
      tempBuffer := Zeros(requiredSamples);
      var samplesCopied: nat := 0;
      while samplesCopied < requiredSamples
        invariant samplesCopied <= requiredSamples == SAMPLES_PER_FRAME && pcmBufferIndex <= |pcmBuffer|
        invariant Copied(pending, samplesCopied, tempBuffer, pcmBuffer, pcmBufferIndex, audioQueue)
        decreases requiredSamples - samplesCopied + |audioQueue|
      {
        if pcmBufferIndex >= |pcmBuffer| {
          Refill(pending, samplesCopied, tempBuffer, pcmBuffer, pcmBufferIndex, audioQueue);
          if audioQueue == [] {
            break;
          }
          pcmBuffer := audioQueue[0];
          audioQueue := audioQueue[1..];
          pcmBufferIndex := 0;
        }
        var remainingSamples := requiredSamples - samplesCopied;
        var availableSamples := |pcmBuffer| - pcmBufferIndex;
        var samplesToCopy := if remainingSamples < availableSamples then remainingSamples else availableSamples;
        CopyPiece(pending, samplesCopied, tempBuffer, pcmBuffer, pcmBufferIndex, audioQueue, samplesToCopy);
        tempBuffer := tempBuffer[..samplesCopied] + pcmBuffer[pcmBufferIndex..pcmBufferIndex + samplesToCopy]
        + tempBuffer[samplesCopied + samplesToCopy..];
        samplesCopied := samplesCopied + samplesToCopy;
        pcmBufferIndex := pcmBufferIndex + samplesToCopy;
      }
      CopiedIs(pending, samplesCopied, tempBuffer, pcmBuffer, pcmBufferIndex, audioQueue);
      copied := samplesCopied;
    }

    /** A frame is always 160 samples: the pending ones in order, zeros only as a suffix and only
        when nothing is left pending. */
    method OnFrameRequested() returns (frame: seq<int>)
      requires Valid()
      modifies this
      ensures Valid() && history == old(history) + [Request]
      ensures var n := Taken(old(Pending()));
              && frame == old(Pending())[..n] + Zeros(SAMPLES_PER_FRAME - n)
              && Pending() == old(Pending())[n..]
      ensures Run(history).played == old(Run(history).played) + [frame]
    {
      hide Filled, Zeros, Run, Taken;
      ghost var pending := Pending();
      ghost var copied;
      frame, copied := FillFrame();
      FilledIs(pending, copied);
      TakenIs(pending, copied);
      RunNext(history, Request);
      history := history + [Request];
    }

    method ClearQueue()
      requires Valid()
      modifies this
      ensures Valid() && history == old(history) + [Clear] && Pending() == []
    {
      hide Run;
      RunNext(history, Clear);
      audioQueue := [];
      pcmBuffer := [];
      pcmBufferIndex := 0;
      history := history + [Clear];
    }
  }
}
