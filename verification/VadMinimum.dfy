/** WebRtcVad_FindMinimum on its arrays: the ageing loop that shifts in place, the unrolled
    search tree and the shifting insertion, each proved against VadTracker. */
module VadMinimum {
  import opened FixedPoint
  import opened VadTracker

  function Zip(values: seq<int>, ages: seq<int>): (w: seq<Entry>)
    requires |values| == |ages|
    ensures |w| == |values|
    ensures forall i | 0 <= i < |w| :: w[i] == Entry(values[i], ages[i])
  {
    seq(|values|, i requires 0 <= i < |values| => Entry(values[i], ages[i]))
  }

  /** The sixteen entries at an offset of the two arrays. */
  ghost function Window(low: array<int>, age: array<int>, offset: nat): (w: seq<Entry>)
    requires offset + SLOTS <= low.Length && offset + SLOTS <= age.Length
    reads low, age
    ensures |w| == SLOTS
  {
    Zip(low[offset..offset + SLOTS], age[offset..offset + SLOTS])
  }

  /** Outside the window nothing has changed. */
  twostate predicate OnlyWindow(low: array<int>, age: array<int>, offset: nat)
    requires low.Length == age.Length
    reads low, age
  {
    forall i | 0 <= i < low.Length && !(offset <= i < offset + SLOTS) ::
      low[i] == old(low[i]) && age[i] == old(age[i])
  }

  /** Write one slot of the window. */
  method Put(low: array<int>, age: array<int>, offset: nat, k: nat, value: int, years: int)
    requires low != age && low.Length == age.Length && offset + SLOTS <= low.Length && k < SLOTS
    modifies low, age
    ensures OnlyWindow(low, age, offset)
    ensures Window(low, age, offset) == old(Window(low, age, offset))[k := Entry(value, years)]
  {
    low[offset + k] := value;
    age[offset + k] := years;
  }

  /** Remove entry i: shift larger values downwards and put a filler last. */
  method Remove(low: array<int>, age: array<int>, offset: nat, i: nat)
    requires low != age && low.Length == age.Length && offset + SLOTS <= low.Length && i < SLOTS
    modifies low, age
    ensures OnlyWindow(low, age, offset)
    ensures Window(low, age, offset)
            == old(Window(low, age, offset))[..i] + old(Window(low, age, offset))[i + 1..] + [FILLER]
  {
    hide ShiftedDown;
    ghost var w := Window(low, age, offset);
    ShiftDownFacts(w, i, i);
    var j := i;
    while j < 15
      invariant i <= j <= 15
      invariant OnlyWindow(low, age, offset)
      invariant Window(low, age, offset) == ShiftedDown(w, i, j)
    {
      ShiftDownFacts(w, i, j);
      ghost var before := Window(low, age, offset);
      assert before[j + 1] == w[j + 1];
      Put(low, age, offset, j, low[offset + j + 1], age[offset + j + 1]);
      j := j + 1;
    }
    ShiftDownFacts(w, i, 15);
    Put(low, age, offset, 15, 10000, 101);
  }

  /** The window while the slots from i to j have been overwritten with their right neighbours. */
  ghost function ShiftedDown(w: seq<Entry>, i: nat, j: nat): (s: seq<Entry>)
    requires i <= j < |w|
    ensures |s| == |w|
  {
    w[..i] + w[i + 1..j + 1] + w[j..]
  }

  lemma ShiftDownFacts(w: seq<Entry>, i: nat, j: nat)
    requires i <= j < |w|
    ensures ShiftedDown(w, i, i) == w
    ensures ShiftedDown(w, i, j)[j + 1..] == w[j + 1..]
    ensures j + 1 < |w| ==> ShiftedDown(w, i, j)[j + 1] == w[j + 1]
                            && ShiftedDown(w, i, j)[j := w[j + 1]] == ShiftedDown(w, i, j + 1)
    ensures j + 1 == |w| ==> ShiftedDown(w, i, j)[j := FILLER] == w[..i] + w[i + 1..] + [FILLER]
  {
  }

  /** One round of the ageing loop. */
  method AgeOne(low: array<int>, age: array<int>, offset: nat, i: nat)
    requires low != age && low.Length == age.Length && offset + SLOTS <= low.Length && i < SLOTS
    modifies low, age
    ensures OnlyWindow(low, age, offset)
    ensures Window(low, age, offset) == AgeSlot(old(Window(low, age, offset)), i)
  {
    if age[offset + i] != 100 {
      Put(low, age, offset, i, low[offset + i], W16(age[offset + i] + 1));
    } else {
      Remove(low, age, offset, i);
    }
  }

  /** The ageing loop. */
  method AgeAll(low: array<int>, age: array<int>, offset: nat) returns (ghost aged: seq<Entry>)
    requires low != age && low.Length == age.Length && offset + SLOTS <= low.Length
    modifies low, age
    ensures OnlyWindow(low, age, offset)
    ensures Window(low, age, offset) == aged
    ensures aged == var w := old(Window(low, age, offset)); AgeLast(w, |w|)
  {
    hide AgeLast, AgeSlot, Window;
    ghost var w := Window(low, age, offset);
    AgeLastNext(w, 0);
    aged := AgeLast(w, |w|);
    var i := 0;
    while i < 16
      invariant 0 <= i <= 16
      invariant OnlyWindow(low, age, offset)
      invariant aged == AgeLast(Window(low, age, offset), SLOTS - i)
    {
      AgeLastNext(Window(low, age, offset), SLOTS - i);
      AgeOne(low, age, offset, i);
      i := i + 1;
    }
    AgeLastNext(Window(low, age, offset), 0);
  }

  lemma AgeLastNext(w: seq<Entry>, n: nat)
    requires n <= |w|
    ensures AgeLast(w, n) == if n == 0 then w else AgeLast(AgeSlot(w, |w| - n), n - 1)
  {
    hide AgeSlot;
  }

  lemma StepByLoop(w: seq<Entry>, aged: seq<Entry>, feature: int)
    requires EntriesOk(w) && aged == AgeLast(w, |w|)
    ensures Sorted(Values(aged)) && Step(w, feature) == Insert(aged, feature)
  {
    WholePass(w);
    AgedSorted(w);
  }

  lemma {:induction false} PositionIsUnique(v: seq<int>, feature: int, p: nat)
    requires p <= |v| && Sorted(v)
    requires p > 0 ==> v[p - 1] <= feature
    requires p < |v| ==> feature < v[p]
    ensures Position(v, feature) == p
  {
  }

  /** The comparison tree: the least index whose value exceeds the feature, -1 if none does. */
  method Search(low: array<int>, offset: nat, feature: int, ghost v: seq<int>) returns (position: int)
    requires offset + SLOTS <= low.Length && v == low[offset..offset + SLOTS]
    requires Sorted(v)
    ensures position == if Position(v, feature) < SLOTS then Position(v, feature) else -1
  {
    position := -1;
    if feature < low[offset + 7] {
      if feature < low[offset + 3] {
        if feature < low[offset + 1] {
          if feature < low[offset] {
            position := 0;
          } else {
            position := 1;
          }
        } else if feature < low[offset + 2] {
          position := 2;
        } else {
          position := 3;
        }
      } else if feature < low[offset + 5] {
        if feature < low[offset + 4] {
          position := 4;
        } else {
          position := 5;
        }
      } else if feature < low[offset + 6] {
        position := 6;
      } else {
        position := 7;
      }
    } else if feature < low[offset + 15] {
      if feature < low[offset + 11] {
        if feature < low[offset + 9] {
          if feature < low[offset + 8] {
            position := 8;
          } else {
            position := 9;
          }
        } else if feature < low[offset + 10] {
          position := 10;
        } else {
          position := 11;
        }
      } else if feature < low[offset + 13] {
        if feature < low[offset + 12] {
          position := 12;
        } else {
          position := 13;
        }
      } else if feature < low[offset + 14] {
        position := 14;
      } else {
        position := 15;
      }
    }
    PositionIsUnique(v, feature, if position >= 0 then position else SLOTS);
  }

  /** The insertion loop: larger values move up, the largest falls out. */
  method InsertAtPosition(low: array<int>, age: array<int>, offset: nat, position: nat, feature: int)
    requires low != age && low.Length == age.Length && offset + SLOTS <= low.Length && position < SLOTS
    modifies low, age
    ensures OnlyWindow(low, age, offset)
    ensures Window(low, age, offset) == old(Window(low, age, offset)[..position]) + [Entry(feature, 1)]
                                        + old(Window(low, age, offset)[position..SLOTS - 1])
  {
    hide ShiftedUp;
    ghost var w := Window(low, age, offset);
    var i := 15;
    ShiftUpFacts(w, 15);
    ShiftUpDone(w, position, Entry(feature, 1));
    while i > position
      invariant position <= i <= 15
      invariant OnlyWindow(low, age, offset)
      invariant Window(low, age, offset) == ShiftedUp(w, i)
    {
      ShiftUpFacts(w, i);
      ghost var before := Window(low, age, offset);
      assert before[i - 1] == w[i - 1];
      Put(low, age, offset, i, low[offset + i - 1], age[offset + i - 1]);
      i := i - 1;
    }
    Put(low, age, offset, position, feature, 1);
  }

  /** The window while the slots above i hold what was to their left. */
  ghost function ShiftedUp(w: seq<Entry>, i: nat): (s: seq<Entry>)
    requires i < |w|
    ensures |s| == |w|
  {
    w[..i + 1] + w[i..|w| - 1]
  }

  lemma ShiftUpDone(w: seq<Entry>, i: nat, x: Entry)
    requires i < |w|
    ensures ShiftedUp(w, i)[i := x] == w[..i] + [x] + w[i..|w| - 1]
  {
  }

  lemma ShiftUpFacts(w: seq<Entry>, i: nat)
    requires i < |w|
    ensures ShiftedUp(w, |w| - 1) == w
    ensures i > 0 ==> ShiftedUp(w, i)[i - 1] == w[i - 1]
                      && ShiftedUp(w, i)[i := w[i - 1]] == ShiftedUp(w, i - 1)
  {
  }

  /** Insert the feature where the search puts it, if anywhere. */
  method InsertSmall(low: array<int>, age: array<int>, offset: nat, feature: int)
    requires low != age && low.Length == age.Length && offset + SLOTS <= low.Length
    requires Sorted(Values(Window(low, age, offset)))
    modifies low, age
    ensures OnlyWindow(low, age, offset)
    ensures Window(low, age, offset) == Insert(old(Window(low, age, offset)), feature)
  {
    ghost var v := Values(Window(low, age, offset));
    assert v == low[offset..offset + SLOTS];
    var position := Search(low, offset, feature, v);
    if position > -1 {
      InsertAtPosition(low, age, offset, position, feature);
    }
  }

  /** Age the entries and take the feature in. */
  method TakeIn(low: array<int>, age: array<int>, offset: nat, feature: int)
    requires low != age && low.Length == age.Length && offset + SLOTS <= low.Length
    requires EntriesOk(Window(low, age, offset))
    modifies low, age
    ensures OnlyWindow(low, age, offset)
    ensures Window(low, age, offset) == Step(old(Window(low, age, offset)), feature)
  {
    ghost var w := Window(low, age, offset);
    ghost var aged := AgeAll(low, age, offset);
    StepByLoop(w, aged, feature);
    InsertSmall(low, age, offset, feature);
  }

  /** One call for a channel: its entries take a step, its mean is smoothed, no other channel's
      memory is touched. */
  method FindMinimum(low: array<int>, age: array<int>, meanValue: array<int>, frameCounter: int,
                     feature: int, channel: nat)
    returns (minimum: int)
    requires low.Length == 96 && age.Length == 96 && low != age && meanValue.Length == 6 && channel < 6
    requires EntriesOk(Window(low, age, 16 * channel))
    modifies low, age, meanValue
    ensures OnlyWindow(low, age, 16 * channel)
    ensures Window(low, age, 16 * channel) == Step(old(Window(low, age, 16 * channel)), feature)
    ensures minimum == meanValue[channel]
            == NextMean(Window(low, age, 16 * channel), frameCounter, old(meanValue[channel]))
    ensures forall c | 0 <= c < 6 && c != channel :: meanValue[c] == old(meanValue[c])
  {
    TakeIn(low, age, 16 * channel, feature);
    minimum := SmoothMean(low, meanValue, frameCounter, channel, Window(low, age, 16 * channel));
  }

  /** The median of the smallest values, smoothed into the mean of the channel. */
  method SmoothMean(low: array<int>, meanValue: array<int>, frameCounter: int, channel: nat, ghost w: seq<Entry>)
    returns (minimum: int)
    requires low.Length == 96 && low != meanValue && meanValue.Length == 6 && channel < 6
    requires |w| == SLOTS && forall i | 0 <= i < SLOTS :: w[i].value == low[16 * channel + i]
    modifies meanValue
    ensures minimum == meanValue[channel] == NextMean(w, frameCounter, old(meanValue[channel]))
    ensures forall c | 0 <= c < 6 && c != channel :: meanValue[c] == old(meanValue[c])
  {
    var offset := 16 * channel;
    var currentMedian := 1600;
    if frameCounter > 2 {
      currentMedian := low[offset + 2];
    } else if frameCounter > 0 {
      currentMedian := low[offset];
    }
    var alpha := 0;
    if frameCounter > 0 {
      if currentMedian < meanValue[channel] {
        alpha := SMOOTHING_DOWN;
      } else {
        alpha := SMOOTHING_UP;
      }
    }
    assert currentMedian == Median(w, frameCounter);
    var tmp32 := (alpha + 1) * meanValue[channel];
    tmp32 := tmp32 + (32767 - alpha) * currentMedian;
    assert tmp32 == Blend(frameCounter, meanValue[channel], currentMedian) by {
      if alpha == SMOOTHING_DOWN {
        assert (6553 + 1) * meanValue[channel] == 6554 * meanValue[channel];
      }
    }
    tmp32 := tmp32 + 16384;
    meanValue[channel] := W16(tmp32 / 32768);
    minimum := meanValue[channel];
  }
}
