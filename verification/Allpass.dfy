/** The allpass sections the resamplers are built from (resample_by_2_internal.c), as filters over whole
    streams. Filtering a stream in two parts, with the state carried over, is filtering it at once. */
module Allpass {
  import opened FixedPoint

  /** kResampleAllpass: row 1 serves the lower branch, row 0 the upper one. */
  const LOWER := [3050, 9368, 15063]
  const UPPER := [821, 6110, 12382]

  predicate Row(c: seq<int>) { |c| == 3 }

  /** Four consecutive words of a state array. */
  datatype Section = Section(s0: int, s1: int, s2: int, s3: int)

  /** A shift right by 14 with one added below zero. */
  function ScaleTruncate(diff: int): int {
    var d := diff / 0x4000;
    if d < 0 then d + 1 else d
  }

  /** A difference weighted and added. The sum wraps: the code is marked as tolerating signed overflow. */
  function Weighted(acc: int, diff: int, weight: int): int { W32(acc + diff * weight) }

  function ScaleRound(diff: int): int { W32(diff + 0x2000) / 0x4000 }

  /** One sample through a section. */
  function Advance(s: Section, x: int, c: seq<int>): Section
    requires Row(c)
  {
    var t1 := Weighted(s.s0, ScaleRound(W32(x - s.s1)), c[0]);
    var t0 := Weighted(s.s1, ScaleTruncate(W32(t1 - s.s2)), c[1]);
    var t3 := Weighted(s.s2, ScaleTruncate(W32(t0 - s.s3)), c[2]);
    Section(x, t1, t0, t3)
  }

  /** A stream through a section: the state behind it and half the last word after each sample. */
  function Filter(s: Section, xs: seq<int>, c: seq<int>): (r: (Section, seq<int>))
    requires Row(c)
    ensures |r.1| == |xs|
  {
    if xs == [] then (s, [])
    else
      var n := |xs| - 1;
      var (t, ys) := Filter(s, xs[..n], c);
      var next := Advance(t, xs[n], c);
      (next, ys + [next.s3 / 2])
  }

  lemma FilterNext(s: Section, xs: seq<int>, x: int, c: seq<int>)
    requires Row(c)
    ensures
      var (t, ys) := Filter(s, xs, c);
      Filter(s, xs + [x], c) == (Advance(t, x, c), ys + [Advance(t, x, c).s3 / 2])
  {
  }

  lemma FilterNone(s: Section, c: seq<int>)
    requires Row(c)
    ensures Filter(s, [], c) == (s, [])
  {
  }

  /** What a section puts out for sample k of a stream. */
  function HalfAt(s: Section, xs: seq<int>, c: seq<int>, k: nat): int
    requires Row(c) && k < |xs|
  {
    Advance(Filter(s, xs[..k], c).0, xs[k], c).s3 / 2
  }

  lemma {:induction false} FilterOutputs(s: Section, xs: seq<int>, c: seq<int>)
    requires Row(c)
    ensures forall k | 0 <= k < |xs| :: Filter(s, xs, c).1[k] == HalfAt(s, xs, c, k)
  {
    hide Advance;
    if xs != [] {
      var n := |xs| - 1;
      FilterOutputs(s, xs[..n], c);
      forall k | 0 <= k < n ensures HalfAt(s, xs, c, k) == HalfAt(s, xs[..n], c, k) {
        assert xs[..n][..k] == xs[..k];
      }
    }
  }

  /** The state after one more sample. */
  lemma FilterState(s: Section, xs: seq<int>, c: seq<int>, k: nat)
    requires Row(c) && k < |xs|
    ensures Filter(s, xs[..k + 1], c).0 == Advance(Filter(s, xs[..k], c).0, xs[k], c)
    ensures Filter(s, xs[..0], c).0 == s && xs[..|xs|] == xs
  {
    hide Advance, Filter;
    FilterNone(s, c);
    assert xs[..k + 1] == xs[..k] + [xs[k]];
    FilterNext(s, xs[..k], xs[k], c);
  }

  lemma {:induction false} FilterAppend(s: Section, xs: seq<int>, ys: seq<int>, c: seq<int>)
    requires Row(c)
    ensures
      var (t, us) := Filter(s, xs, c);
      var (v, ws) := Filter(t, ys, c);
      Filter(s, xs + ys, c) == (v, us + ws)
  {
    hide Advance, Filter;
    if ys == [] {
      FilterNone(Filter(s, xs, c).0, c);
      assert xs + ys == xs;
      assert Filter(s, xs, c).1 + [] == Filter(s, xs, c).1;
    } else {
      var n := |ys| - 1;
      FilterAppend(s, xs, ys[..n], c);
      assert xs + ys == (xs + ys[..n]) + [ys[n]];
      FilterNext(s, xs + ys[..n], ys[n], c);
      var (t, us) := Filter(s, xs, c);
      var ws := Filter(t, ys[..n], c).1;
      FilterNext(t, ys[..n], ys[n], c);
      assert ys == ys[..n] + [ys[n]];
      var last := Filter(t, ys, c).1[n];
      assert (us + ws) + [last] == us + (ws + [last]);
    }
  }

  /** The first word of a section is the last sample it has seen. */
  lemma FilterRemembers(s: Section, xs: seq<int>, c: seq<int>)
    requires Row(c)
    ensures Filter(s, xs, c).0.s0 == if xs == [] then s.s0 else xs[|xs| - 1]
  {
  }

  // ---------------------------------------------------------------- streams in two phases

  function Evens(xs: seq<int>): (r: seq<int>)
    ensures |r| == |xs| / 2
  {
    seq(|xs| / 2, i requires 0 <= i < |xs| / 2 => xs[2 * i])
  }

  function Odds(xs: seq<int>): (r: seq<int>)
    ensures |r| == |xs| / 2
  {
    seq(|xs| / 2, i requires 0 <= i < |xs| / 2 => xs[2 * i + 1])
  }

  lemma PhasesAppend(xs: seq<int>, ys: seq<int>)
    requires |xs| % 2 == 0
    ensures Evens(xs + ys) == Evens(xs) + Evens(ys)
    ensures Odds(xs + ys) == Odds(xs) + Odds(ys)
  {
  }

  /** A stream one sample late, d coming first. */
  function Delay(d: int, xs: seq<int>): (r: seq<int>)
    ensures |r| == |xs|
  {
    if xs == [] then [] else [d] + xs[..|xs| - 1]
  }

  lemma DelayAppend(d: int, xs: seq<int>, ys: seq<int>)
    ensures Delay(d, xs + ys) == Delay(d, xs) + Delay(if xs == [] then d else xs[|xs| - 1], ys)
  {
    if xs == [] {
      assert xs + ys == ys;
    } else if ys == [] {
      assert xs + ys == xs;
    } else {
      var last, early := xs[|xs| - 1], ys[..|ys| - 1];
      assert (xs + ys)[..|xs + ys| - 1] == xs + early;
      assert xs == xs[..|xs| - 1] + [last];
      Regroup(d, xs[..|xs| - 1], last, early);
    }
  }

  lemma Regroup(d: int, a: seq<int>, last: int, b: seq<int>)
    ensures [d] + ((a + [last]) + b) == ([d] + a) + ([last] + b)
  {
  }

  /** The sum of two branches, sample by sample. */
  function Add(a: seq<int>, b: seq<int>): (r: seq<int>)
    requires |a| == |b|
    ensures |r| == |a|
  {
    seq(|a|, i requires 0 <= i < |a| => W32(a[i] + b[i]))
  }

  lemma AddAppend(a: seq<int>, b: seq<int>, c: seq<int>, d: seq<int>)
    requires |a| == |b| && |c| == |d|
    ensures Add(a + c, b + d) == Add(a, b) + Add(c, d)
  {
  }
}
