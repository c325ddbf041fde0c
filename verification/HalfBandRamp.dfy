/** Why the two rows of allpass coefficients are what they are: each branch of the half-band filter delays a ramp, the
    one by half a sample more than the other, so that both give the same ramp. The sections round and truncate; the
    bounds are those that once met are met from then on. */
module HalfBandRamp {
  import opened Allpass
  import opened FixedPoint
  import opened ResampleBy2

  // ---------------------------------------------------------------- one allpass stage

  /** By how much a stage with weight c / 2^14 is late on a ramp of slope b. */
  function Lag(c: int, b: real): real
    requires 0 <= c < 16384
  {
    (16384 - c) as real / (16384 + c) as real * b
  }

  predicate Close(y: int, ideal: real, bound: real) { ideal - bound <= y as real <= ideal + bound }

  lemma LagIs(c: int, b: real)
    requires 0 <= c < 16384
    ensures c as real * (b + Lag(c, b)) == 16384.0 * (b - Lag(c, b))
  {
    var k, l := (16384 + c) as real, (16384 - c) as real;
    assert k * (l / k * b) == l * b;
  }

  lemma ScaledError(c: real, z: real, bound: real)
    requires 0.0 <= c && -bound <= z <= bound
    ensures -(c * bound) <= c * z <= c * bound
  {
  }

  lemma CastProduct(c: int, q: int)
    ensures (c * q) as real == c as real * q as real
  {
  }

  lemma StageError(x0: real, wq: real, wz: real, u: real, b: real, p: real, input: real, total: real, output: real)
    requires -input <= x0 - u <= input && -total <= wz <= total && 16384.0 * input + total <= 16384.0 * output
    requires 16384.0 * wq == wz + 16384.0 * (b - p)
    ensures u + b - p - output <= x0 + wq <= u + b - p + output
  {
  }

  /** What the difference in a stage, and its rounding, are off the ramp. */
  lemma StageInput(x1: real, y0: real, q: real, u: real, b: real, p: real, input: real, output: real, rounding: real)
    requires -input <= x1 - u - b <= input && -output <= y0 - u + p <= output
    requires -rounding <= 16384.0 * q - (x1 - y0) <= rounding
    ensures -(input + output + rounding) <= 16384.0 * q - (b + p) <= input + output + rounding
  {
  }

  /** What a stage makes of inputs close to a ramp is close to the ramp with its lag. */
  lemma StageKeeps(c: int, x0: int, y0: int, x1: int, q: int, u: real, b: real,
                   input: real, output: real, rounding: real)
    requires 0 <= c < 16384
    requires Close(x0, u, input) && Close(x1, u + b, input) && Close(y0, u - Lag(c, b), output)
    requires -rounding <= (16384 * q - (x1 - y0)) as real <= rounding
    requires 16384.0 * input + c as real * (input + output + rounding) <= 16384.0 * output
    ensures Close(x0 + c * q, u + b - Lag(c, b), output)
  {
    hide Lag;
    var p, w := Lag(c, b), c as real;
    var z := 16384.0 * q as real - (b + p);
    LagIs(c, b);
    StageInput(x1 as real, y0 as real, q as real, u, b, p, input, output, rounding);
    ScaledError(w, z, input + output + rounding);
    StageSum(w, q as real, b + p, z);
    CastProduct(c, q);
    StageError(x0 as real, w * q as real, w * z, u, b, p, input, w * (input + output + rounding), output);
  }

  lemma StageSum(w: real, q: real, s: real, z: real)
    requires z == 16384.0 * q - s
    ensures 16384.0 * (w * q) == w * z + w * s
  {
  }

  // ---------------------------------------------------------------- a section

  /** The bounds on the three stages of a row. */
  function Bounds(c: seq<int>): (real, real, real) {
    if c == LOWER then (1875.0, 28780.0, 872000.0) else (433.0, 10700.0, 128000.0)
  }

  predicate IsRow(c: seq<int>) { c == LOWER || c == UPPER }

  /** The lag of a whole section. */
  function RowLag(c: seq<int>, b: real): real
    requires IsRow(c)
  {
    Lag(c[0], b) + Lag(c[1], b) + Lag(c[2], b)
  }

  /** The section has just seen x, on a ramp of slope b, and has settled on it. */
  predicate Settled(s: Section, x: int, b: int, c: seq<int>)
    requires IsRow(c)
  {
    var (f0, f1, f2) := Bounds(c);
    var l0, l1, l2 := Lag(c[0], b as real), Lag(c[1], b as real), Lag(c[2], b as real);
    && s.s0 == x && Close(s.s1, x as real - l0, f0)
    && Close(s.s2, x as real - l0 - l1, f1) && Close(s.s3, x as real - l0 - l1 - l2, f2)
  }

  predicate Moderate(x: int, b: int) { -0x4000_0000 <= x <= 0x4000_0000 && -0x1000_0000 <= b <= 0x1000_0000 }

  lemma LagBound(c: int, b: int)
    requires 0 <= c < 16384
    ensures b >= 0 ==> 0.0 <= Lag(c, b as real) <= b as real
    ensures b <= 0 ==> b as real <= Lag(c, b as real) <= 0.0
  {
    var r := (16384 - c) as real / (16384 + c) as real;
    assert 0.0 <= r <= 1.0;
  }

  lemma Rounds(diff: int)
    requires -0x7000_0000 <= diff <= 0x7000_0000
    ensures -8192 <= 16384 * ScaleRound(diff) - diff <= 8192
  {
  }

  lemma Truncates(diff: int)
    ensures -16384 <= 16384 * ScaleTruncate(diff) - diff <= 16384
  {
  }

  /** How far the ramp may be from zero inside a section. */
  predicate Inside(u: real, b: int) {
    -1610612736.0 <= u <= 1610612736.0 && -0x1000_0000 <= b <= 0x1000_0000
  }

  lemma NoWrap(y: int, u: real, b: int, lag: real, bound: real)
    requires Inside(u, b) && Close(y, u + b as real - lag, bound) && bound <= 900000.0
    requires (b >= 0 ==> 0.0 <= lag <= b as real) && (b <= 0 ==> b as real <= lag <= 0.0)
    ensures W32(y) == y
  {
    hide W32;
    assert -2147483648.0 <= y as real <= 2147483647.0;
  }

  lemma SmallDifference(x1: int, y0: int, u: real, b: int, lag: real, input: real, output: real)
    requires Inside(u, b) && Close(x1, u + b as real, input) && Close(y0, u - lag, output)
    requires input <= 900000.0 && output <= 900000.0
    requires (b >= 0 ==> 0.0 <= lag <= b as real) && (b <= 0 ==> b as real <= lag <= 0.0)
    ensures -0x7000_0000 <= x1 - y0 <= 0x7000_0000
  {
  }

  lemma StageWithin(c: int, x0: int, y0: int, x1: int, q: int, u: real, b: int,
                    input: real, output: real, rounding: int)
    requires 0 <= c < 16384 && Inside(u, b) && 0.0 <= input <= 900000.0 && 0.0 <= output <= 900000.0
    requires Close(x0, u, input) && Close(x1, u + b as real, input) && Close(y0, u - Lag(c, b as real), output)
    requires -rounding <= 16384 * q - (x1 - y0) <= rounding
    requires 16384.0 * input + c as real * (input + output + rounding as real) <= 16384.0 * output
    ensures Close(Weighted(x0, q, c), u + b as real - Lag(c, b as real), output)
  {
    hide Lag, W32, Inside;
    LagBound(c, b);
    StageKeeps(c, x0, y0, x1, q, u, b as real, input, output, rounding as real);
    NoWrap(x0 + c * q, u, b, Lag(c, b as real), output);
    assert q * c == c * q;
  }

  lemma FirstStageOf(c: int, x0: int, y0: int, b: int, output: real)
    requires 0 <= c < 16384 && Moderate(x0, b) && 0.0 <= output <= 900000.0
    requires Close(y0, x0 as real - Lag(c, b as real), output)
    requires c as real * (output + 8192.0) <= 16384.0 * output
    ensures
      Close(Weighted(x0, ScaleRound(W32(x0 + b - y0)), c), x0 as real + b as real - Lag(c, b as real), output)
  {
    hide Lag, W32, ScaleRound;
    LagBound(c, b);
    SmallDifference(x0 + b, y0, x0 as real, b, Lag(c, b as real), 0.0, output);
    Rounds(x0 + b - y0);
    StageWithin(c, x0, y0, x0 + b, ScaleRound(x0 + b - y0), x0 as real, b, 0.0, output, 8192);
  }

  lemma LaterStageOf(c: int, x0: int, y0: int, x1: int, u: real, b: int, input: real, output: real)
    requires 0 <= c < 16384 && Inside(u, b) && 0.0 <= input <= 900000.0 && 0.0 <= output <= 900000.0
    requires Close(x0, u, input) && Close(x1, u + b as real, input) && Close(y0, u - Lag(c, b as real), output)
    requires 16384.0 * input + c as real * (input + output + 16384.0) <= 16384.0 * output
    ensures Close(Weighted(x0, ScaleTruncate(W32(x1 - y0)), c), u + b as real - Lag(c, b as real), output)
  {
    hide Lag, W32, ScaleTruncate, Inside;
    LagBound(c, b);
    SmallDifference(x1, y0, u, b, Lag(c, b as real), input, output);
    Truncates(x1 - y0);
    StageWithin(c, x0, y0, x1, ScaleTruncate(x1 - y0), u, b, input, output, 16384);
  }

  /** A section that has settled on a ramp stays settled on it. */
  lemma AdvanceSettled(s: Section, x: int, b: int, c: seq<int>)
    requires IsRow(c) && Settled(s, x, b, c) && Moderate(x, b)
    ensures Settled(Advance(s, x + b, c), x + b, b, c)
  {
    hide Lag, Weighted, ScaleRound, ScaleTruncate, W32;
    var (f0, f1, f2) := Bounds(c);
    var slope := b as real;
    LagBound(c[0], b);
    LagBound(c[1], b);
    var u1 := x as real - Lag(c[0], slope);
    var u2 := u1 - Lag(c[1], slope);
    FirstStageOf(c[0], x, s.s1, b, f0);
    var t1 := Weighted(s.s0, ScaleRound(W32(x + b - s.s1)), c[0]);
    LaterStageOf(c[1], s.s1, s.s2, t1, u1, b, f0, f1);
    var t0 := Weighted(s.s1, ScaleTruncate(W32(t1 - s.s2)), c[1]);
    LaterStageOf(c[2], s.s2, s.s3, t0, u2, b, f1, f2);
  }

  // ---------------------------------------------------------------- a whole ramp

  function Ramp(a: int, b: int, n: nat): (xs: seq<int>)
    ensures |xs| == n && forall i | 0 <= i < n :: xs[i] == a + b * i
  {
    seq(n, i => a + b * i)
  }

  lemma RampSnoc(a: int, b: int, n: nat)
    requires n > 0
    ensures Ramp(a, b, n)[..n - 1] == Ramp(a, b, n - 1) && Ramp(a, b, n)[n - 1] == a + b * (n - 1)
    ensures a + b * (n - 1) == a + b * (n - 2) + b
  {
  }

  /** A settled section makes of a ramp half the ramp, late by the lag of its row. */
  lemma {:induction false} FilterOnRamp(s: Section, a: int, b: int, n: nat, c: seq<int>)
    requires IsRow(c) && Settled(s, a - b, b, c) && forall i | -1 <= i < n :: Moderate(a + b * i, b)
    ensures
      var (t, ys) := Filter(s, Ramp(a, b, n), c);
      && Settled(t, a + b * (n - 1), b, c)
      && forall k | 0 <= k < n ::
           Close(2 * ys[k], (a + b * k) as real - RowLag(c, b as real), Bounds(c).2 + 1.0)
  {
    hide Advance, Settled, Ramp, Moderate, RowLag, Bounds;
    if n == 0 {
      assert a + b * -1 == a - b;
    } else {
      RampSnoc(a, b, n);
      FilterOnRamp(s, a, b, n - 1, c);
      var (t, ys) := Filter(s, Ramp(a, b, n - 1), c);
      assert Moderate(a + b * (n - 2), b);
      AdvanceSettled(t, a + b * (n - 2), b, c);
      var next := Advance(t, a + b * (n - 1), c);
      HalfOfSettled(next, a + b * (n - 1), b, c);
    }
  }

  lemma HalfOfSettled(s: Section, x: int, b: int, c: seq<int>)
    requires IsRow(c) && Settled(s, x, b, c)
    ensures Close(2 * (s.s3 / 2), x as real - RowLag(c, b as real), Bounds(c).2 + 1.0)
  {
    hide Settled, RowLag, Bounds;
    SettledEnd(s, x, b, c);
    HalfIsClose(s.s3, x as real - RowLag(c, b as real), Bounds(c).2);
  }

  lemma SettledEnd(s: Section, x: int, b: int, c: seq<int>)
    requires IsRow(c) && Settled(s, x, b, c)
    ensures Close(s.s3, x as real - RowLag(c, b as real), Bounds(c).2)
  {
    hide Lag, Bounds;
  }

  lemma HalfIsClose(y: int, ideal: real, bound: real)
    requires Close(y, ideal, bound)
    ensures Close(2 * (y / 2), ideal, bound + 1.0)
  {
    assert y - 1 <= 2 * (y / 2) <= y;
  }

  /** The lags of the two rows, in samples of a branch: one, and one and a half. */
  lemma RowLags(b: real)
    ensures b >= 0.0 ==> 1.0 * b <= RowLag(LOWER, b) <= 1.001 * b && 1.5 * b <= RowLag(UPPER, b) <= 1.501 * b
    ensures b <= 0.0 ==> 1.001 * b <= RowLag(LOWER, b) <= 1.0 * b && 1.501 * b <= RowLag(UPPER, b) <= 1.5 * b
  {
  }

  /** Both branches have settled on the ramp whose last sample is x: the lower one has seen the sample before. */
  predicate SettledPair(st: Pair, x: int, g: int) {
    Settled(st.lower, x - g, 2 * g, LOWER) && Settled(st.upper, x, 2 * g, UPPER)
  }

  /** The lower row is one sample of its branch late and the upper one one and a half: on a ramp the last words of both
      branches are the same, the ramp three samples back. */
  lemma BranchesAgree(st: Pair, x: int, g: int)
    requires SettledPair(st, x, g)
    ensures Close(st.lower.s3, (x - 3 * g) as real, 872000.0 + Abs(g) as real / 400.0)
    ensures Close(st.upper.s3, (x - 3 * g) as real, 128000.0 + Abs(g) as real / 400.0)
  {
    hide RowLag, Settled, Bounds;
    var h := (2 * g) as real;
    BoundsAre();
    SettledEnd(st.lower, x - g, 2 * g, LOWER);
    SettledEnd(st.upper, x, 2 * g, UPPER);
    RowLags(h);
    ThreeBack(st.lower.s3 as real, st.upper.s3 as real, x as real, g as real, RowLag(LOWER, h), RowLag(UPPER, h));
  }

  lemma ThreeBack(y: real, z: real, x: real, g: real, p: real, q: real)
    requires x - g - p - 872000.0 <= y <= x - g - p + 872000.0 && x - q - 128000.0 <= z <= x - q + 128000.0
    requires g >= 0.0 ==> 2.0 * g <= p <= 2.002 * g && 3.0 * g <= q <= 3.002 * g
    requires g <= 0.0 ==> 2.002 * g <= p <= 2.0 * g && 3.002 * g <= q <= 3.0 * g
    ensures
      var size := if g < 0.0 then -g else g;
      && x - 3.0 * g - 872000.0 - size / 400.0 <= y <= x - 3.0 * g + 872000.0 + size / 400.0
      && x - 3.0 * g - 128000.0 - size / 400.0 <= z <= x - 3.0 * g + 128000.0 + size / 400.0
  {
  }

  /** The stream on which the pair has settled stays within the words. */
  predicate ModerateRamp(a: int, g: int, n: nat) { forall i | -2 <= i < n :: Moderate(a + g * i, 2 * g) }

  /** The two branches of the half-band filter on a ramp. The lower one, on the even samples, is a sample of its branch
      late and the upper one, on the odd samples, one and a half: that is twice the ramp of two samples before, from
      both, and their sum is the ramp of two samples before. */
  lemma HalfBandOfRamp(st: Pair, a: int, g: int, n: nat)
    requires n % 2 == 0 && ModerateRamp(a, g, n) && SettledPair(st, a - g, g)
    ensures
      var (t, ys) := HalfBand(st, Ramp(a, g, n));
      && SettledPair(t, a + g * (n - 1), g)
      && forall k | 0 <= k < n / 2 ::
           Close(ys[k], (a + g * (2 * k - 2)) as real, 500001.0 + Abs(g) as real / 400.0)
  {
    hide Filter, Settled, Ramp, Moderate, RowLag, Bounds, W32, Evens, Odds, Close, ModerateRamp, Abs;
    var m := n / 2;
    PhasesOfRamp(a, g, n);
    PhasesModerate(a, g, n);
    FilterOnRamp(st.lower, a, 2 * g, m, LOWER);
    FilterOnRamp(st.upper, a + g, 2 * g, m, UPPER);
    LastPlaces(a, g, n);
    var ys, zs := Filter(st.lower, Ramp(a, 2 * g, m), LOWER).1, Filter(st.upper, Ramp(a + g, 2 * g, m), UPPER).1;
    forall k | 0 <= k < m
      ensures Close(W32(ys[k] + zs[k]), (a + g * (2 * k - 2)) as real, 500001.0 + Abs(g) as real / 400.0)
    {
      BoundsAre();
      PlaceOf(a, g, n, k);
      SumOfBranches(ys[k], zs[k], a + 2 * g * k, g);
    }
  }

  lemma LastPlaces(a: int, g: int, n: nat)
    requires n % 2 == 0
    ensures a + 2 * g * (n / 2 - 1) == a + g * (n - 1) - g && a + g + 2 * g * (n / 2 - 1) == a + g * (n - 1)
  {
    assert 2 * g * (n / 2 - 1) == g * (2 * (n / 2 - 1));
  }

  lemma PlaceOf(a: int, g: int, n: nat, k: nat)
    requires ModerateRamp(a, g, n) && 2 * k < n
    ensures Moderate(a + 2 * g * k - 2 * g, 2 * g) && a + 2 * g * k - 2 * g == a + g * (2 * k - 2)
    ensures a + g + 2 * g * k == a + 2 * g * k + g
  {
    hide Moderate;
    assert Moderate(a + g * (2 * k - 2), 2 * g);
  }

  lemma PhasesOfRamp(a: int, g: int, n: nat)
    requires n % 2 == 0
    ensures Evens(Ramp(a, g, n)) == Ramp(a, 2 * g, n / 2)
    ensures Odds(Ramp(a, g, n)) == Ramp(a + g, 2 * g, n / 2)
  {
  }

  lemma PhasesModerate(a: int, g: int, n: nat)
    requires n % 2 == 0 && ModerateRamp(a, g, n)
    ensures forall i | -1 <= i < n / 2 :: Moderate(a + 2 * g * i, 2 * g)
    ensures forall i | -1 <= i < n / 2 :: Moderate(a + g + 2 * g * i, 2 * g)
  {
    forall i | -1 <= i < n / 2
      ensures Moderate(a + 2 * g * i, 2 * g) && Moderate(a + g + 2 * g * i, 2 * g)
    {
      assert a + 2 * g * i == a + g * (2 * i) && a + g + 2 * g * i == a + g * (2 * i + 1);
    }
  }

  /** The two lags on a slope of 2g add up to five samples, and a little. */
  lemma LagsOfBoth(g: int)
    ensures
      var lags := RowLag(LOWER, (2 * g) as real) + RowLag(UPPER, (2 * g) as real);
      && (g >= 0 ==> 5.0 * g as real <= lags <= 5.004 * g as real)
      && (g <= 0 ==> 5.004 * g as real <= lags <= 5.0 * g as real)
  {
    hide RowLag;
    RowLags((2 * g) as real);
    var h := (2 * g) as real;
    assert h == 2.0 * g as real;
    SumOfLags(RowLag(LOWER, h), RowLag(UPPER, h), h, g as real);
  }

  lemma SumOfLags(l: real, u: real, h: real, g: real)
    requires h == 2.0 * g
    requires h >= 0.0 ==> 1.0 * h <= l <= 1.001 * h && 1.5 * h <= u <= 1.501 * h
    requires h <= 0.0 ==> 1.001 * h <= l <= 1.0 * h && 1.501 * h <= u <= 1.5 * h
    ensures g >= 0.0 ==> 5.0 * g <= l + u <= 5.004 * g
    ensures g <= 0.0 ==> 5.004 * g <= l + u <= 5.0 * g
  {
  }

  lemma SumOfReals(y: real, z: real, x: real, g: real, p: real, q: real)
    requires x - p - 872001.0 <= 2.0 * y <= x - p + 872001.0
    requires x + g - q - 128001.0 <= 2.0 * z <= x + g - q + 128001.0
    requires (g >= 0.0 ==> 5.0 * g <= p + q <= 5.004 * g) && (g <= 0.0 ==> 5.004 * g <= p + q <= 5.0 * g)
    ensures
      var size := if g < 0.0 then -g else g;
      x - 2.0 * g - 500001.0 - size / 400.0 <= y + z <= x - 2.0 * g + 500001.0 + size / 400.0
  {
  }

  /** Twice a branch's output each, the ramp two samples before. */
  lemma SumOfBranches(y: int, z: int, x: int, g: int)
    requires Moderate(x - 2 * g, 2 * g)
    requires Close(2 * y, x as real - RowLag(LOWER, (2 * g) as real), 872001.0)
    requires Close(2 * z, (x + g) as real - RowLag(UPPER, (2 * g) as real), 128001.0)
    ensures Close(W32(y + z), (x - 2 * g) as real, 500001.0 + Abs(g) as real / 400.0)
  {
    hide RowLag, W32;
    LagsOfBoth(g);
    SumOfReals(y as real, z as real, x as real, g as real, RowLag(LOWER, (2 * g) as real),
               RowLag(UPPER, (2 * g) as real));
    assert Close(y + z, (x - 2 * g) as real, 500001.0 + Abs(g) as real / 400.0);
    SumIsWord(y + z, x - 2 * g, g);
  }

  lemma SumIsWord(s: int, v: int, g: int)
    requires Moderate(v, 2 * g) && Close(s, v as real, 500001.0 + Abs(g) as real / 400.0)
    ensures W32(s) == s
  {
    hide W32;
    assert Abs(g) <= 0x1000_0000;
    assert -0x7000_0000 <= s <= 0x7000_0000;
  }

  /** What the bounds are, as numbers. */
  lemma BoundsAre()
    ensures Bounds(LOWER).2 == 872000.0 && Bounds(UPPER).2 == 128000.0
  {
    assert LOWER[0] != UPPER[0];
  }
}
