/** What the filters of the resampler do to the simplest streams: a ramp, a constant, and the highest frequency. */
module ResampleResponse {
  import opened Allpass
  import opened FixedPoint
  import opened ResampleBy2
  import opened Resample48To8

  /** The sum of the first n weights, and the sum of each times its place. */
  function Total(c: seq<int>, n: nat): int
    requires n <= |c|
  {
    if n == 0 then 0 else Total(c, n - 1) + c[n - 1]
  }

  function Moment(c: seq<int>, n: nat): int
    requires n <= |c|
  {
    if n == 0 then 0 else Moment(c, n - 1) + c[n - 1] * (n - 1)
  }

  lemma {:induction false} SumOfRamp(c: seq<int>, v: seq<int>, n: nat, p: int, b: int)
    requires n <= |c| == |v| && forall i | 0 <= i < |v| :: v[i] == p + b * i
    ensures TapSum(c, v, n) == 0x4000 + p * Total(c, n) + b * Moment(c, n)
  {
    if n > 0 {
      SumOfRamp(c, v, n - 1, p, b);
      OneMore(TapSum(c, v, n - 1), p, b, Total(c, n - 1), Moment(c, n - 1), c[n - 1], n - 1, v[n - 1]);
    }
  }

  lemma OneMore(sum: int, p: int, b: int, total: int, moment: int, w: int, i: int, x: int)
    requires sum == 0x4000 + p * total + b * moment && x == p + b * i
    ensures sum + w * x == 0x4000 + p * (total + w) + b * (moment + w * i)
  {
    Distributed(w, p, b, i);
    Added(p, total, w);
    Added(b, moment, w * i);
  }

  lemma Distributed(w: int, p: int, b: int, i: int)
    ensures w * (p + b * i) == p * w + b * (w * i)
  {
  }

  lemma Added(p: int, x: int, y: int)
    ensures p * (x + y) == p * x + p * y
  {
  }

  lemma TotalsAre()
    ensures Total(FIRST, 8) == 32883 == Total(SECOND, 8)
    ensures Moment(FIRST, 8) == 106876 && Moment(SECOND, 8) == 123305
  {
    assert Total(FIRST, 4) == 23100 && Moment(FIRST, 4) == 69979;
    assert Total(SECOND, 4) == 9783 && Moment(SECOND, 4) == 31584;
  }

  /** A row of weights on a ramp, from place k on. */
  lemma DotOfRamp(c: seq<int>, z: seq<int>, k: nat, a: int, b: int)
    requires c == FIRST || c == SECOND
    requires k + 8 <= |z| && Within(z, 48204) && forall i | 0 <= i < |z| :: z[i] == a + b * i
    ensures |c| == 8 && Dot(c, z, k) == 0x4000 + (a + b * k) * Total(c, 8) + b * Moment(c, 8)
  {
    hide Dot, TapSum, TapsFit, Total, Moment, Abs;
    TapBoundIsExact(c, 48204);
    var v := z[k..k + 8];
    forall i | 0 <= i < 8 ensures v[i] == (a + b * k) + b * i {
      Added(b, k, i);
    }
    SumOfRamp(c, v, 8, a + b * k, b);
  }

  /** A ramp within the bound of the taps comes out as a ramp of three halves its slope: neighbouring outputs differ by
      49312 or 49337 times the slope, in turn, in units of 2^-15. */
  lemma RampStaysRamp(z: seq<int>, a: int, b: int, j: nat)
    requires 3 * ((j + 1) / 2) + 9 <= |z| && Within(z, 48204) && forall i | 0 <= i < |z| :: z[i] == a + b * i
    ensures OutputAt(z, j + 1) - OutputAt(z, j) == if j % 2 == 0 then 49312 * b else 49337 * b
  {
    hide OutputAt;
    OutputOfRamp(z, a, b, j);
    OutputOfRamp(z, a, b, j + 1);
    var k := 3 * (j / 2);
    assert b * (k + 3) == b * k + 3 * b;
  }

  lemma OutputOfRamp(z: seq<int>, a: int, b: int, j: nat)
    requires 3 * (j / 2) + 9 <= |z| && Within(z, 48204) && forall i | 0 <= i < |z| :: z[i] == a + b * i
    ensures OutputAt(z, j) == 0x4000 + 32883 * (a + b * (3 * (j / 2))) + if j % 2 == 0 then 106876 * b else 156188 * b
  {
    hide Dot, Total, Moment, Abs;
    var k := 3 * (j / 2);
    var v := z[k..k + 9];
    TotalsAre();
    forall i | 0 <= i < 9 ensures v[i] == (a + b * k) + b * i {
      Added(b, k, i);
    }
    if j % 2 == 0 {
      DotOfRamp(FIRST, v, 0, a + b * k, b);
    } else {
      DotOfRamp(SECOND, v, 1, a + b * k, b);
    }
  }

  // ---------------------------------------------------------------- constants and the highest frequency

  /** A section that has settled on a constant. */
  function On(x: int): Section { Section(x, x, x, x) }

  function Constant(x: int, n: nat): (xs: seq<int>)
    ensures |xs| == n && forall i | 0 <= i < n :: xs[i] == x
  {
    seq(n, _ => x)
  }

  /** A settled section passes its constant, halved. */
  lemma {:induction false} FilterSettled(x: int, n: nat, c: seq<int>)
    requires Row(c) && IsInt32(x)
    ensures Filter(On(x), Constant(x, n), c) == (On(x), Constant(x / 2, n))
  {
    hide W32;
    if n > 0 {
      FilterSettled(x, n - 1, c);
      assert Constant(x, n)[..n - 1] == Constant(x, n - 1);
      AdvanceSettled(x, c);
      assert Constant(x / 2, n) == Constant(x / 2, n - 1) + [x / 2];
    }
  }

  lemma AdvanceSettled(x: int, c: seq<int>)
    requires Row(c) && IsInt32(x)
    ensures Advance(On(x), x, c) == On(x)
  {
    hide W32;
    NothingToAdd(x, c[0]);
    NothingToAdd(x, c[1]);
    NothingToAdd(x, c[2]);
  }

  lemma NothingToAdd(x: int, weight: int)
    requires IsInt32(x)
    ensures Weighted(x, ScaleRound(W32(x - x)), weight) == x && Weighted(x, ScaleTruncate(W32(x - x)), weight) == x
  {
    hide W32;
    assert 0 * weight == 0;
  }

  /** u, v, u, v, and so on. */
  function Alternating(u: int, v: int, n: nat): (xs: seq<int>)
    ensures |xs| == n && forall i | 0 <= i < n :: xs[i] == if i % 2 == 0 then u else v
  {
    seq(n, i => if i % 2 == 0 then u else v)
  }

  /** Settled on the even and on the odd samples, a half-band filter gives the mean of the two. */
  lemma HalfBandSettled(u: int, v: int, n: nat)
    requires n % 2 == 0 && IsInt32(u) && IsInt32(v) && IsInt32(u / 2 + v / 2)
    ensures HalfBand(Pair(On(u), On(v)), Alternating(u, v, n)) == (Pair(On(u), On(v)), Constant(u / 2 + v / 2, n / 2))
  {
    hide Filter, W32;
    var xs := Alternating(u, v, n);
    assert Evens(xs) == Constant(u, n / 2);
    assert Odds(xs) == Constant(v, n / 2);
    FilterSettled(u, n / 2, LOWER);
    FilterSettled(v, n / 2, UPPER);
    assert Add(Constant(u / 2, n / 2), Constant(v / 2, n / 2)) == Constant(u / 2 + v / 2, n / 2);
  }

  /** What u, v, u, v, ... amounts to behind the first decimator: the mean of the two, 15 positions to the left. */
  function MeanOf(u: int, v: int): int { 16384 * (u + v + 1) }

  /** The sum of a row's weights times a sample, and half a step. */
  function Weighed(x: int): int { 32883 * x + 16384 }

  /** Every filter has settled on the stream u, v, u, v, ... */
  function SettledOn(u: int, v: int): (st: State)
    ensures Carries(st)
  {
    var m, x := MeanOf(u, v), (u + v + 1) / 2;
    State(Pair(On(u * 0x8000 + 0x4000), On(v * 0x8000 + 0x4000)), Quad(On(m), On(m), On(m), On(m)), Constant(x, 8),
          Pair(On(Weighed(x)), On(Weighed(x))))
  }

  lemma FirstStage(u: int, v: int, n: nat)
    requires n % 2 == 0 && IsInt16(u) && IsInt16(v)
    ensures
      var p := Pair(On(u * 0x8000 + 0x4000), On(v * 0x8000 + 0x4000));
      DownShortToInt(p, Alternating(u, v, n)) == (p, Constant(MeanOf(u, v), n / 2))
  {
    hide HalfBand, Shifted, Alternating, Constant;
    ShiftedAlternating(u, v, n);
    HalfBandSettled(u * 0x8000 + 0x4000, v * 0x8000 + 0x4000, n);
  }

  lemma ShiftedAlternating(u: int, v: int, n: nat)
    ensures Shifted(Alternating(u, v, n)) == Alternating(u * 0x8000 + 0x4000, v * 0x8000 + 0x4000, n)
  {
  }

  lemma PhasesOfConstant(x: int, n: nat)
    requires n % 2 == 0
    ensures Evens(Constant(x, n)) == Constant(x, n / 2) == Odds(Constant(x, n))
    ensures Delay(x, Constant(x, n / 2)) == Constant(x, n / 2)
  {
  }

  lemma SumOfConstants(x: int, n: nat)
    requires IsInt32(x + x)
    ensures Scaled(Add(Constant(x, n), Constant(x, n))) == Constant((x + x) / 0x8000, n)
  {
    hide W32;
  }

  lemma InterleavedConstants(x: int, n: nat)
    requires n % 2 == 0
    ensures Interleaved(Constant(x, n / 2), Constant(x, n / 2)) == Constant(x, n)
  {
  }

  lemma SecondStage(u: int, v: int, n: nat)
    requires n % 2 == 0 && IsInt16(u) && IsInt16(v)
    ensures
      var m := MeanOf(u, v);
      var q := Quad(On(m), On(m), On(m), On(m));
      LowPass(q, Constant(m, n)) == (q, Constant((u + v + 1) / 2, n))
  {
    hide Filter, W32, Evens, Odds, Delay, Constant, Add, Scaled, Interleaved, MeanOf;
    var m := MeanOf(u, v);
    MeanIs(u, v);
    PhasesOfConstant(m, n);
    FilterSettled(m, n / 2, LOWER);
    FilterSettled(m, n / 2, UPPER);
    SumOfConstants(m / 2, n / 2);
    InterleavedConstants((u + v + 1) / 2, n);
  }

  lemma MeanIs(u: int, v: int)
    requires IsInt16(u) && IsInt16(v)
    ensures
      var m := MeanOf(u, v);
      IsInt32(m) && IsInt32(m / 2 + m / 2) && (m / 2 + m / 2) / 0x8000 == (u + v + 1) / 2
  {
  }

  lemma ThirdStage(x: int, n: nat)
    requires -32768 <= x <= 32768
    ensures TwoThirds(Constant(x, 8), Constant(x, n)) == (Constant(x, 8), Constant(Weighed(x), 2 * (n / 3)))
  {
    hide OutputAt;
    var z, r := Constant(x, 8) + Constant(x, n), Constant(Weighed(x), 2 * (n / 3));
    assert z[n..] == Constant(x, 8);
    forall j: nat | j < |r| ensures r[j] == OutputAt(z, j) {
      OutputOfRamp(z, x, 0, j);
    }
    TwoThirdsIs(Constant(x, 8), Constant(x, n), r);
  }

  lemma FourthStage(x: int, n: nat)
    requires n % 2 == 0 && -32768 <= x <= 32768
    ensures
      var p := Pair(On(Weighed(x)), On(Weighed(x)));
      DownIntToShort(p, Constant(Weighed(x), n)) == (p, Constant(Saturated(Weighed(x) / 0x8000), n / 2))
  {
    hide HalfBand, Saturated;
    var t := Weighed(x);
    assert Constant(t, n) == Alternating(t, t, n);
    HalfBandSettled(t, t, n);
    assert (t / 2 + t / 2) / 0x8000 == t / 0x8000;
    assert Narrowed(Constant(t / 2 + t / 2, n / 2)) == Constant(Saturated(t / 0x8000), n / 2);
  }

  /** A settled resampler turns the stream u, v, u, v, ... into the constant that is the mean of the two, weighed by
      32883/32768 and rounded: a constant stays one, and the highest frequency, with v = -u, is silenced. */
  lemma SettledResponse(u: int, v: int, k: nat)
    requires IsInt16(u) && IsInt16(v)
    ensures
      var y := Saturated((32883 * ((u + v + 1) / 2) + 16384) / 0x8000);
      Resampled(SettledOn(u, v), Alternating(u, v, 12 * k)) == (SettledOn(u, v), Constant(y, 2 * k))
  {
    hide DownShortToInt, LowPass, TwoThirds, DownIntToShort, Constant, Alternating, Saturated, On, MeanOf;
    var x := (u + v + 1) / 2;
    HalvedDozens(k);
    assert 2 * (6 * k / 3) == 4 * k && 4 * k / 2 == 2 * k;
    FirstStage(u, v, 12 * k);
    SecondStage(u, v, 6 * k);
    ThirdStage(x, 6 * k);
    FourthStage(x, 4 * k);
  }
}
