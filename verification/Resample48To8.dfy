/** The 48 kHz to 8 kHz resampler (resample_48khz.c, resample_fractional.c): four filters through one scratch
    buffer, block by block, against the same filters over the whole stream. */
module Resample48To8 {
  import opened FixedPoint
  import opened Allpass
  import opened ResampleBy2

  // ---------------------------------------------------------------- three samples in, two samples out

  /** kCoefficients48To32. */
  const FIRST := [778, -2050, 1087, 23285, 12903, -3783, 441, 222]
  const SECOND := [222, 441, -3783, 12903, 23285, 1087, -2050, 778]

  const CARRIED := 8

  function Tap(acc: int, weight: int, x: int): int { W32(acc + W32(weight * x)) }

  /** Eight samples from position k on, weighted. */
  function Dot(c: seq<int>, z: seq<int>, k: nat): int
    requires |c| == 8 && k + 8 <= |z|
  {
    var t4 := Tap(Tap(Tap(Tap(0x4000, c[0], z[k]), c[1], z[k + 1]), c[2], z[k + 2]), c[3], z[k + 3]);
    Tap(Tap(Tap(Tap(t4, c[4], z[k + 4]), c[5], z[k + 5]), c[6], z[k + 6]), c[7], z[k + 7])
  }

  // ---------------------------------------------------------------- when the taps do not overflow

  /** The sum of the first n taps on unbounded numbers. */
  function TapSum(c: seq<int>, v: seq<int>, n: nat): int
    requires n <= |c| == |v|
  {
    if n == 0 then 0x4000 else TapSum(c, v, n - 1) + c[n - 1] * v[n - 1]
  }

  predicate TapFits(c: seq<int>, v: seq<int>, n: nat)
    requires n < |c| == |v|
  {
    IsInt32(c[n] * v[n]) && IsInt32(TapSum(c, v, n + 1))
  }

  /** No product and no sum of the taps leaves 32 bits. */
  predicate TapsFit(c: seq<int>, v: seq<int>)
    requires |c| == |v|
  {
    forall n | 0 <= n < |c| :: TapFits(c, v, n)
  }

  /** The same taps on words. */
  function TapsTo(c: seq<int>, v: seq<int>, n: nat): int
    requires n <= |c| == |v|
  {
    if n == 0 then 0x4000 else Tap(TapsTo(c, v, n - 1), c[n - 1], v[n - 1])
  }

  lemma {:induction false} TapsToIsSum(c: seq<int>, v: seq<int>, n: nat)
    requires n <= |c| == |v| && TapsFit(c, v)
    ensures TapsTo(c, v, n) == TapSum(c, v, n)
  {
    hide W32;
    if n > 0 {
      TapsToIsSum(c, v, n - 1);
      assert TapFits(c, v, n - 1);
    }
  }

  lemma DotIsTaps(c: seq<int>, z: seq<int>, k: nat)
    requires |c| == 8 && k + 8 <= |z|
    ensures Dot(c, z, k) == TapsTo(c, z[k..k + 8], 8)
  {
    hide Tap;
    var v := z[k..k + 8];
    assert TapsTo(c, v, 0) == 0x4000;
    assert TapsTo(c, v, 1) == Tap(0x4000, c[0], z[k]);
    assert TapsTo(c, v, 2) == Tap(Tap(0x4000, c[0], z[k]), c[1], z[k + 1]);
    assert TapsTo(c, v, 4) == Tap(Tap(TapsTo(c, v, 2), c[2], z[k + 2]), c[3], z[k + 3]);
    assert TapsTo(c, v, 6) == Tap(Tap(TapsTo(c, v, 4), c[4], z[k + 4]), c[5], z[k + 5]);
    assert TapsTo(c, v, 8) == Tap(Tap(TapsTo(c, v, 6), c[6], z[k + 6]), c[7], z[k + 7]);
  }

  predicate Within(v: seq<int>, bound: nat) { forall i | 0 <= i < |v| :: Abs(v[i]) <= bound }

  /** The sum of the magnitudes of the first n weights. */
  function Gain(c: seq<int>, n: nat): nat
    requires n <= |c|
  {
    if n == 0 then 0 else Gain(c, n - 1) + Abs(c[n - 1])
  }

  lemma GainIs(c: seq<int>)
    requires c == FIRST || c == SECOND
    ensures |c| == 8 && Gain(c, 8) == 44549
  {
    assert Gain(FIRST, 4) == 778 + 2050 + 1087 + 23285;
    assert Gain(SECOND, 4) == 222 + 441 + 3783 + 12903;
  }

  lemma {:induction false} GainGrows(c: seq<int>, m: nat, n: nat)
    requires m <= n <= |c|
    ensures Gain(c, m) <= Gain(c, n)
    decreases n
  {
    if m < n {
      GainGrows(c, m, n - 1);
    }
  }

  lemma ProductWithin(a: int, x: int, bound: nat)
    requires Abs(x) <= bound
    ensures -(Abs(a) * bound) <= a * x <= Abs(a) * bound
  {
  }

  lemma {:induction false} TapSumWithin(c: seq<int>, v: seq<int>, n: nat, bound: nat)
    requires n <= |c| == |v| && Within(v, bound)
    ensures 0x4000 - Gain(c, n) * bound <= TapSum(c, v, n) <= 0x4000 + Gain(c, n) * bound
  {
    hide Abs, Within;
    if n > 0 {
      var a, x, g := c[n - 1], v[n - 1], Gain(c, n - 1);
      TapSumWithin(c, v, n - 1, bound);
      ProductWithin(a, x, bound) by { WithinAt(v, bound, n - 1); }
      assert (g + Abs(a)) * bound == g * bound + Abs(a) * bound;
    }
  }

  lemma WithinAt(v: seq<int>, bound: nat, i: nat)
    requires Within(v, bound) && i < |v|
    ensures Abs(v[i]) <= bound
  {
  }

  lemma FitsAt(c: seq<int>, v: seq<int>, bound: nat, n: nat)
    requires |c| == 8 == |v| && Gain(c, 8) == 44549 && Within(v, bound) && bound <= 48204 && n < 8
    ensures TapFits(c, v, n)
  {
    hide Abs, Within;
    var g := Gain(c, n + 1);
    GainGrows(c, n + 1, 8);
    TapSumWithin(c, v, n + 1, bound);
    WithinAt(v, bound, n);
    ProductWithin(c[n], v[n], bound);
    ProductOrder(g, 44549, bound, 48204);
    ProductOrder(Abs(c[n]), 44549, bound, 48204);
  }

  lemma ProductOrder(a: nat, aMax: nat, b: nat, bMax: nat)
    requires a <= aMax && b <= bMax
    ensures a * b <= aMax * bMax
  {
  }

  lemma FitsBelow(c: seq<int>, v: seq<int>, bound: nat)
    requires |c| == 8 == |v| && Gain(c, 8) == 44549 && Within(v, bound) && bound <= 48204
    ensures TapsFit(c, v)
  {
    hide Gain, Within, TapFits;
    forall n | 0 <= n < |c| ensures TapFits(c, v, n) {
      FitsAt(c, v, bound, n);
    }
  }

  function AgainstSign(weight: int, bound: nat): int { if weight < 0 then 0 - bound else bound }

  lemma AgainstSignProduct(weight: int, bound: nat)
    ensures weight * AgainstSign(weight, bound) == Abs(weight) * bound
  {
  }

  /** The samples that add up to the most. */
  function Worst(c: seq<int>, bound: nat): (v: seq<int>)
    ensures |v| == |c| && Within(v, bound)
  {
    seq(|c|, i requires 0 <= i < |c| => AgainstSign(c[i], bound))
  }

  lemma {:induction false} WorstSum(c: seq<int>, n: nat, bound: nat)
    requires n <= |c|
    ensures TapSum(c, Worst(c, bound), n) == 0x4000 + Gain(c, n) * bound
  {
    hide Abs, AgainstSign;
    if n > 0 {
      WorstSum(c, n - 1, bound);
      AgainstSignProduct(c[n - 1], bound);
      assert Gain(c, n) * bound == Gain(c, n - 1) * bound + Abs(c[n - 1]) * bound;
    }
  }

  /** Eight samples are weighted exactly as long as the taps do not overflow, and they do not for any samples within a
      bound if and only if the bound is at most 48204. */
  lemma TapBoundIsExact(c: seq<int>, bound: nat)
    requires c == FIRST || c == SECOND
    ensures |c| == 8
    ensures forall z: seq<int>, k: nat | k + 8 <= |z| && TapsFit(c, z[k..k + 8]) ::
              Dot(c, z, k) == TapSum(c, z[k..k + 8], 8)
    ensures (forall v: seq<int> | |v| == 8 && Within(v, bound) :: TapsFit(c, v)) <==> bound <= 48204
  {
    hide Gain, Worst, TapSum, Dot, TapsTo;
    GainIs(c);
    forall z: seq<int>, k: nat | k + 8 <= |z| && TapsFit(c, z[k..k + 8])
      ensures Dot(c, z, k) == TapSum(c, z[k..k + 8], 8)
    {
      DotIsTaps(c, z, k);
      TapsToIsSum(c, z[k..k + 8], 8);
    }
    if bound <= 48204 {
      forall v: seq<int> | |v| == 8 && Within(v, bound) ensures TapsFit(c, v) {
        FitsBelow(c, v, bound);
      }
    } else {
      var v := Worst(c, bound);
      WorstSum(c, 8, bound);
      assert Gain(c, 8) * bound >= 44549 * 48205;
      assert !TapFits(c, v, 7);
    }
  }

  /** The two outputs of a block of nine samples. */
  function Output(v: seq<int>, first: bool): int
    requires |v| == 9
  {
    if first then Dot(FIRST, v, 0) else Dot(SECOND, v, 1)
  }

  /** Output j of the stream z: block j / 2 reads nine samples from three times its number on. */
  function OutputAt(z: seq<int>, j: nat): int
    requires 3 * (j / 2) + 9 <= |z|
  {
    Output(z[3 * (j / 2)..3 * (j / 2) + 9], j % 2 == 0)
  }

  /** Resampling by 2/3: the last eight samples of the stream before come first. */
  function TwoThirds(carry: seq<int>, xs: seq<int>): (r: (seq<int>, seq<int>))
    requires |carry| == CARRIED
    ensures |r.0| == CARRIED && |r.1| == 2 * (|xs| / 3)
  {
    var z := carry + xs;
    (z[|xs|..], seq(2 * (|xs| / 3), j requires 0 <= j < 2 * (|xs| / 3) => OutputAt(z, j)))
  }

  /** Dropping three times b samples drops twice b outputs. */
  lemma TwoThirdsIs(carry: seq<int>, xs: seq<int>, r: seq<int>)
    requires |carry| == CARRIED && |r| == 2 * (|xs| / 3)
    requires forall j | 0 <= j < |r| :: r[j] == OutputAt(carry + xs, j)
    ensures r == TwoThirds(carry, xs).1
  {
    hide OutputAt;
  }

  lemma OutputShifted(z: seq<int>, w: seq<int>, j: nat, b: nat)
    requires 3 * (j / 2) + 9 <= |z| && 3 * b + |z| <= |w| && w[3 * b..3 * b + |z|] == z
    ensures OutputAt(w, 2 * b + j) == OutputAt(z, j)
  {
    hide Output;
    var k := 3 * (j / 2);
    assert (2 * b + j) / 2 == b + j / 2 && (2 * b + j) % 2 == j % 2;
    SliceOfSlice(w, 3 * b, |z|, k, 9);
  }

  lemma TwoThirdsAppend(carry: seq<int>, xs: seq<int>, ys: seq<int>)
    requires |carry| == CARRIED && |xs| % 3 == 0
    ensures
      var (c, us) := TwoThirds(carry, xs);
      var (d, ws) := TwoThirds(c, ys);
      TwoThirds(carry, xs + ys) == (d, us + ws)
  {
    hide OutputAt;
    var b := |xs| / 3;
    var w, z := carry + (xs + ys), carry + xs;
    var (c, us) := TwoThirds(carry, xs);
    var z2 := c + ys;
    assert z2 == w[|xs|..];
    var (d, ws) := TwoThirds(c, ys);
    var all := TwoThirds(carry, xs + ys).1;
    forall j: nat | j < |us| ensures all[j] == us[j] {
      OutputShifted(z, w, j, 0);
    }
    forall j: nat | j < |ws| ensures all[2 * b + j] == ws[j] {
      OutputShifted(z2, w, j, b);
    }
    assert |all| == |us| + |ws|;
    assert all == us + ws;
    assert w[|xs + ys|..] == z2[|ys|..];
  }

  lemma SliceOfSlice(s: seq<int>, at: nat, n: nat, k: nat, len: nat)
    requires at + n <= |s| && k + len <= n
    ensures s[at..at + n][k..k + len] == s[at + k..at + k + len]
  {
    var part := s[at..at + n];
    var inner, outer := part[k..k + len], s[at + k..at + k + len];
    forall i | 0 <= i < len ensures inner[i] == outer[i] {
      assert part[k + i] == s[at + (k + i)];
    }
  }

  lemma BlockOutputs(z: seq<int>, v: seq<int>, m: nat)
    requires 3 * m + 9 <= |z| && v == z[3 * m..3 * m + 9]
    ensures OutputAt(z, 2 * m) == Output(v, true) && OutputAt(z, 2 * m + 1) == Output(v, false)
  {
    hide Output;
    assert 2 * m / 2 == m && 2 * m % 2 == 0 && (2 * m + 1) / 2 == m && (2 * m + 1) % 2 == 1;
  }

  /** WebRtcSpl_Resample48khzTo32khz on overlapping input and output in one buffer: the output runs ahead of no
      input still to be read. */
  method Resample48khzTo32khz(mem: array<int>, inAt: nat, outAt: nat, blocks: nat)
    requires outAt + CARRIED <= inAt && inAt + CARRIED + 3 * blocks <= mem.Length
    modifies mem
    ensures
      var z := old(mem[inAt..inAt + CARRIED + 3 * blocks]);
      forall j | 0 <= j < 2 * blocks :: mem[outAt + j] == OutputAt(z, j)
    ensures forall i | 0 <= i < mem.Length && !(outAt <= i < outAt + 2 * blocks) :: mem[i] == old(mem[i])
  {
    hide Output, OutputAt;
    ghost var before := mem[..];
    ghost var z := before[inAt..inAt + CARRIED + 3 * blocks];
    for m := 0 to blocks
      invariant forall j | 0 <= j < 2 * m :: mem[outAt + j] == OutputAt(z, j)
      invariant forall i | 0 <= i < mem.Length && !(outAt <= i < outAt + 2 * m) :: mem[i] == before[i]
    {
      ghost var v := mem[inAt + 3 * m..inAt + 3 * m + 9];
      assert v == before[inAt + 3 * m..inAt + 3 * m + 9];
      SliceOfSlice(before, inAt, |z|, 3 * m, 9);
      BlockOutputs(z, v, m);
      Block(mem, inAt + 3 * m, outAt + 2 * m);
    }
  }

  /** The body of its loop: the first output is stored before the second one reads its samples. */
  method Block(mem: array<int>, at: nat, outAt: nat)
    requires outAt < at && at + 9 <= mem.Length
    modifies mem
    ensures mem[outAt] == Output(old(mem[at..at + 9]), true) && mem[outAt + 1] == Output(old(mem[at..at + 9]), false)
    ensures forall i | 0 <= i < mem.Length && i != outAt && i != outAt + 1 :: mem[i] == old(mem[i])
  {
    hide Tap;
    var tmp := 0x4000;
    tmp := Tap(tmp, FIRST[0], mem[at]);
    tmp := Tap(tmp, FIRST[1], mem[at + 1]);
    tmp := Tap(tmp, FIRST[2], mem[at + 2]);
    tmp := Tap(tmp, FIRST[3], mem[at + 3]);
    tmp := Tap(tmp, FIRST[4], mem[at + 4]);
    tmp := Tap(tmp, FIRST[5], mem[at + 5]);
    tmp := Tap(tmp, FIRST[6], mem[at + 6]);
    tmp := Tap(tmp, FIRST[7], mem[at + 7]);
    mem[outAt] := tmp;

    tmp := 0x4000;
    tmp := Tap(tmp, SECOND[0], mem[at + 1]);
    tmp := Tap(tmp, SECOND[1], mem[at + 2]);
    tmp := Tap(tmp, SECOND[2], mem[at + 3]);
    tmp := Tap(tmp, SECOND[3], mem[at + 4]);
    tmp := Tap(tmp, SECOND[4], mem[at + 5]);
    tmp := Tap(tmp, SECOND[5], mem[at + 6]);
    tmp := Tap(tmp, SECOND[6], mem[at + 7]);
    tmp := Tap(tmp, SECOND[7], mem[at + 8]);
    mem[outAt + 1] := tmp;
  }

  // ---------------------------------------------------------------- the four filters

  /** WebRtcSpl_State48khzTo8khz. */
  datatype State = State(s48to24: Pair, s24to24: Quad, s24to16: seq<int>, s16to8: Pair)

  predicate Carries(st: State) { |st.s24to16| == CARRIED }

  const ZERO := Section(0, 0, 0, 0)

  /** WebRtcSpl_ResetResample48khzTo8khz. */
  const RESET := State(Pair(ZERO, ZERO), Quad(ZERO, ZERO, ZERO, ZERO), [0, 0, 0, 0, 0, 0, 0, 0], Pair(ZERO, ZERO))

  /** A whole stream through the four filters, one after the other. */
  function Resampled(st: State, xs: seq<int>): (r: (State, seq<int>))
    requires Carries(st)
    ensures Carries(r.0)
  {
    var (a, x24) := DownShortToInt(st.s48to24, xs);
    var (b, low) := LowPass(st.s24to24, x24);
    var (c, x16) := TwoThirds(st.s24to16, low);
    var (d, x8) := DownIntToShort(st.s16to8, x16);
    (State(a, b, c, d), x8)
  }

  lemma Halved(n: nat)
    requires n % 12 == 0
    ensures (n / 2) % 6 == 0 && n % 2 == 0 && (n / 2) % 2 == 0
  {
    HalvedDozens(n / 12);
    assert n == 12 * (n / 12);
  }

  lemma HalvedDozens(k: nat)
    ensures 12 * k / 2 == 6 * k && 6 * k % 6 == 0 && 12 * k % 2 == 0 && 6 * k % 2 == 0
  {
  }

  /** The carried samples stand in front of the new ones, and the last of them are carried on. */
  lemma CarriedOn(carry: seq<int>, low: seq<int>, mem: seq<int>, next: seq<int>)
    requires |carry| == 8 == |next| && |low| == 240 && |mem| >= 256
    requires mem[8..16] == carry && mem[16..256] == low && mem[248..256] == next
    ensures mem[8..256] == carry + low && next == (carry + low)[240..]
  {
    assert mem[8..256] == mem[8..16] + mem[16..256];
    assert mem[248..256] == mem[8..256][240..];
  }

  /** The first two filters of the four, and the last two. */
  lemma FrontAppend(a: Pair, b: Quad, xs: seq<int>, ys: seq<int>)
    requires |xs| % 12 == 0
    ensures
      var (a', x) := DownShortToInt(a, xs);
      var (b', l) := LowPass(b, x);
      var (a2, y) := DownShortToInt(a', ys);
      var (b2, m) := LowPass(b', y);
      DownShortToInt(a, xs + ys) == (a2, x + y) && LowPass(b, x + y) == (b2, l + m) && |l| % 6 == 0
  {
    hide DownShortToInt, LowPass;
    var x := DownShortToInt(a, xs).1;
    Halved(|xs|);
    DownShortToIntAppend(a, xs, ys);
    LowPassAppend(b, x, DownShortToInt(DownShortToInt(a, xs).0, ys).1);
  }

  lemma FourSixths(n: nat)
    requires n % 6 == 0
    ensures n % 3 == 0 && 2 * (n / 3) % 2 == 0
  {
  }

  lemma BackAppend(c: seq<int>, d: Pair, l: seq<int>, m: seq<int>)
    requires |c| == CARRIED && |l| % 6 == 0
    ensures
      var (c', t) := TwoThirds(c, l);
      var (d', us) := DownIntToShort(d, t);
      var (c2, v) := TwoThirds(c', m);
      var (d2, ws) := DownIntToShort(d', v);
      TwoThirds(c, l + m) == (c2, t + v) && DownIntToShort(d, t + v) == (d2, us + ws)
  {
    hide TwoThirds, DownIntToShort;
    var t := TwoThirds(c, l).1;
    FourSixths(|l|);
    TwoThirdsAppend(c, l, m);
    DownIntToShortAppend(d, t, TwoThirds(TwoThirds(c, l).0, m).1);
  }

  lemma ResampledAppend(st: State, xs: seq<int>, ys: seq<int>)
    requires Carries(st) && |xs| % 12 == 0
    ensures
      var (t, us) := Resampled(st, xs);
      var (v, ws) := Resampled(t, ys);
      Resampled(st, xs + ys) == (v, us + ws)
  {
    hide DownShortToInt, LowPass, TwoThirds, DownIntToShort;
    var (a, x) := DownShortToInt(st.s48to24, xs);
    var (b, l) := LowPass(st.s24to24, x);
    FrontAppend(st.s48to24, st.s24to24, xs, ys);
    BackAppend(st.s24to16, st.s16to8, l, LowPass(b, DownShortToInt(a, ys).1).1);
  }

  lemma SixToOne(st: State, xs: seq<int>)
    requires Carries(st) && |xs| % 12 == 0
    ensures |Resampled(st, xs).1| == |xs| / 6
  {
    hide DownShortToInt, LowPass, TwoThirds, DownIntToShort;
    LengthsOf(|xs| / 12);
    assert |xs| == 12 * (|xs| / 12);
  }

  lemma LengthsOf(n: nat)
    ensures 12 * n / 2 == 6 * n && 2 * (6 * n / 3) == 4 * n && 4 * n / 2 == 2 * n && 12 * n / 6 == 2 * n
    ensures 6 * n % 2 == 0 && 6 * n / 2 * 2 == 6 * n
  {
  }

  const BLOCK := 480

  predicate Blocks(blocks: seq<seq<int>>) { forall i | 0 <= i < |blocks| :: |blocks[i]| == BLOCK }

  function Joined(blocks: seq<seq<int>>): seq<int> {
    if blocks == [] then [] else Joined(blocks[..|blocks| - 1]) + blocks[|blocks| - 1]
  }

  /** Call after call with the state carried over. */
  function BlockWise(st: State, blocks: seq<seq<int>>): (r: (State, seq<int>))
    requires Carries(st)
    ensures Carries(r.0)
  {
    if blocks == [] then (st, [])
    else
      var (t, us) := BlockWise(st, blocks[..|blocks| - 1]);
      var (v, ws) := Resampled(t, blocks[|blocks| - 1]);
      (v, us + ws)
  }

  lemma NothingResampled(st: State)
    requires Carries(st)
    ensures Resampled(st, []) == (st, [])
  {
    var none: seq<int> := [];
    assert Shifted(none) == none && Evens(none) == none && Odds(none) == none;
    assert st.s24to16 + none == st.s24to16;
    assert Interleaved(none, none) == none;
  }

  lemma {:induction false} JoinedLength(blocks: seq<seq<int>>)
    requires Blocks(blocks)
    ensures |Joined(blocks)| == BLOCK * |blocks| && |Joined(blocks)| % 12 == 0
  {
    if blocks != [] {
      JoinedLength(blocks[..|blocks| - 1]);
    }
  }

  /** Resampling block by block gives what the four filters give over the whole stream at once. */
  lemma {:induction false} BlockWiseIsOneShot(st: State, blocks: seq<seq<int>>)
    requires Carries(st) && Blocks(blocks)
    ensures BlockWise(st, blocks) == Resampled(st, Joined(blocks))
  {
    hide Resampled, Carries;
    if blocks == [] {
      NothingResampled(st);
    } else {
      var n := |blocks| - 1;
      BlockWiseIsOneShot(st, blocks[..n]);
      JoinedLength(blocks[..n]);
      ResampledAppend(st, Joined(blocks[..n]), blocks[n]);
    }
  }

  // ---------------------------------------------------------------- one call

  class Resampler {
    const s48to24: array<int>
    const s24to24: array<int>
    const s24to16: array<int>
    const s16to8: array<int>

    ghost predicate Valid() {
      && s48to24.Length == 8 && s24to24.Length == 16 && s24to16.Length == 8 && s16to8.Length == 8
      && s48to24 != s24to16 && s48to24 != s16to8 && s24to16 != s16to8
      && s24to24 != s48to24 && s24to24 != s24to16 && s24to24 != s16to8
    }

    ghost function Repr(): set<array<int>> { {s48to24, s24to24, s24to16, s16to8} }

    function Abs(): (st: State)
      requires Valid()
      reads s48to24, s24to24, s24to16, s16to8
      ensures Carries(st)
    {
      State(PairAt(s48to24), QuadAt(s24to24), s24to16[..], PairAt(s16to8))
    }

    /** The states as WebRtcSpl_ResetResample48khzTo8khz leaves them. */
    constructor ()
      ensures Valid() && fresh(Repr()) && Abs() == RESET
    {
      s48to24 := new int[] [0, 0, 0, 0, 0, 0, 0, 0];
      s24to24 := new int[] [0, 0, 0, 0, 0, 0, 0, 0, 0, 0, 0, 0, 0, 0, 0, 0];
      s24to16 := new int[] [0, 0, 0, 0, 0, 0, 0, 0];
      s16to8 := new int[] [0, 0, 0, 0, 0, 0, 0, 0];
    }

    /** WebRtcSpl_Resample48khzTo8khz: 480 samples in, 80 samples out from outAt on. */
    method Resample48khzTo8khz(inp: array<int>, out: array<int>, outAt: nat, mem: array<int>)
      requires Valid() && inp.Length >= BLOCK && outAt + 80 <= out.Length && mem.Length >= 496
      requires inp !in Repr() && out !in Repr() && mem !in Repr() && inp != out && inp != mem && out != mem
      modifies s48to24, s24to24, s24to16, s16to8, out, mem
      ensures (Abs(), out[outAt..outAt + 80]) == Resampled(old(Abs()), inp[..BLOCK])
      ensures forall i | 0 <= i < out.Length && !(outAt <= i < outAt + 80) :: out[i] == old(out[i])
    {
      hide DownShortToInt, LowPass, DownIntToShort, OutputAt;
      ghost var st := Abs();
      DownBy2ShortToInt(inp, 480, mem, 256, s48to24);
      ghost var x24 := mem[256..496];
      LPBy2IntToInt(mem, 256, 240, 16, s24to24);
      ghost var low := mem[16..256];
      CopyWords(s24to16, 0, mem, 8);
      CopyWords(mem, 248, s24to16, 0);
      CarriedOn(st.s24to16, low, mem[..], s24to16[..]);
      Resample48khzTo32khz(mem, 8, 0, 80);
      ghost var x16 := mem[..160];
      TwoThirdsIs(st.s24to16, low, x16);
      DownBy2IntToShort(mem, 160, out, outAt, s16to8);
    }

    /** memcpy of eight words between two arrays. */
    static method CopyWords(from: array<int>, fromAt: nat, to: array<int>, toAt: nat)
      requires from != to && fromAt + 8 <= from.Length && toAt + 8 <= to.Length
      modifies to
      ensures to[toAt..toAt + 8] == from[fromAt..fromAt + 8]
      ensures forall i | 0 <= i < to.Length && !(toAt <= i < toAt + 8) :: to[i] == old(to[i])
    {
      for k := 0 to 8
        invariant forall i | toAt <= i < toAt + k :: to[i] == from[fromAt + i - toAt]
        invariant forall i | 0 <= i < to.Length && !(toAt <= i < toAt + k) :: to[i] == old(to[i])
      {
        to[toAt + k] := from[fromAt + k];
      }
    }
  }
}
