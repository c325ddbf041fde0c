/** The three half-band filters of resample_by_2_internal.c that take 48 kHz to 8 kHz. An int16_t or int32_t
    array is an array<int>; a pointer into the scratch buffer is the buffer and a position. */
module ResampleBy2 {
  import opened Allpass
  import opened FixedPoint

  // ---------------------------------------------------------------- the filters over whole streams

  /** A filter state of eight words: the lower and the upper section. */
  datatype Pair = Pair(lower: Section, upper: Section)

  /** 16-bit samples shifted 15 positions to the left, with half a step added. */
  function Shifted(xs: seq<int>): (r: seq<int>)
    ensures |r| == |xs|
  {
    seq(|xs|, i requires 0 <= i < |xs| => xs[i] * 0x8000 + 0x4000)
  }

  /** Two branches, the lower one over the even and the upper one over the odd samples, added. */
  function HalfBand(st: Pair, xs: seq<int>): (r: (Pair, seq<int>))
    ensures |r.1| == |xs| / 2
  {
    var (lower, a) := Filter(st.lower, Evens(xs), LOWER);
    var (upper, b) := Filter(st.upper, Odds(xs), UPPER);
    (Pair(lower, upper), Add(a, b))
  }

  /** WebRtcSpl_DownBy2ShortToInt. */
  function DownShortToInt(st: Pair, xs: seq<int>): (r: (Pair, seq<int>))
    ensures |r.1| == |xs| / 2
  {
    HalfBand(st, Shifted(xs))
  }

  function Saturated(x: int): (r: int)
    ensures IsInt16(r)
  {
    if x > 0x7FFF then 0x7FFF else if x < -0x8000 then -0x8000 else x
  }

  function Narrowed(xs: seq<int>): (r: seq<int>)
    ensures |r| == |xs|
  {
    seq(|xs|, i requires 0 <= i < |xs| => Saturated(xs[i] / 0x8000))
  }

  /** WebRtcSpl_DownBy2IntToShort. */
  function DownIntToShort(st: Pair, xs: seq<int>): (r: (Pair, seq<int>))
    ensures |r.1| == |xs| / 2
  {
    var (t, ys) := HalfBand(st, xs);
    (t, Narrowed(ys))
  }

  /** A filter state of sixteen words. The first word of the last section is the delay element. */
  datatype Quad = Quad(evenLower: Section, evenUpper: Section, oddLower: Section, oddUpper: Section)

  function Scaled(xs: seq<int>): (r: seq<int>)
    ensures |r| == |xs|
  {
    seq(|xs|, i requires 0 <= i < |xs| => xs[i] / 0x8000)
  }

  /** a[0], b[0], a[1], b[1], and so on. */
  function Interleaved(a: seq<int>, b: seq<int>): (r: seq<int>)
    requires |a| == |b|
    ensures |r| == 2 * |a|
  {
    seq(2 * |a|, i requires 0 <= i < 2 * |a| => if i % 2 == 0 then a[i / 2] else b[i / 2])
  }

  /** WebRtcSpl_LPBy2IntToInt: the even outputs come from the odd samples, one late, and the even samples; the
      odd outputs from the even and the odd samples. */
  function LowPass(st: Quad, xs: seq<int>): (r: (Quad, seq<int>))
    ensures |r.1| == 2 * (|xs| / 2)
  {
    var (s0, a) := Filter(st.evenLower, Delay(st.oddUpper.s0, Odds(xs)), LOWER);
    var (s1, b) := Filter(st.evenUpper, Evens(xs), UPPER);
    var (s2, c) := Filter(st.oddLower, Evens(xs), LOWER);
    var (s3, d) := Filter(st.oddUpper, Odds(xs), UPPER);
    (Quad(s0, s1, s2, s3), Interleaved(Scaled(Add(a, b)), Scaled(Add(c, d))))
  }

  // ---------------------------------------------------------------- a stream in two parts

  lemma HalfBandAppend(st: Pair, xs: seq<int>, ys: seq<int>)
    requires |xs| % 2 == 0
    ensures
      var (t, us) := HalfBand(st, xs);
      var (v, ws) := HalfBand(t, ys);
      HalfBand(st, xs + ys) == (v, us + ws)
  {
    hide Filter, Evens, Odds, Add;
    PhasesAppend(xs, ys);
    FilterAppend(st.lower, Evens(xs), Evens(ys), LOWER);
    FilterAppend(st.upper, Odds(xs), Odds(ys), UPPER);
    var (lower, a) := Filter(st.lower, Evens(xs), LOWER);
    var (upper, b) := Filter(st.upper, Odds(xs), UPPER);
    AddAppend(a, b, Filter(lower, Evens(ys), LOWER).1, Filter(upper, Odds(ys), UPPER).1);
  }

  lemma DownShortToIntAppend(st: Pair, xs: seq<int>, ys: seq<int>)
    requires |xs| % 2 == 0
    ensures
      var (t, us) := DownShortToInt(st, xs);
      var (v, ws) := DownShortToInt(t, ys);
      DownShortToInt(st, xs + ys) == (v, us + ws)
  {
    hide HalfBand;
    assert Shifted(xs + ys) == Shifted(xs) + Shifted(ys);
    HalfBandAppend(st, Shifted(xs), Shifted(ys));
  }

  lemma DownIntToShortAppend(st: Pair, xs: seq<int>, ys: seq<int>)
    requires |xs| % 2 == 0
    ensures
      var (t, us) := DownIntToShort(st, xs);
      var (v, ws) := DownIntToShort(t, ys);
      DownIntToShort(st, xs + ys) == (v, us + ws)
  {
    hide HalfBand, Saturated;
    HalfBandAppend(st, xs, ys);
    var (t, us) := HalfBand(st, xs);
    assert Narrowed(us + HalfBand(t, ys).1) == Narrowed(us) + Narrowed(HalfBand(t, ys).1);
  }

  lemma InterleavedAppend(a: seq<int>, b: seq<int>, c: seq<int>, d: seq<int>)
    requires |a| == |b| && |c| == |d|
    ensures Interleaved(a + c, b + d) == Interleaved(a, b) + Interleaved(c, d)
  {
  }

  lemma LowPassAppend(st: Quad, xs: seq<int>, ys: seq<int>)
    requires |xs| % 2 == 0
    ensures
      var (t, us) := LowPass(st, xs);
      var (v, ws) := LowPass(t, ys);
      LowPass(st, xs + ys) == (v, us + ws)
  {
    hide Filter, Evens, Odds, Add, Delay, Scaled, Interleaved;
    PhasesAppend(xs, ys);
    var e, o, e2, o2 := Evens(xs), Odds(xs), Evens(ys), Odds(ys);
    var late := Delay(st.oddUpper.s0, o);
    var t := LowPass(st, xs).0;
    FilterRemembers(st.oddUpper, o, UPPER);
    DelayAppend(st.oddUpper.s0, o, o2);
    FilterAppend(st.evenLower, late, Delay(t.oddUpper.s0, o2), LOWER);
    FilterAppend(st.evenUpper, e, e2, UPPER);
    FilterAppend(st.oddLower, e, e2, LOWER);
    FilterAppend(st.oddUpper, o, o2, UPPER);
    var a, b := Filter(st.evenLower, late, LOWER).1, Filter(st.evenUpper, e, UPPER).1;
    var c, d := Filter(st.oddLower, e, LOWER).1, Filter(st.oddUpper, o, UPPER).1;
    var a2, b2 := Filter(t.evenLower, Delay(t.oddUpper.s0, o2), LOWER).1, Filter(t.evenUpper, e2, UPPER).1;
    var c2, d2 := Filter(t.oddLower, e2, LOWER).1, Filter(t.oddUpper, o2, UPPER).1;
    AddAppend(a, b, a2, b2);
    AddAppend(c, d, c2, d2);
    ScaledAppend(Add(a, b), Add(a2, b2));
    ScaledAppend(Add(c, d), Add(c2, d2));
    InterleavedAppend(Scaled(Add(a, b)), Scaled(Add(c, d)), Scaled(Add(a2, b2)), Scaled(Add(c2, d2)));
  }

  lemma ScaledAppend(a: seq<int>, b: seq<int>)
    ensures Scaled(a + b) == Scaled(a) + Scaled(b)
  {
  }

  // ---------------------------------------------------------------- the loops in the source

  function SectionAt(state: array<int>, at: nat): Section
    requires at + 4 <= state.Length
    reads state
  {
    Section(state[at], state[at + 1], state[at + 2], state[at + 3])
  }

  /** The statements every loop repeats for one sample. */
  method Step(state: array<int>, at: nat, x: int, c: seq<int>)
    requires at + 4 <= state.Length && Row(c)
    modifies state
    ensures SectionAt(state, at) == Advance(old(SectionAt(state, at)), x, c)
    ensures forall i | 0 <= i < state.Length && !(at <= i < at + 4) :: state[i] == old(state[i])
  {
    hide W32, Weighted, ScaleRound;
    var diff := W32(x - state[at + 1]);
    diff := ScaleRound(diff);
    var tmp1 := Weighted(state[at], diff, c[0]);
    state[at] := x;
    diff := W32(tmp1 - state[at + 2]);
    diff := diff / 0x4000;
    if diff < 0 {
      diff := diff + 1;
    }
    var tmp0 := Weighted(state[at + 1], diff, c[1]);
    state[at + 1] := tmp1;
    diff := W32(tmp0 - state[at + 3]);
    diff := diff / 0x4000;
    if diff < 0 {
      diff := diff + 1;
    }
    state[at + 3] := Weighted(state[at + 2], diff, c[2]);
    state[at + 2] := tmp0;
  }

  /** Everything in mem but n places, two apart from at on, is as it was in before. */
  predicate Elsewhere(mem: seq<int>, before: seq<int>, at: nat, n: nat) {
    && |mem| == |before|
    && forall i | 0 <= i < |mem| && !(at <= i < at + 2 * n && (i - at) % 2 == 0) :: mem[i] == before[i]
  }

  lemma ElsewhereNone(mem: seq<int>, at: nat)
    ensures Elsewhere(mem, mem, at, 0)
  {
  }

  /** The next place may change, and whatever lies from there on is as it was. */
  lemma ElsewhereNext(mem: seq<int>, before: seq<int>, at: nat, n: nat, x: int)
    requires Elsewhere(mem, before, at, n) && at + 2 * n < |mem|
    ensures Elsewhere(mem[at + 2 * n := x], before, at, n + 1)
    ensures forall i | at + 2 * n <= i < |mem| :: mem[i] == before[i]
  {
  }

  /** n words of mem, every second one from at on. */
  function EverySecond(mem: seq<int>, at: nat, n: nat): (r: seq<int>)
    requires at + 2 * n <= |mem| + 1
    ensures |r| == n
  {
    seq(n, i requires 0 <= i < n => mem[at + 2 * i])
  }

  /** Places in front of the words do not matter for them. */
  lemma SecondsKept(mem: seq<int>, before: seq<int>, at: nat, n: nat, front: nat)
    requires |mem| == |before| && at + 2 * n <= |mem| + 1 && front <= at
    requires forall i | front <= i < |mem| :: mem[i] == before[i]
    ensures EverySecond(mem, at, n) == EverySecond(before, at, n)
  {
  }

  /** A loop over every second of the words of mem from inAt on; half the last word is stored at every second
      place from outAt on. The two ranges may be one and the same. */
  method Branch(mem: array<int>, inAt: nat, outAt: nat, n: nat, state: array<int>, at: nat, c: seq<int>)
    requires mem != state && Row(c) && at + 4 <= state.Length
    requires inAt + 2 * n <= mem.Length + 1 && outAt + 2 * n <= mem.Length + 1
    requires inAt == outAt || outAt + 2 * n <= inAt + 1
    modifies mem, state
    ensures
      var s, xs := old(SectionAt(state, at)), EverySecond(old(mem[..]), inAt, n);
      && SectionAt(state, at) == Filter(s, xs, c).0
      && forall k | 0 <= k < n :: mem[outAt + 2 * k] == Filter(s, xs, c).1[k]
    ensures Elsewhere(mem[..], old(mem[..]), outAt, n)
    ensures forall i | 0 <= i < state.Length && !(at <= i < at + 4) :: state[i] == old(state[i])
  {
    hide Filter, Advance, Elsewhere;
    ghost var s, xs := SectionAt(state, at), EverySecond(old(mem[..]), inAt, n);
    FilterNone(s, c);
    ElsewhereNone(mem[..], outAt);
    for i := 0 to n
      invariant SectionAt(state, at) == Filter(s, xs[..i], c).0
      invariant forall k | 0 <= k < i :: mem[outAt + 2 * k] == HalfAt(s, xs, c, k)
      invariant Elsewhere(mem[..], old(mem[..]), outAt, i)
      invariant forall j | 0 <= j < state.Length && !(at <= j < at + 4) :: state[j] == old(state[j])
    {
      ghost var now := mem[..];
      ElsewhereNext(now, old(mem[..]), outAt, i, HalfAt(s, xs, c, i));
      var tmp0 := mem[inAt + 2 * i];
      assert tmp0 == now[inAt + 2 * i] == xs[i];
      Step(state, at, tmp0, c);
      FilterState(s, xs, c, i);
      mem[outAt + 2 * i] := state[at + 3] / 2;
      assert mem[..] == now[outAt + 2 * i := HalfAt(s, xs, c, i)];
    }
    assert xs[..n] == xs;
    FilterOutputs(s, xs, c);
  }

  function Average(x: int, y: int): int { W32(x + y) / 0x8000 }

  /** The loop that averages: half the last word is added to what is stored already, and scaled down. */
  method AveragingBranch(mem: array<int>, inAt: nat, outAt: nat, n: nat, state: array<int>, at: nat, c: seq<int>)
    requires mem != state && Row(c) && at + 4 <= state.Length
    requires inAt + 2 * n <= mem.Length + 1 && outAt + 2 * n <= inAt + 1
    modifies mem, state
    ensures
      var s, xs := old(SectionAt(state, at)), EverySecond(old(mem[..]), inAt, n);
      && SectionAt(state, at) == Filter(s, xs, c).0
      && forall k | 0 <= k < n :: mem[outAt + 2 * k] == Average(old(mem[..])[outAt + 2 * k], Filter(s, xs, c).1[k])
    ensures Elsewhere(mem[..], old(mem[..]), outAt, n)
    ensures forall i | 0 <= i < state.Length && !(at <= i < at + 4) :: state[i] == old(state[i])
  {
    hide Filter, Advance, Average, Elsewhere;
    ghost var before := mem[..];
    ghost var s, xs := SectionAt(state, at), EverySecond(before, inAt, n);
    FilterNone(s, c);
    ElsewhereNone(mem[..], outAt);
    for i := 0 to n
      invariant SectionAt(state, at) == Filter(s, xs[..i], c).0
      invariant forall k | 0 <= k < i :: mem[outAt + 2 * k] == Average(before[outAt + 2 * k], HalfAt(s, xs, c, k))
      invariant Elsewhere(mem[..], old(mem[..]), outAt, i)
      invariant forall j | 0 <= j < state.Length && !(at <= j < at + 4) :: state[j] == old(state[j])
    {
      ghost var now, x := mem[..], Average(before[outAt + 2 * i], HalfAt(s, xs, c, i));
      ElsewhereNext(now, before, outAt, i, x);
      var tmp0 := mem[inAt + 2 * i];
      assert tmp0 == now[inAt + 2 * i] == xs[i];
      Step(state, at, tmp0, c);
      FilterState(s, xs, c, i);
      assert mem[outAt + 2 * i] == now[outAt + 2 * i] == before[outAt + 2 * i];
      mem[outAt + 2 * i] := Average(mem[outAt + 2 * i], state[at + 3] / 2);
      assert mem[..] == now[outAt + 2 * i := x];
    }
    assert xs[..n] == xs;
    FilterOutputs(s, xs, c);
  }

  /** The first loop of the low pass: it starts with the delay element and lags one sample behind. */
  method LateBranch(mem: array<int>, inAt: nat, outAt: nat, n: nat, state: array<int>)
    requires mem != state && state.Length == 16
    requires inAt + 2 * n <= mem.Length + 1 && outAt + 2 * n <= inAt + 1
    modifies mem, state
    ensures
      var s, xs := old(SectionAt(state, 0)), Delay(old(state[12]), EverySecond(old(mem[..]), inAt, n));
      && SectionAt(state, 0) == Filter(s, xs, LOWER).0
      && forall k | 0 <= k < n :: mem[outAt + 2 * k] == Filter(s, xs, LOWER).1[k]
    ensures Elsewhere(mem[..], old(mem[..]), outAt, n)
    ensures forall i | 4 <= i < state.Length :: state[i] == old(state[i])
  {
    hide Filter, Advance, Elsewhere;
    ghost var odds := EverySecond(old(mem[..]), inAt, n);
    ghost var s, xs := SectionAt(state, 0), Delay(state[12], odds);
    FilterNone(s, LOWER);
    ElsewhereNone(mem[..], outAt);
    var tmp0 := state[12];
    for i := 0 to n
      invariant SectionAt(state, 0) == Filter(s, xs[..i], LOWER).0
      invariant tmp0 == if i == 0 then old(state[12]) else odds[i - 1]
      invariant forall k | 0 <= k < i :: mem[outAt + 2 * k] == HalfAt(s, xs, LOWER, k)
      invariant Elsewhere(mem[..], old(mem[..]), outAt, i)
      invariant forall j | 4 <= j < state.Length :: state[j] == old(state[j])
    {
      ghost var now := mem[..];
      ElsewhereNext(now, old(mem[..]), outAt, i, HalfAt(s, xs, LOWER, i));
      assert tmp0 == xs[i];
      Step(state, 0, tmp0, LOWER);
      FilterState(s, xs, LOWER, i);
      mem[outAt + 2 * i] := state[3] / 2;
      assert mem[..] == now[outAt + 2 * i := HalfAt(s, xs, LOWER, i)];
      tmp0 := mem[inAt + 2 * i];
      assert tmp0 == now[inAt + 2 * i] == odds[i];
    }
    assert xs[..n] == xs;
    FilterOutputs(s, xs, LOWER);
  }

  function PairAt(state: array<int>): Pair
    requires state.Length == 8
    reads state
  {
    Pair(SectionAt(state, 0), SectionAt(state, 4))
  }

  function QuadAt(state: array<int>): Quad
    requires state.Length == 16
    reads state
  {
    Quad(SectionAt(state, 0), SectionAt(state, 4), SectionAt(state, 8), SectionAt(state, 12))
  }

  lemma PhasesOf(mem: seq<int>, at: nat, len: nat)
    requires len % 2 == 0 && at + len <= |mem|
    ensures Evens(mem[at..at + len]) == EverySecond(mem, at, len / 2)
    ensures Odds(mem[at..at + len]) == EverySecond(mem, at + 1, len / 2)
  {
  }

  /** The first two loops of the low pass: the even outputs. */
  method EvenOutputs(mem: array<int>, inAt: nat, half: nat, outAt: nat, state: array<int>)
    requires mem != state && state.Length == 16
    requires outAt + 2 * half <= inAt && inAt + 2 * half <= mem.Length
    modifies mem, state
    ensures
      var st, before := old(QuadAt(state)), old(mem[..]);
      var (s0, a) := Filter(st.evenLower, Delay(st.oddUpper.s0, EverySecond(before, inAt + 1, half)), LOWER);
      var (s1, b) := Filter(st.evenUpper, EverySecond(before, inAt, half), UPPER);
      && QuadAt(state) == st.(evenLower := s0, evenUpper := s1)
      && forall k | 0 <= k < half :: mem[outAt + 2 * k] == Average(a[k], b[k])
    ensures Elsewhere(mem[..], old(mem[..]), outAt, half)
  {
    hide Filter, Average, EverySecond, Delay;
    ghost var before := mem[..];
    LateBranch(mem, inAt + 1, outAt, half, state);
    SecondsKept(mem[..], before, inAt, half, inAt);
    AveragingBranch(mem, inAt, outAt, half, state, 4, UPPER);
  }

  /** The last two loops of the low pass: the odd outputs. */
  method OddOutputs(mem: array<int>, inAt: nat, half: nat, outAt: nat, state: array<int>)
    requires mem != state && state.Length == 16
    requires outAt + 2 * half <= inAt && inAt + 2 * half <= mem.Length
    modifies mem, state
    ensures
      var st, before := old(QuadAt(state)), old(mem[..]);
      var (s2, c) := Filter(st.oddLower, EverySecond(before, inAt, half), LOWER);
      var (s3, d) := Filter(st.oddUpper, EverySecond(before, inAt + 1, half), UPPER);
      && QuadAt(state) == st.(oddLower := s2, oddUpper := s3)
      && forall k | 0 <= k < half :: mem[outAt + 1 + 2 * k] == Average(c[k], d[k])
    ensures Elsewhere(mem[..], old(mem[..]), outAt + 1, half)
  {
    hide Filter, Average, EverySecond;
    ghost var before := mem[..];
    Branch(mem, inAt, outAt + 1, half, state, 8, LOWER);
    SecondsKept(mem[..], before, inAt + 1, half, inAt + 1);
    AveragingBranch(mem, inAt + 1, outAt + 1, half, state, 12, UPPER);
  }

  /** WebRtcSpl_LPBy2IntToInt on two ranges of one buffer, the output in front of the input. */
  method LPBy2IntToInt(mem: array<int>, inAt: nat, len: nat, outAt: nat, state: array<int>)
    requires mem != state && state.Length == 16 && len % 2 == 0
    requires outAt + len <= inAt && inAt + len <= mem.Length
    modifies mem, state
    ensures (QuadAt(state), mem[outAt..outAt + len]) == LowPass(old(QuadAt(state)), old(mem[inAt..inAt + len]))
    ensures forall i | 0 <= i < mem.Length && !(outAt <= i < outAt + len) :: mem[i] == old(mem[i])
  {
    hide Filter, Average, EverySecond, Evens, Odds, Delay, Add, Scaled, Interleaved, SectionAt;
    var half := len / 2;
    ghost var st, before := QuadAt(state), mem[..];
    ghost var evens, odds := EverySecond(before, inAt, half), EverySecond(before, inAt + 1, half);
    PhasesOf(before, inAt, len);
    EvenOutputs(mem, inAt, half, outAt, state);
    SecondsKept(mem[..], before, inAt, half, inAt);
    SecondsKept(mem[..], before, inAt + 1, half, inAt + 1);
    OddOutputs(mem, inAt, half, outAt, state);
    Averaged(mem[..], outAt,
             Filter(st.evenLower, Delay(st.oddUpper.s0, odds), LOWER).1, Filter(st.evenUpper, evens, UPPER).1,
             Filter(st.oddLower, evens, LOWER).1, Filter(st.oddUpper, odds, UPPER).1);
  }

  lemma Averaged(mem: seq<int>, at: nat, a: seq<int>, b: seq<int>, c: seq<int>, d: seq<int>)
    requires |a| == |b| == |c| == |d| && at + 2 * |a| <= |mem|
    requires forall k | 0 <= k < |a| :: mem[at + 2 * k] == Average(a[k], b[k])
    requires forall k | 0 <= k < |a| :: mem[at + 1 + 2 * k] == Average(c[k], d[k])
    ensures mem[at..at + 2 * |a|] == Interleaved(Scaled(Add(a, b)), Scaled(Add(c, d)))
  {
  }

  // ---------------------------------------------------------------- the two decimators

  /** The first loop of WebRtcSpl_DownBy2ShortToInt: the lower branch over the even samples. */
  method LowerBranch(inp: array<int>, half: nat, mem: array<int>, outAt: nat, state: array<int>)
    requires inp != mem && inp != state && mem != state
    requires 2 * half <= inp.Length && outAt + half <= mem.Length && state.Length == 8
    modifies mem, state
    ensures
      var st, evens := old(PairAt(state)), Evens(Shifted(inp[..2 * half]));
      && PairAt(state) == st.(lower := Filter(st.lower, evens, LOWER).0)
      && mem[outAt..outAt + half] == Filter(st.lower, evens, LOWER).1
    ensures forall i | 0 <= i < mem.Length && !(outAt <= i < outAt + half) :: mem[i] == old(mem[i])
  {
    hide Filter, Advance;
    ghost var st, evens := PairAt(state), Evens(Shifted(inp[..2 * half]));
    FilterNone(st.lower, LOWER);
    for i := 0 to half
      invariant PairAt(state) == st.(lower := Filter(st.lower, evens[..i], LOWER).0)
      invariant forall k | 0 <= k < i :: mem[outAt + k] == HalfAt(st.lower, evens, LOWER, k)
      invariant forall j | 0 <= j < mem.Length && !(outAt <= j < outAt + half) :: mem[j] == old(mem[j])
    {
      var tmp0 := inp[2 * i] * 0x8000 + 0x4000;
      assert tmp0 == evens[i];
      Step(state, 0, tmp0, LOWER);
      FilterState(st.lower, evens, LOWER, i);
      mem[outAt + i] := state[3] / 2;
    }
    assert evens[..half] == evens;
    FilterOutputs(st.lower, evens, LOWER);
  }

  /** Its second loop: the upper branch over the odd samples is added. */
  method UpperBranch(inp: array<int>, half: nat, mem: array<int>, outAt: nat, state: array<int>)
    requires inp != mem && inp != state && mem != state
    requires 2 * half <= inp.Length && outAt + half <= mem.Length && state.Length == 8
    modifies mem, state
    ensures
      var st, odds := old(PairAt(state)), Odds(Shifted(inp[..2 * half]));
      && PairAt(state) == st.(upper := Filter(st.upper, odds, UPPER).0)
      && mem[outAt..outAt + half] == Add(old(mem[outAt..outAt + half]), Filter(st.upper, odds, UPPER).1)
    ensures forall i | 0 <= i < mem.Length && !(outAt <= i < outAt + half) :: mem[i] == old(mem[i])
  {
    hide Filter, Advance, W32;
    ghost var st, odds, a := PairAt(state), Odds(Shifted(inp[..2 * half])), mem[outAt..outAt + half];
    FilterNone(st.upper, UPPER);
    for i := 0 to half
      invariant PairAt(state) == st.(upper := Filter(st.upper, odds[..i], UPPER).0)
      invariant forall k | 0 <= k < i :: mem[outAt + k] == W32(a[k] + HalfAt(st.upper, odds, UPPER, k))
      invariant forall k | i <= k < half :: mem[outAt + k] == a[k]
      invariant forall j | 0 <= j < mem.Length && !(outAt <= j < outAt + half) :: mem[j] == old(mem[j])
    {
      var tmp0 := inp[2 * i + 1] * 0x8000 + 0x4000;
      assert tmp0 == odds[i];
      Step(state, 4, tmp0, UPPER);
      FilterState(st.upper, odds, UPPER, i);
      mem[outAt + i] := W32(mem[outAt + i] + state[7] / 2);
    }
    assert odds[..half] == odds;
    FilterOutputs(st.upper, odds, UPPER);
  }

  /** WebRtcSpl_DownBy2ShortToInt. */
  method DownBy2ShortToInt(inp: array<int>, len: nat, mem: array<int>, outAt: nat, state: array<int>)
    requires inp != mem && inp != state && mem != state && len % 2 == 0
    requires len <= inp.Length && outAt + len / 2 <= mem.Length && state.Length == 8
    modifies mem, state
    ensures (PairAt(state), mem[outAt..outAt + len / 2]) == DownShortToInt(old(PairAt(state)), inp[..len])
    ensures forall i | 0 <= i < mem.Length && !(outAt <= i < outAt + len / 2) :: mem[i] == old(mem[i])
  {
    hide Filter, Add, Evens, Odds, Shifted;
    var half := len / 2;
    assert 2 * half == len;
    LowerBranch(inp, half, mem, outAt, state);
    UpperBranch(inp, half, mem, outAt, state);
  }

  lemma EvenHalf(len: nat)
    requires len % 4 == 0
    ensures 2 * (len / 2) == len && (len / 2) % 2 == 0
  {
  }

  lemma DownIntToShortIs(st: Pair, xs: seq<int>)
    requires |xs| % 2 == 0
    ensures
      var (lower, a) := Filter(st.lower, Evens(xs), LOWER);
      var (upper, b) := Filter(st.upper, Odds(xs), UPPER);
      DownIntToShort(st, xs) == (Pair(lower, upper), Narrowed(Add(a, b)))
  {
    hide Filter, Evens, Odds, Narrowed, Add;
  }

  /** WebRtcSpl_DownBy2IntToShort, which overwrites its input and writes its output two at a time. */
  method DownBy2IntToShort(mem: array<int>, len: nat, out: array<int>, outAt: nat, state: array<int>)
    requires mem != out && mem != state && out != state && len % 4 == 0
    requires len <= mem.Length && outAt + len / 2 <= out.Length && state.Length == 8
    modifies mem, out, state
    ensures (PairAt(state), out[outAt..outAt + len / 2]) == DownIntToShort(old(PairAt(state)), old(mem[..len]))
    ensures forall i | 0 <= i < out.Length && !(outAt <= i < outAt + len / 2) :: out[i] == old(out[i])
  {
    hide DownIntToShort, PairAt;
    EvenHalf(len);
    Halve(mem, len / 2, out, outAt, state);
  }

  /** Its loops, once the length is halved. */
  method Halve(mem: array<int>, half: nat, out: array<int>, outAt: nat, state: array<int>)
    requires mem != out && mem != state && out != state && half % 2 == 0
    requires 2 * half <= mem.Length && outAt + half <= out.Length && state.Length == 8
    modifies mem, out, state
    ensures (PairAt(state), out[outAt..outAt + half]) == DownIntToShort(old(PairAt(state)), old(mem[..2 * half]))
    ensures forall i | 0 <= i < out.Length && !(outAt <= i < outAt + half) :: out[i] == old(out[i])
  {
    hide Filter, Evens, Odds, Narrowed, Add, DownIntToShort, Alternate, PairAt;
    ghost var st, xs := PairAt(state), mem[..2 * half];
    ghost var a, b := Filter(st.lower, Evens(xs), LOWER).1, Filter(st.upper, Odds(xs), UPPER).1;
    DownIntToShortIs(st, xs);
    BothBranches(mem, half, state);
    Combine(mem, half, out, outAt, a, b);
  }

  /** mem begins with the elements of a and b, alternating. */
  ghost predicate Alternate(mem: seq<int>, a: seq<int>, b: seq<int>) {
    |a| == |b| && 2 * |a| <= |mem| && forall k | 0 <= k < |a| :: mem[0 + 2 * k] == a[k] && mem[1 + 2 * k] == b[k]
  }

  /** The first two loops of WebRtcSpl_DownBy2IntToShort: each branch replaces its own samples. */
  method BothBranches(mem: array<int>, half: nat, state: array<int>)
    requires mem != state && 2 * half <= mem.Length && state.Length == 8
    modifies mem, state
    ensures
      var st, xs := old(PairAt(state)), old(mem[..2 * half]);
      var (lower, a) := Filter(st.lower, Evens(xs), LOWER);
      var (upper, b) := Filter(st.upper, Odds(xs), UPPER);
      PairAt(state) == Pair(lower, upper) && Alternate(mem[..], a, b)
  {
    hide Filter, Evens, Odds, EverySecond;
    ghost var before := mem[..];
    PhasesOf(before, 0, 2 * half);
    assert before[0..2 * half] == mem[..2 * half];
    Branch(mem, 0, 0, half, state, 0, LOWER);
    ghost var between := mem[..];
    OthersKept(between, before, 0, 1, half);
    Branch(mem, 1, 1, half, state, 4, UPPER);
    OthersKept(mem[..], between, 1, 0, half);
  }

  /** Words a step apart do not matter for those in between. */
  lemma OthersKept(mem: seq<int>, before: seq<int>, at: nat, other: nat, n: nat)
    requires 2 * n <= |mem| && Elsewhere(mem, before, at, n)
    requires (at == 0 && other == 1) || (at == 1 && other == 0)
    ensures EverySecond(mem, other, n) == EverySecond(before, other, n)
    ensures forall k | 0 <= k < n :: mem[other + 2 * k] == before[other + 2 * k]
  {
  }

  /** The last loop of WebRtcSpl_DownBy2IntToShort. */
  method Combine(mem: array<int>, half: nat, out: array<int>, outAt: nat, ghost a: seq<int>, ghost b: seq<int>)
    requires mem != out && half % 2 == 0 && 2 * half <= mem.Length && outAt + half <= out.Length
    requires |a| == half == |b| && Alternate(mem[..], a, b)
    modifies out
    ensures out[outAt..outAt + half] == Narrowed(Add(a, b))
    ensures forall i | 0 <= i < out.Length && !(outAt <= i < outAt + half) :: out[i] == old(out[i])
  {
    hide W32, Saturated;
    var i := 0;
    while i < half
      invariant 0 <= i <= half && i % 2 == 0
      invariant forall k | 0 <= k < i :: out[outAt + k] == Saturated(W32(a[k] + b[k]) / 0x8000)
      invariant forall j | 0 <= j < out.Length && !(outAt <= j < outAt + half) :: out[j] == old(out[j])
    {
      assert mem[0 + 2 * (i + 1)] == a[i + 1] && mem[1 + 2 * (i + 1)] == b[i + 1];
      var tmp0 := W32(mem[2 * i] + mem[2 * i + 1]) / 0x8000;
      var tmp1 := W32(mem[2 * i + 2] + mem[2 * i + 3]) / 0x8000;
      out[outAt + i] := Saturated(tmp0);
      out[outAt + i + 1] := Saturated(tmp1);
      i := i + 2;
    }
  }
}
