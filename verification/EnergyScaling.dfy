/** The energy pipeline: GetScalingSquare and Energy of the signal processing library, and
    LogOfEnergy of vad_filterbank.c, which turns a band into a feature. */
module EnergyScaling {
  import opened FixedPoint

  const LOG_CONST := 24660
  const LOG_ENERGY_INT_PART := 14336
  const MIN_ENERGY := 10

  predicate Words(v: seq<int>) { forall i | 0 <= i < |v| :: IsInt16(v[i]) }

  /** No sample is the one word whose magnitude does not fit a word. */
  predicate NoMinimum(v: seq<int>) { forall i | 0 <= i < |v| :: -32767 <= v[i] <= 32767 }

  // ---------------------------------------------------------------- GetScalingSquare

  /** The magnitude of a sample, as a word. */
  function Magnitude(x: int): int { if x > 0 then x else W16(-x) }

  /** The largest magnitude, or -1 of nothing. */
  function Largest(v: seq<int>): (m: int)
    ensures m >= -1
  {
    if v == [] then -1
    else
      var rest, last := Largest(v[..|v| - 1]), Magnitude(v[|v| - 1]);
      if last > rest then last else rest
  }

  /** How far each square is to be shifted so that `times` of them can be added. */
  function Scaling(largest: int, times: nat): nat {
    var nbits, t := BitLen(times), NormW32(largest * largest);
    if largest == 0 then 0 else if t > nbits then 0 else nbits - t
  }

  method GetScalingSquare(v: seq<int>, times: nat) returns (shift: nat)
    requires Words(v)
    ensures shift == Scaling(Largest(v), times)
  {
    var nbits := BitLen(times);
    var smax := -1;
    for i := 0 to |v|
      invariant smax == Largest(v[..i])
    {
      var sabs := if v[i] > 0 then v[i] else W16(-v[i]);
      smax := if sabs > smax then sabs else smax;
      assert v[..i + 1][..i] == v[..i];
    }
    assert v[..|v|] == v;
    var t := NormW32(smax * smax);
    if smax == 0 {
      shift := 0;
    } else {
      shift := if t > nbits then 0 else nbits - t;
    }
  }

  // ---------------------------------------------------------------- Energy

  function Shr(x: nat, s: nat): (r: nat)
    ensures r * Pow2(s) <= x < (r + 1) * Pow2(s)
  {
    hide Pow2;
    DivBracket(x, Pow2(s));
    DivLower(0, x, Pow2(s));
    x / Pow2(s)
  }

  /** The sum of the squares, each shifted. */
  function Sum(v: seq<int>, shift: nat): (e: nat)
  {
    if v == [] then 0 else Sum(v[..|v| - 1], shift) + Shr(Square(v[|v| - 1]), shift)
  }

  function Square(x: int): (y: nat)
    ensures y == x * x
  {
    assert x * x >= 0 by { if x < 0 { assert (-x) * (-x) >= 0; } }
    x * x
  }

  lemma LargestIsLargest(v: seq<int>, i: nat)
    requires NoMinimum(v) && i < |v|
    ensures Abs(v[i]) <= Largest(v) <= 32767
  {
    if i < |v| - 1 {
      LargestIsLargest(v[..|v| - 1], i);
    } else if |v| > 1 {
      LargestIsLargest(v[..|v| - 1], 0);
    }
  }

  lemma SquareOrder(x: int, m: int)
    requires Abs(x) <= m
    ensures Square(x) <= m * m
  {
  }

  /** A sum of terms none of which exceeds a bound. */
  lemma {:induction false} SumBound(v: seq<int>, shift: nat, bound: nat)
    requires forall i | 0 <= i < |v| :: Shr(Square(v[i]), shift) <= bound
    ensures Sum(v, shift) <= |v| * bound
  {
    if v != [] {
      SumBound(v[..|v| - 1], shift, bound);
      assert (|v| - 1) * bound + bound == |v| * bound;
    }
  }

  /** The largest square, shifted as GetScalingSquare says, times the number of samples stays
      below 2^31. */
  lemma ScalingWorks(m: int, n: nat)
    requires 0 < m <= 32767 && n < 0x8000_0000
    ensures n * Shr(m * m, Scaling(m, n)) < 0x8000_0000
  {
    hide Pow2, BitLen, Shr;
    var q, nbits := m * m, BitLen(n);
    SquareOrder(m, 32767);
    assert 0 < q <= 32767 * 32767;
    Powers();
    BitLenBound(q, 30);
    BitLenBound(n, 31);
    var b := BitLen(q);
    assert NormW32(q) == 31 - b >= 1;
    if 31 - b > nbits {
      Unshifted(n, q, nbits, b);
    } else {
      Shifted(n, q, nbits, b);
    }
  }

  lemma Unshifted(n: nat, q: nat, nbits: nat, b: nat)
    requires n < Pow2(nbits) && q < Pow2(b) && nbits + b < 31
    ensures n * Shr(q, 0) < 0x8000_0000
  {
    assert Shr(q, 0) == q;
    hide Pow2, Shr;
    Powers();
    ProductBelow(n, Pow2(nbits), q, Pow2(b));
    Pow2Add(nbits, b);
    Pow2Monotone(nbits + b, 31);
  }

  lemma Shifted(n: nat, q: nat, nbits: nat, b: nat)
    requires n < Pow2(nbits) && q < Pow2(b) && nbits <= 31 && b <= 31 <= nbits + b
    ensures n * Shr(q, nbits - (31 - b)) < 0x8000_0000
  {
    hide Pow2, Shr;
    Powers();
    var s, r := nbits - (31 - b), Pow2(31 - nbits);
    Pow2Add(s, 31 - nbits);
    Pow2Add(nbits, 31 - nbits);
    ShrBelow(q, s, r);
    ProductBelow(n, Pow2(nbits), Shr(q, s), r);
  }

  lemma ShrBelow(x: nat, s: nat, r: nat)
    requires x < Pow2(s) * r
    ensures Shr(x, s) < r
  {
    hide Pow2, Shr;
    var p, y := Pow2(s), Shr(x, s);
    assert y * p <= x < r * p;
    MulCancel(y, r, p);
  }

  lemma ProductBelow(a: nat, aMax: nat, b: nat, bMax: nat)
    requires a < aMax && b < bMax
    ensures a * b < aMax * bMax
  {
  }

  lemma BitLenBound(n: nat, k: nat)
    requires n < Pow2(k)
    ensures BitLen(n) <= k
  {
  }

  lemma Powers()
    ensures Pow2(4) == 16 && Pow2(5) == 32 && Pow2(6) == 64 && Pow2(14) == 16384 && Pow2(15) == 32768
    ensures Pow2(30) == 0x4000_0000 && Pow2(31) == 0x8000_0000
  {
    assert Pow2(5) == 32;
    Pow2Add(5, 5);
    Pow2Add(10, 5);
    Pow2Add(15, 15);
  }

  /** The promise of GetScalingSquare: on a vector without the sample -32768 the sum in Energy, and
      with it every partial sum, fits 32 bits. */
  lemma EnergyFits(v: seq<int>)
    requires NoMinimum(v) && |v| < 0x8000_0000
    ensures Sum(v, Scaling(Largest(v), |v|)) < 0x8000_0000
  {
    hide Pow2, Shr, Scaling, Square, Largest;
    if v != [] {
      var m, s := Largest(v), Scaling(Largest(v), |v|);
      LargestIsLargest(v, 0);
      forall i | 0 <= i < |v|
        ensures Shr(Square(v[i]), s) <= Shr(m * m, s)
      {
        LargestIsLargest(v, i);
        SquareOrder(v[i], m);
        ShrMonotone(Square(v[i]), m * m, s);
      }
      SumBound(v, s, Shr(m * m, s));
      if m > 0 {
        ScalingWorks(m, |v|);
      } else {
        ShrOfZero(s);
      }
    }
  }

  lemma ShrMonotone(x: nat, y: nat, s: nat)
    requires x <= y
    ensures Shr(x, s) <= Shr(y, s)
  {
    DivMonotone(x, y, Pow2(s), Pow2(s));
  }

  lemma ShrOfZero(s: nat)
    ensures Shr(0, s) == 0
  {
  }

  lemma WrapAdd(a: int, b: int)
    ensures W32(W32(a) + b) == W32(a + b)
  {
    var k := Wraps(a);
    WrapsAdd(W32(a) + b, k);
  }

  /** How often a value wraps around. */
  lemma Wraps(a: int) returns (k: int)
    ensures a == W32(a) + k * 0x1_0000_0000
  {
    k := (a + 0x8000_0000) / 0x1_0000_0000;
  }

  lemma WrapsAdd(a: int, k: int)
    ensures W32(a + k * 0x1_0000_0000) == W32(a)
  {
  }

  /** WebRtcSpl_Energy: the sum as a 32-bit word, and the shift it was taken at. */
  method Energy(v: seq<int>) returns (en: int, scaleFactor: nat)
    requires Words(v)
    ensures scaleFactor == Scaling(Largest(v), |v|)
    ensures en == W32(Sum(v, scaleFactor))
    ensures NoMinimum(v) && |v| < 0x8000_0000 ==> en == Sum(v, scaleFactor)
  {
    hide Scaling, Largest, W32;
    var scaling := GetScalingSquare(v, |v|);
    en := 0;
    for i := 0 to |v|
      invariant en == W32(Sum(v[..i], scaling))
    {
      WrapAdd(Sum(v[..i], scaling), Shr(Square(v[i]), scaling));
      en := W32(en + Shr(Square(v[i]), scaling));
      assert v[..i + 1][..i] == v[..i];
    }
    assert v[..|v|] == v;
    scaleFactor := scaling;
    if NoMinimum(v) && |v| < 0x8000_0000 {
      EnergyFits(v);
    }
  }

  /** With the sample -32768 the promise is broken: its magnitude is taken for -32768, so two such
      samples are added unshifted and their sum leaves 32 bits. */
  lemma MinimumOverflows()
    ensures var v := [-32768, -32768]; Scaling(Largest(v), |v|) == 0 && Sum(v, 0) == 0x8000_0000
  {
    var v := [-32768, -32768];
    assert v[..1] == [-32768] && v[..1][..0] == [];
    assert Magnitude(-32768) == -32768;
    assert Largest([]) == -1 && Largest(v[..1]) == -1 && Largest(v) == -1;
    assert BitLen(1) == 1 && BitLen(2) == 2;
    assert Square(-32768) == 0x4000_0000;
    ShrByZero(0x4000_0000);
    assert Sum([], 0) == 0;
    assert Sum(v[..1], 0) == 0x4000_0000;
  }

  lemma ShrByZero(x: nat)
    ensures Shr(x, 0) == x
  {
  }

  /** On n equal samples x the sum fits if and only if x is not -32768 or there is at most one. */
  lemma ConstantVector(x: int, n: nat)
    requires IsInt16(x) && n < 0x8000_0000
    ensures var v := seq(n, _ => x);
            Sum(v, Scaling(Largest(v), n)) < 0x8000_0000 <==> (x != -32768 || n <= 1)
  {
    var v := seq(n, _ => x);
    if x != -32768 {
      EnergyFits(v);
    } else {
      LargestOfMinimum(n);
      SumOfEqual(x, n, Scaling(-1, n));
      if n == 0 {
      } else {
        MinimumScaling(n);
        hide Shr, Scaling, Sum, Largest;
        ShrMonotone(Square(-32768), Square(-32768), Scaling(-1, n));
      }
    }
  }

  lemma {:induction false} LargestOfMinimum(n: nat)
    ensures Largest(seq(n, _ => -32768)) == -1
  {
    if n > 0 {
      var v := seq(n, _ => -32768);
      assert v[..n - 1] == seq(n - 1, _ => -32768);
      LargestOfMinimum(n - 1);
    }
  }

  lemma {:induction false} SumOfEqual(x: int, n: nat, shift: nat)
    ensures Sum(seq(n, _ => x), shift) == n * Shr(Square(x), shift)
  {
    hide Shr, Square;
    if n > 0 {
      var v := seq(n, _ => x);
      assert v[..n - 1] == seq(n - 1, _ => x);
      SumOfEqual(x, n - 1, shift);
      OneTermMore(n - 1, Shr(Square(x), shift));
    }
  }

  lemma OneTermMore(n: nat, term: nat)
    ensures n * term + term == (n + 1) * term
  {
  }

  /** Taken for -1, the largest magnitude asks for a shift only beyond 2^29 samples, and then for
      one bit at most: too little for more than one square of 2^30. */
  lemma MinimumScaling(n: nat)
    requires 0 < n < 0x8000_0000
    ensures var total := n * Shr(Square(-32768), Scaling(-1, n)); total < 0x8000_0000 <==> n == 1
  {
    var s := Scaling(-1, n);
    Powers();
    BitLenBound(n, 31);
    assert BitLen(1) == 1;
    assert NormW32(1) == 30;
    assert Square(-32768) == 0x4000_0000;
    if BitLen(n) < 30 {
      assert s == 0;
      ShrByZero(0x4000_0000);
    } else {
      assert n >= Pow2(29);
      Pow2Add(29, 1);
      assert s <= 1;
      assert Pow2(s) <= 2;
      DivMonotone(0x4000_0000, 0x4000_0000, 2, Pow2(s));
      assert Shr(0x4000_0000, s) >= 0x2000_0000;
      ProductOver(n, Shr(0x4000_0000, s));
    }
  }

  lemma ProductOver(n: nat, x: nat)
    requires n >= 4 && x >= 0x2000_0000
    ensures n * x >= 0x8000_0000
  {
  }

  ghost predicate Over(v: seq<int>, samples: iset<int>) {
    |v| < 0x8000_0000 && forall i | 0 <= i < |v| :: v[i] in samples
  }

  ghost predicate Fits(v: seq<int>) { Sum(v, Scaling(Largest(v), |v|)) < 0x8000_0000 }

  /** The exact guard on samples: the promise holds for every vector over a set of words, of any length, if and only
      if -32768 is not one of them. */
  lemma GuardIsExact(samples: iset<int>)
    requires forall x | x in samples :: IsInt16(x)
    ensures (forall v | Over(v, samples) :: Fits(v)) <==> -32768 !in samples
  {
    hide Sum, Scaling, Largest;
    if -32768 in samples {
      var v := [-32768, -32768];
      assert Over(v, samples);
      MinimumOverflows();
    } else {
      forall v | Over(v, samples) ensures Fits(v) {
        EnergyFits(v);
      }
    }
  }
}
