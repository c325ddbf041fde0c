/** The in-place bit-reversal permutation of complex_bit_reverse.c. An element of the array stands
    for a complex number, which the code moves as one 32-bit word. */
module BitReverse {
  import opened FixedPoint

  /** m with its s low bits in reverse order. */
  function Rev(m: nat, s: nat): (r: nat)
  {
    if s == 0 then 0 else (if m % 2 == 0 then 0 else Pow2(s - 1)) + Rev(m / 2, s - 1)
  }

  lemma {:induction false} RevBound(m: nat, s: nat)
    ensures Rev(m, s) < Pow2(s)
  {
    if s > 0 {
      RevBound(m / 2, s - 1);
    }
  }

  /** Splitting off the top bit instead of the bottom bit. */
  lemma {:induction false} RevTop(m: nat, top: bool, s: nat)
    requires m < Pow2(s)
    ensures Rev((if top then Pow2(s) else 0) + m, s + 1) == 2 * Rev(m, s) + if top then 1 else 0
  {
    hide Rev, Pow2;
    var x := (if top then Pow2(s) else 0) + m;
    RevUnfolds(x, s + 1);
    if s == 0 {
      NoBits(x);
      NoBits(x / 2);
      NoBits(m);
    } else {
      RevUnfolds(m, s);
      Pow2Doubles(s);
      HalfOfTop(x, m, top, Pow2(s - 1));
      RevTop(m / 2, top, s - 1);
    }
  }

  lemma HalfOfTop(x: nat, m: nat, top: bool, p: nat)
    requires x == (if top then 2 * p else 0) + m
    ensures x % 2 == m % 2 && x / 2 == (if top then p else 0) + m / 2
  {
  }

  lemma NoBits(m: nat)
    ensures Rev(m, 0) == 0 && Pow2(0) == 1
  {
  }

  /** Reversing twice is the identity. */
  lemma {:induction false} RevInvolution(m: nat, s: nat)
    requires m < Pow2(s)
    ensures Rev(Rev(m, s), s) == m
  {
    hide Rev, Pow2;
    if s == 0 {
      NoBits(m);
      NoBits(Rev(m, 0));
    } else {
      Pow2Doubles(s);
      RevUnfolds(m, s);
      RevBound(m / 2, s - 1);
      RevInvolution(m / 2, s - 1);
      RevTop(Rev(m / 2, s - 1), m % 2 == 1, s - 1);
    }
  }

  // ---------------------------------------------------------------- the next reversed index

  /** l is the greatest power of two below 2^s that leaves mr + l below 2^s: what the inner loop
      stops at, counting down from 2^s. */
  ghost predicate IsRoom(j: nat, l: nat, mr: nat, s: nat) {
    && l == Pow2(j)
    && l <= Pow2(s) - 1 - mr
    && (j + 1 < s ==> 2 * l > Pow2(s) - 1 - mr)
  }

  lemma SplitMod(q: nat, l: nat, x: nat)
    requires l > 0
    ensures (q * l + x) % l == x % l
  {
    assert q * l + x == (q + x / l) * l + x % l;
    ModUnique(q * l + x, q + x / l, x % l, l);
  }

  lemma ModUnique(x: nat, q: nat, r: nat, l: nat)
    requires l > 0 && r < l && x == q * l + r
    ensures x % l == r
  {
    assert (q + 1) * l == q * l + l;
    DivLower(q, x, l);
    DivUpper(q + 1, x, l);
    assert x == (x / l) * l + x % l;
  }

  /** The reversed index of m from that of m - 1: clear the bits from l up, and set l. */
  lemma {:induction false} NextReversed(m: nat, s: nat, j: nat)
    requires 0 < m < Pow2(s) && j < s && IsRoom(j, Pow2(j), Rev(m - 1, s), s)
    ensures Rev(m, s) == Rev(m - 1, s) % Pow2(j) + Pow2(j)
    decreases s
  {
    hide Rev, Pow2;
    var k := m - 1;
    var p, rest := Pow2(s - 1), Rev(k / 2, s - 1);
    RevBound(k / 2, s - 1);
    RevUnfolds(k, s);
    RevUnfolds(m, s);
    Pow2Doubles(s);
    if k % 2 == 0 {
      assert m / 2 == k / 2;
      RoomOfEven(j, rest, s);
      ModSmall(rest, p);
    } else {
      assert m / 2 == k / 2 + 1;
      RoomOfOdd(j, rest, s);
      NextReversed(m / 2, s - 1, j);
    }
  }

  /** Without the top bit, the room is that of the top bit. */
  lemma RoomOfEven(j: nat, rest: nat, s: nat)
    requires j < s && rest < Pow2(s - 1) && IsRoom(j, Pow2(j), rest, s)
    ensures j == s - 1
  {
    hide Pow2;
    Pow2Doubles(s);
    Pow2Doubles(j + 1);
    if j < s - 1 {
      Pow2Monotone(j + 1, s - 1);
    }
  }

  /** With the top bit, the room is that of the bits below it. */
  lemma RoomOfOdd(j: nat, rest: nat, s: nat)
    requires j < s && rest < Pow2(s - 1) && IsRoom(j, Pow2(j), Pow2(s - 1) + rest, s)
    ensures j < s - 1 && IsRoom(j, Pow2(j), rest, s - 1)
    ensures (Pow2(s - 1) + rest) % Pow2(j) == rest % Pow2(j)
  {
    hide Pow2;
    Pow2Doubles(s);
    Pow2Add(s - 1 - j, j);
    SplitMod(Pow2(s - 1 - j), Pow2(j), rest);
  }

  lemma RevUnfolds(k: nat, s: nat)
    requires s > 0
    ensures Rev(k, s) == if k % 2 == 0 then Rev(k / 2, s - 1) else Pow2(s - 1) + Rev(k / 2, s - 1)
  {
  }

  lemma Pow2Doubles(s: nat)
    requires s > 0
    ensures Pow2(s) == 2 * Pow2(s - 1)
  {
  }

  lemma ModSmall(x: nat, p: nat)
    requires x < p
    ensures x % p == x
  {
  }

  // ---------------------------------------------------------------- the permutation

  function BitReversed<T>(b: seq<T>, s: nat): (r: seq<T>)
    requires |b| == Pow2(s)
    ensures |r| == |b|
  {
    seq(|b|, i requires 0 <= i < |b| => RevBound(i, s); b[Rev(i, s)])
  }

  /** Applying the permutation twice is the identity. */
  lemma BitReversedTwice<T>(b: seq<T>, s: nat)
    requires |b| == Pow2(s)
    ensures BitReversed(BitReversed(b, s), s) == b
  {
    var r := BitReversed(b, s);
    forall i | 0 <= i < |b|
      ensures BitReversed(r, s)[i] == b[i]
    {
      RevBound(i, s);
      RevInvolution(i, s);
    }
  }

  /** It moves every element to its own place: it is a permutation. */
  lemma BitReversedIsPermutation<T>(b: seq<T>, s: nat, i: nat)
    requires |b| == Pow2(s) && i < |b|
    ensures Rev(i, s) < |b| && BitReversed(b, s)[Rev(i, s)] == b[i]
  {
    RevBound(i, s);
    RevInvolution(i, s);
  }

  function Lower(i: nat, s: nat): nat { if Rev(i, s) < i then Rev(i, s) else i }

  /** The array once the pairs whose lower index is below m are swapped. */
  function Partial<T>(b: seq<T>, m: nat, s: nat): (r: seq<T>)
    requires |b| == Pow2(s)
    ensures |r| == |b|
  {
    seq(|b|, i requires 0 <= i < |b| => RevBound(i, s); if Lower(i, s) < m then b[Rev(i, s)] else b[i])
  }

  lemma PartialEnds<T>(b: seq<T>, s: nat)
    requires |b| == Pow2(s)
    ensures Partial(b, 1, s) == b
    ensures Partial(b, |b|, s) == BitReversed(b, s)
  {
    forall i | 0 <= i < |b|
      ensures Partial(b, 1, s)[i] == b[i]
    {
      RevInvolution(i, s);
      RevOfZero(s);
    }
  }

  lemma {:induction false} RevOfZero(s: nat)
    ensures Rev(0, s) == 0
  {
    if s > 0 { RevOfZero(s - 1); }
  }

  /** One round: the pair of m is swapped if m is its lower index, and nothing is otherwise. */
  lemma PartialStep<T>(b: seq<T>, m: nat, s: nat)
    requires |b| == Pow2(s) && m < |b|
    ensures var r, mr := Partial(b, m, s), Rev(m, s);
            && mr < |b|
            && (mr <= m ==> Partial(b, m + 1, s) == r)
            && (mr > m ==> Partial(b, m + 1, s) == r[m := r[mr]][mr := r[m]])
  {
    var r, mr := Partial(b, m, s), Rev(m, s);
    RevBound(m, s);
    RevInvolution(m, s);
    var next := if mr <= m then r else r[m := r[mr]][mr := r[m]];
    forall i | 0 <= i < |b|
      ensures Partial(b, m + 1, s)[i] == next[i]
    {
      RevBound(i, s);
      RevInvolution(i, s);
    }
  }

  // ---------------------------------------------------------------- the generic loop

  method SwapByLoop<T>(a: array<T>, stages: nat)
    requires a.Length == Pow2(stages)
    modifies a
    ensures a[..] == BitReversed(old(a[..]), stages)
  {
    ghost var b := a[..];
    var n := Pow2(stages);
    var nn := n - 1;
    var mr := 0;
    PartialEnds(b, stages);
    RevOfZero(stages);
    var m := 1;
    while m <= nn
      invariant 1 <= m <= n == |b| && mr == Rev(m - 1, stages)
      invariant a[..] == Partial(b, m, stages)
    {
      mr := NextIndex(m, mr, n, stages);
      PartialStep(b, m, stages);
      if mr > m {
        a[m], a[mr] := a[mr], a[m];
      }
      m := m + 1;
    }
  }

  /** The inner do-while: halve l until it fits; it stops at 1 at the latest. */
  method NextIndex(m: nat, mr: nat, n: nat, ghost stages: nat) returns (next: nat)
    requires n == Pow2(stages) && 0 < m < n && mr == Rev(m - 1, stages)
    ensures next == Rev(m, stages)
  {
    var nn := n - 1;
    LastIsOnes(m - 1, stages);
    ghost var j := stages - 1;
    var l := n / 2;
    while l > nn - mr
      invariant 0 <= j < stages && l == Pow2(j)
      invariant j + 1 < stages ==> 2 * l > nn - mr
      decreases l
    {
      assert j > 0;
      l := l / 2;
      j := j - 1;
    }
    NextReversed(m, stages, j);
    next := mr % l + l;
  }

  /** Only the all-ones index reverses to the all-ones index. */
  lemma LastIsOnes(m: nat, s: nat)
    requires m < Pow2(s) - 1
    ensures Rev(m, s) < Pow2(s) - 1
    decreases s
  {
    if s > 0 {
      RevBound(m / 2, s - 1);
      if m % 2 == 1 {
        LastIsOnes(m / 2, s - 1);
      }
    }
  }
}
