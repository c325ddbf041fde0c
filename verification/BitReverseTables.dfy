/** The swap tables of complex_bit_reverse.c for 7 and 8 stages, and the proof that swapping by
    table gives the permutation of the generic loop. A table is written down here as the rows of
    its pairs for eight lower indices at a time. */
module BitReverseTables {
  import opened FixedPoint
  import opened BitReverse

  /** Two consecutive entries of a table. */
  datatype Swap = Swap(m: nat, mr: nat)

  const ROW_7_0: seq<Swap> := [
    Swap(1, 64), Swap(2, 32), Swap(3, 96), Swap(4, 16),
    Swap(5, 80), Swap(6, 48), Swap(7, 112)]
  const ROW_7_1: seq<Swap> := [
    Swap(9, 72), Swap(10, 40), Swap(11, 104), Swap(12, 24),
    Swap(13, 88), Swap(14, 56), Swap(15, 120)]
  const ROW_7_2: seq<Swap> := [Swap(17, 68), Swap(18, 36), Swap(19, 100), Swap(21, 84), Swap(22, 52), Swap(23, 116)]
  const ROW_7_3: seq<Swap> := [Swap(25, 76), Swap(26, 44), Swap(27, 108), Swap(29, 92), Swap(30, 60), Swap(31, 124)]
  const ROW_7_4: seq<Swap> := [Swap(33, 66), Swap(35, 98), Swap(37, 82), Swap(38, 50), Swap(39, 114)]
  const ROW_7_5: seq<Swap> := [Swap(41, 74), Swap(43, 106), Swap(45, 90), Swap(46, 58), Swap(47, 122)]
  const ROW_7_6: seq<Swap> := [Swap(49, 70), Swap(51, 102), Swap(53, 86), Swap(55, 118)]
  const ROW_7_7: seq<Swap> := [Swap(57, 78), Swap(59, 110), Swap(61, 94), Swap(63, 126)]
  const ROW_7_8: seq<Swap> := [Swap(67, 97), Swap(69, 81), Swap(71, 113)]
  const ROW_7_9: seq<Swap> := [Swap(75, 105), Swap(77, 89), Swap(79, 121)]
  const ROW_7_10: seq<Swap> := [Swap(83, 101), Swap(87, 117)]
  const ROW_7_11: seq<Swap> := [Swap(91, 109), Swap(95, 125)]
  const ROW_7_12: seq<Swap> := [Swap(103, 115)]
  const ROW_7_13: seq<Swap> := [Swap(111, 123)]

  const ROW_8_0: seq<Swap> := [
    Swap(1, 128), Swap(2, 64), Swap(3, 192), Swap(4, 32),
    Swap(5, 160), Swap(6, 96), Swap(7, 224)]
  const ROW_8_1: seq<Swap> := [
    Swap(8, 16), Swap(9, 144), Swap(10, 80), Swap(11, 208),
    Swap(12, 48), Swap(13, 176), Swap(14, 112), Swap(15, 240)]
  const ROW_8_2: seq<Swap> := [
    Swap(17, 136), Swap(18, 72), Swap(19, 200), Swap(20, 40),
    Swap(21, 168), Swap(22, 104), Swap(23, 232)]
  const ROW_8_3: seq<Swap> := [
    Swap(25, 152), Swap(26, 88), Swap(27, 216), Swap(28, 56),
    Swap(29, 184), Swap(30, 120), Swap(31, 248)]
  const ROW_8_4: seq<Swap> := [Swap(33, 132), Swap(34, 68), Swap(35, 196), Swap(37, 164), Swap(38, 100), Swap(39, 228)]
  const ROW_8_5: seq<Swap> := [
    Swap(41, 148), Swap(42, 84), Swap(43, 212), Swap(44, 52),
    Swap(45, 180), Swap(46, 116), Swap(47, 244)]
  const ROW_8_6: seq<Swap> := [Swap(49, 140), Swap(50, 76), Swap(51, 204), Swap(53, 172), Swap(54, 108), Swap(55, 236)]
  const ROW_8_7: seq<Swap> := [Swap(57, 156), Swap(58, 92), Swap(59, 220), Swap(61, 188), Swap(62, 124), Swap(63, 252)]
  const ROW_8_8: seq<Swap> := [Swap(65, 130), Swap(67, 194), Swap(69, 162), Swap(70, 98), Swap(71, 226)]
  const ROW_8_9: seq<Swap> := [Swap(73, 146), Swap(74, 82), Swap(75, 210), Swap(77, 178), Swap(78, 114), Swap(79, 242)]
  const ROW_8_10: seq<Swap> := [Swap(81, 138), Swap(83, 202), Swap(85, 170), Swap(86, 106), Swap(87, 234)]
  const ROW_8_11: seq<Swap> := [Swap(89, 154), Swap(91, 218), Swap(93, 186), Swap(94, 122), Swap(95, 250)]
  const ROW_8_12: seq<Swap> := [Swap(97, 134), Swap(99, 198), Swap(101, 166), Swap(103, 230)]
  const ROW_8_13: seq<Swap> := [Swap(105, 150), Swap(107, 214), Swap(109, 182), Swap(110, 118), Swap(111, 246)]
  const ROW_8_14: seq<Swap> := [Swap(113, 142), Swap(115, 206), Swap(117, 174), Swap(119, 238)]
  const ROW_8_15: seq<Swap> := [Swap(121, 158), Swap(123, 222), Swap(125, 190), Swap(127, 254)]
  const ROW_8_16: seq<Swap> := [Swap(131, 193), Swap(133, 161), Swap(135, 225)]
  const ROW_8_17: seq<Swap> := [Swap(137, 145), Swap(139, 209), Swap(141, 177), Swap(143, 241)]
  const ROW_8_18: seq<Swap> := [Swap(147, 201), Swap(149, 169), Swap(151, 233)]
  const ROW_8_19: seq<Swap> := [Swap(155, 217), Swap(157, 185), Swap(159, 249)]
  const ROW_8_20: seq<Swap> := [Swap(163, 197), Swap(167, 229)]
  const ROW_8_21: seq<Swap> := [Swap(171, 213), Swap(173, 181), Swap(175, 245)]
  const ROW_8_22: seq<Swap> := [Swap(179, 205), Swap(183, 237)]
  const ROW_8_23: seq<Swap> := [Swap(187, 221), Swap(191, 253)]
  const ROW_8_24: seq<Swap> := [Swap(199, 227)]
  const ROW_8_25: seq<Swap> := [Swap(203, 211), Swap(207, 243)]
  const ROW_8_26: seq<Swap> := [Swap(215, 235)]
  const ROW_8_27: seq<Swap> := [Swap(223, 251)]
  const ROW_8_29: seq<Swap> := [Swap(239, 247)]

  /** The pairs with their lower index from 0 up to 32. */
  function Rows7From0(): seq<Swap> {
    ROW_7_0 + ROW_7_1 + ROW_7_2 + ROW_7_3
  }

  /** The pairs with their lower index from 32 up to 64. */
  function Rows7From32(): seq<Swap> {
    ROW_7_4 + ROW_7_5 + ROW_7_6 + ROW_7_7
  }

  /** The pairs with their lower index from 64 up to 96. */
  function Rows7From64(): seq<Swap> {
    ROW_7_8 + ROW_7_9 + ROW_7_10 + ROW_7_11
  }

  /** The pairs with their lower index from 96 up to 128. */
  function Rows7From96(): seq<Swap> {
    ROW_7_12 + ROW_7_13 + [] + []
  }

  /** The pairs with their lower index from 0 up to 32. */
  function Rows8From0(): seq<Swap> {
    ROW_8_0 + ROW_8_1 + ROW_8_2 + ROW_8_3
  }

  /** The pairs with their lower index from 32 up to 64. */
  function Rows8From32(): seq<Swap> {
    ROW_8_4 + ROW_8_5 + ROW_8_6 + ROW_8_7
  }

  /** The pairs with their lower index from 64 up to 96. */
  function Rows8From64(): seq<Swap> {
    ROW_8_8 + ROW_8_9 + ROW_8_10 + ROW_8_11
  }

  /** The pairs with their lower index from 96 up to 128. */
  function Rows8From96(): seq<Swap> {
    ROW_8_12 + ROW_8_13 + ROW_8_14 + ROW_8_15
  }

  /** The pairs with their lower index from 128 up to 160. */
  function Rows8From128(): seq<Swap> {
    ROW_8_16 + ROW_8_17 + ROW_8_18 + ROW_8_19
  }

  /** The pairs with their lower index from 160 up to 192. */
  function Rows8From160(): seq<Swap> {
    ROW_8_20 + ROW_8_21 + ROW_8_22 + ROW_8_23
  }

  /** The pairs with their lower index from 192 up to 224. */
  function Rows8From192(): seq<Swap> {
    ROW_8_24 + ROW_8_25 + ROW_8_26 + ROW_8_27
  }

  /** The pairs with their lower index from 224 up to 256. */
  function Rows8From224(): seq<Swap> {
    [] + ROW_8_29 + [] + []
  }

  function Entries(swaps: seq<Swap>): seq<nat> {
    if swaps == [] then [] else [swaps[0].m, swaps[0].mr] + Entries(swaps[1..])
  }

  /** index_7 and index_8. */
  function Index7(): seq<nat> { Entries(Rows7From0() + Rows7From32() + Rows7From64() + Rows7From96()) }

  function Index8(): seq<nat> { Entries(Rows8From0() + Rows8From32() + Rows8From64() + Rows8From96()
            + Rows8From128() + Rows8From160() + Rows8From192() + Rows8From224()) }

  /** The pairs to swap with their lower index from m up to n. */
  function Pairs(m: nat, n: nat, s: nat): seq<Swap>
    decreases n - m
  {
    if m >= n then [] else (if m < Rev(m, s) then [Swap(m, Rev(m, s))] else []) + Pairs(m + 1, n, s)
  }

  lemma {:induction false} PairsConcat(l: nat, m: nat, n: nat, s: nat)
    requires l <= m <= n
    ensures Pairs(l, n, s) == Pairs(l, m, s) + Pairs(m, n, s)
    decreases m - l
  {
    hide Rev;
    if l < m {
      PairsConcat(l + 1, m, n, s);
    }
  }

  /** Eight consecutive indices differ in their three low bits, their reversals in the three high bits. */
  lemma EightReversed(h: nat, s: nat, r: nat, p: nat)
    requires s >= 3 && r == Rev(h, s - 3) && p == Pow2(s - 3)
    ensures Rev(8 * h, s) == r && Rev(8 * h + 1, s) == 4 * p + r
    ensures Rev(8 * h + 2, s) == 2 * p + r && Rev(8 * h + 3, s) == 6 * p + r
    ensures Rev(8 * h + 4, s) == p + r && Rev(8 * h + 5, s) == 5 * p + r
    ensures Rev(8 * h + 6, s) == 3 * p + r && Rev(8 * h + 7, s) == 7 * p + r
  {
    hide Rev, Pow2;
    ThreeBits(h, 0, s);
    ThreeBits(h, 1, s);
    ThreeBits(h, 2, s);
    ThreeBits(h, 3, s);
    ThreeBits(h, 4, s);
    ThreeBits(h, 5, s);
    ThreeBits(h, 6, s);
    ThreeBits(h, 7, s);
  }

  lemma ThreeBits(h: nat, l: nat, s: nat)
    requires s >= 3 && l < 8
    ensures var p := Pow2(s - 3);
            Rev(8 * h + l, s) == (if l % 2 == 1 then 4 * p else 0) + (if l / 2 % 2 == 1 then 2 * p else 0)
                                 + (if l / 4 == 1 then p else 0) + Rev(h, s - 3)
  {
    hide Rev, Pow2;
    var m := 8 * h + l;
    RevUnfolds(m, s);
    RevUnfolds(m / 2, s - 1);
    RevUnfolds(m / 4, s - 2);
    assert m / 2 / 2 == m / 4 && m / 4 / 2 == h;
    assert m % 2 == l % 2 && m / 2 % 2 == l / 2 % 2 && m / 4 % 2 == l / 4;
    Pow2Doubles(s - 1);
    Pow2Doubles(s - 2);
  }

  /** The pair at place i of a row is that of m, if m comes first in its pair. */
  predicate At(row: seq<Swap>, i: nat, m: nat, mr: nat) { m < mr ==> i < |row| && row[i] == Swap(m, mr) }

  /** The place behind it. */
  function Behind(i: nat, m: nat, mr: nat): nat { if m < mr then i + 1 else i }

  /** The pairs of four indices stand in a row from place i to place next. */
  predicate Four(row: seq<Swap>, i: nat, m: nat, r: nat, p: nat, next: nat) {
    var i1 := Behind(i, m, r);
    var i2 := Behind(i1, m + 1, 4 * p + r);
    var i3 := Behind(i2, m + 2, 2 * p + r);
    && At(row, i, m, r) && At(row, i1, m + 1, 4 * p + r)
    && At(row, i2, m + 2, 2 * p + r) && At(row, i3, m + 3, 6 * p + r)
    && next == Behind(i3, m + 3, 6 * p + r)
  }

  /** If the pairs behind place i are those from m + 1 on, the pairs from place i on are those from m on. */
  lemma OneIsPair(row: seq<Swap>, i: nat, m: nat, n: nat, s: nat)
    requires m < n && At(row, i, m, Rev(m, s)) && Behind(i, m, Rev(m, s)) <= |row|
    requires row[Behind(i, m, Rev(m, s))..] == Pairs(m + 1, n, s)
    ensures i <= |row| && row[i..] == Pairs(m, n, s)
  {
    hide Rev;
    assert m < Rev(m, s) ==> row[i..] == [row[i]] + row[i + 1..];
  }

  lemma FourArePairs(row: seq<Swap>, i: nat, m: nat, r: nat, p: nat, next: nat, n: nat, s: nat)
    requires Four(row, i, m, r, p, next) && m + 4 <= n && next <= |row| && row[next..] == Pairs(m + 4, n, s)
    requires Rev(m, s) == r && Rev(m + 1, s) == 4 * p + r && Rev(m + 2, s) == 2 * p + r && Rev(m + 3, s) == 6 * p + r
    ensures i <= |row| && row[i..] == Pairs(m, n, s)
  {
    hide Rev, Pairs, At;
    var i1 := Behind(i, m, r);
    var i2 := Behind(i1, m + 1, 4 * p + r);
    var i3 := Behind(i2, m + 2, 2 * p + r);
    OneIsPair(row, i3, m + 3, n, s);
    OneIsPair(row, i2, m + 2, n, s);
    OneIsPair(row, i1, m + 1, n, s);
    OneIsPair(row, i, m, n, s);
  }

  /** A row lists the pairs of eight indices, whose reversals are r plus the eight combinations of three high bits;
      half of them stand in front of place half. */
  lemma EightArePairs(row: seq<Swap>, h: nat, r: nat, p: nat, half: nat, s: nat)
    requires s >= 3 && r == Rev(h, s - 3) && p == Pow2(s - 3)
    requires Four(row, 0, 8 * h, r, p, half) && Four(row, half, 8 * h + 4, p + r, p, |row|) && half <= |row|
    ensures row == Pairs(8 * h, 8 * h + 8, s)
  {
    hide Rev, Pow2, Four, Pairs;
    EightReversed(h, s, r, p);
    NoPairs(8 * h + 8, s);
    assert row[|row|..] == [] && row[0..] == row;
    FourArePairs(row, half, 8 * h + 4, p + r, p, |row|, 8 * h + 8, s);
    FourArePairs(row, 0, 8 * h, r, p, half, 8 * h + 8, s);
  }

  lemma NoPairs(m: nat, s: nat)
    ensures Pairs(m, m, s) == []
  {
  }

  lemma FewBits()
    ensures Rev(0, 1) == 0 && Rev(1, 1) == 1
    ensures Rev(0, 2) == 0 && Rev(1, 2) == 2 && Rev(2, 2) == 1 && Rev(3, 2) == 3
    ensures Pow2(1) == 2 && Pow2(2) == 4 && Pow2(4) == 16 && Pow2(5) == 32
  {
  }

  lemma FourRows(a: seq<Swap>, b: seq<Swap>, c: seq<Swap>, d: seq<Swap>, m: nat, s: nat)
    requires a == Pairs(m, m + 8, s) && b == Pairs(m + 8, m + 16, s)
    requires c == Pairs(m + 16, m + 24, s) && d == Pairs(m + 24, m + 32, s)
    ensures a + b + c + d == Pairs(m, m + 32, s)
  {
    hide Pairs;
    PairsConcat(m, m + 8, m + 16, s);
    PairsConcat(m, m + 16, m + 24, s);
    PairsConcat(m, m + 24, m + 32, s);
  }

  lemma Reversals4()
    ensures Rev(0, 4) == 0 && Rev(1, 4) == 8 && Rev(2, 4) == 4 && Rev(3, 4) == 12
    ensures Rev(4, 4) == 2 && Rev(5, 4) == 10 && Rev(6, 4) == 6 && Rev(7, 4) == 14
    ensures Rev(8, 4) == 1 && Rev(9, 4) == 9 && Rev(10, 4) == 5 && Rev(11, 4) == 13
    ensures Rev(12, 4) == 3 && Rev(13, 4) == 11 && Rev(14, 4) == 7 && Rev(15, 4) == 15
    ensures Pow2(4) == 16
  {
    hide Rev, Pow2;
    FewBits();
    EightReversed(0, 4, 0, 2);
    EightReversed(1, 4, 1, 2);
  }

  lemma Reversals5()
    ensures Rev(0, 5) == 0 && Rev(1, 5) == 16 && Rev(2, 5) == 8 && Rev(3, 5) == 24
    ensures Rev(4, 5) == 4 && Rev(5, 5) == 20 && Rev(6, 5) == 12 && Rev(7, 5) == 28
    ensures Rev(8, 5) == 2 && Rev(9, 5) == 18 && Rev(10, 5) == 10 && Rev(11, 5) == 26
    ensures Rev(12, 5) == 6 && Rev(13, 5) == 22 && Rev(14, 5) == 14 && Rev(15, 5) == 30
    ensures Rev(16, 5) == 1 && Rev(17, 5) == 17 && Rev(18, 5) == 9 && Rev(19, 5) == 25
    ensures Rev(20, 5) == 5 && Rev(21, 5) == 21 && Rev(22, 5) == 13 && Rev(23, 5) == 29
    ensures Rev(24, 5) == 3 && Rev(25, 5) == 19 && Rev(26, 5) == 11 && Rev(27, 5) == 27
    ensures Rev(28, 5) == 7 && Rev(29, 5) == 23 && Rev(30, 5) == 15 && Rev(31, 5) == 31
    ensures Pow2(5) == 32
  {
    hide Rev, Pow2;
    FewBits();
    EightReversed(0, 5, 0, 4);
    EightReversed(1, 5, 2, 4);
    EightReversed(2, 5, 1, 4);
    EightReversed(3, 5, 3, 4);
  }

  lemma Rows7At0()
    ensures Rows7From0() == Pairs(0, 32, 7)
  {
    hide Rev, Pow2, Pairs;
    Reversals4();
    EightArePairs(ROW_7_0, 0, 0, 16, 3, 7);
    EightArePairs(ROW_7_1, 1, 8, 16, 3, 7);
    EightArePairs(ROW_7_2, 2, 4, 16, 3, 7);
    EightArePairs(ROW_7_3, 3, 12, 16, 3, 7);
    FourRows(ROW_7_0, ROW_7_1, ROW_7_2, ROW_7_3, 0, 7);
  }

  lemma Rows7At32()
    ensures Rows7From32() == Pairs(32, 64, 7)
  {
    hide Rev, Pow2, Pairs;
    Reversals4();
    EightArePairs(ROW_7_4, 4, 2, 16, 2, 7);
    EightArePairs(ROW_7_5, 5, 10, 16, 2, 7);
    EightArePairs(ROW_7_6, 6, 6, 16, 2, 7);
    EightArePairs(ROW_7_7, 7, 14, 16, 2, 7);
    FourRows(ROW_7_4, ROW_7_5, ROW_7_6, ROW_7_7, 32, 7);
  }

  lemma Rows7At64()
    ensures Rows7From64() == Pairs(64, 96, 7)
  {
    hide Rev, Pow2, Pairs;
    Reversals4();
    EightArePairs(ROW_7_8, 8, 1, 16, 1, 7);
    EightArePairs(ROW_7_9, 9, 9, 16, 1, 7);
    EightArePairs(ROW_7_10, 10, 5, 16, 1, 7);
    EightArePairs(ROW_7_11, 11, 13, 16, 1, 7);
    FourRows(ROW_7_8, ROW_7_9, ROW_7_10, ROW_7_11, 64, 7);
  }

  lemma Rows7At96()
    ensures Rows7From96() == Pairs(96, 128, 7)
  {
    hide Rev, Pow2, Pairs;
    Reversals4();
    EightArePairs(ROW_7_12, 12, 3, 16, 0, 7);
    EightArePairs(ROW_7_13, 13, 11, 16, 0, 7);
    EightArePairs([], 14, 7, 16, 0, 7);
    EightArePairs([], 15, 15, 16, 0, 7);
    FourRows(ROW_7_12, ROW_7_13, [], [], 96, 7);
  }

  lemma Rows8At0()
    ensures Rows8From0() == Pairs(0, 32, 8)
  {
    hide Rev, Pow2, Pairs;
    Reversals5();
    EightArePairs(ROW_8_0, 0, 0, 32, 3, 8);
    EightArePairs(ROW_8_1, 1, 16, 32, 4, 8);
    EightArePairs(ROW_8_2, 2, 8, 32, 3, 8);
    EightArePairs(ROW_8_3, 3, 24, 32, 3, 8);
    FourRows(ROW_8_0, ROW_8_1, ROW_8_2, ROW_8_3, 0, 8);
  }

  lemma Rows8At32()
    ensures Rows8From32() == Pairs(32, 64, 8)
  {
    hide Rev, Pow2, Pairs;
    Reversals5();
    EightArePairs(ROW_8_4, 4, 4, 32, 3, 8);
    EightArePairs(ROW_8_5, 5, 20, 32, 3, 8);
    EightArePairs(ROW_8_6, 6, 12, 32, 3, 8);
    EightArePairs(ROW_8_7, 7, 28, 32, 3, 8);
    FourRows(ROW_8_4, ROW_8_5, ROW_8_6, ROW_8_7, 32, 8);
  }

  lemma Rows8At64()
    ensures Rows8From64() == Pairs(64, 96, 8)
  {
    hide Rev, Pow2, Pairs;
    Reversals5();
    EightArePairs(ROW_8_8, 8, 2, 32, 2, 8);
    EightArePairs(ROW_8_9, 9, 18, 32, 3, 8);
    EightArePairs(ROW_8_10, 10, 10, 32, 2, 8);
    EightArePairs(ROW_8_11, 11, 26, 32, 2, 8);
    FourRows(ROW_8_8, ROW_8_9, ROW_8_10, ROW_8_11, 64, 8);
  }

  lemma Rows8At96()
    ensures Rows8From96() == Pairs(96, 128, 8)
  {
    hide Rev, Pow2, Pairs;
    Reversals5();
    EightArePairs(ROW_8_12, 12, 6, 32, 2, 8);
    EightArePairs(ROW_8_13, 13, 22, 32, 2, 8);
    EightArePairs(ROW_8_14, 14, 14, 32, 2, 8);
    EightArePairs(ROW_8_15, 15, 30, 32, 2, 8);
    FourRows(ROW_8_12, ROW_8_13, ROW_8_14, ROW_8_15, 96, 8);
  }

  lemma Rows8At128()
    ensures Rows8From128() == Pairs(128, 160, 8)
  {
    hide Rev, Pow2, Pairs;
    Reversals5();
    EightArePairs(ROW_8_16, 16, 1, 32, 1, 8);
    EightArePairs(ROW_8_17, 17, 17, 32, 2, 8);
    EightArePairs(ROW_8_18, 18, 9, 32, 1, 8);
    EightArePairs(ROW_8_19, 19, 25, 32, 1, 8);
    FourRows(ROW_8_16, ROW_8_17, ROW_8_18, ROW_8_19, 128, 8);
  }

  lemma Rows8At160()
    ensures Rows8From160() == Pairs(160, 192, 8)
  {
    hide Rev, Pow2, Pairs;
    Reversals5();
    EightArePairs(ROW_8_20, 20, 5, 32, 1, 8);
    EightArePairs(ROW_8_21, 21, 21, 32, 1, 8);
    EightArePairs(ROW_8_22, 22, 13, 32, 1, 8);
    EightArePairs(ROW_8_23, 23, 29, 32, 1, 8);
    FourRows(ROW_8_20, ROW_8_21, ROW_8_22, ROW_8_23, 160, 8);
  }

  lemma Rows8At192()
    ensures Rows8From192() == Pairs(192, 224, 8)
  {
    hide Rev, Pow2, Pairs;
    Reversals5();
    EightArePairs(ROW_8_24, 24, 3, 32, 0, 8);
    EightArePairs(ROW_8_25, 25, 19, 32, 1, 8);
    EightArePairs(ROW_8_26, 26, 11, 32, 0, 8);
    EightArePairs(ROW_8_27, 27, 27, 32, 0, 8);
    FourRows(ROW_8_24, ROW_8_25, ROW_8_26, ROW_8_27, 192, 8);
  }

  lemma Rows8At224()
    ensures Rows8From224() == Pairs(224, 256, 8)
  {
    hide Rev, Pow2, Pairs;
    Reversals5();
    EightArePairs([], 28, 7, 32, 0, 8);
    EightArePairs(ROW_8_29, 29, 23, 32, 0, 8);
    EightArePairs([], 30, 15, 32, 0, 8);
    EightArePairs([], 31, 31, 32, 0, 8);
    FourRows([], ROW_8_29, [], [], 224, 8);
  }

  /** The table of 7 stages lists exactly the pairs to swap, in order. */
  lemma Index7IsComplete()
    ensures Index7() == Entries(Pairs(0, 128, 7))
  {
    hide Pairs,
      Rows7From0, Rows7From32, Rows7From64, Rows7From96;
    Rows7At0();
    Rows7At32();
    Rows7At64();
    Rows7At96();
    PairsConcat(0, 32, 64, 7);
    PairsConcat(0, 64, 96, 7);
    PairsConcat(0, 96, 128, 7);
  }

  /** The table of 8 stages lists exactly the pairs to swap, in order. */
  lemma Index8IsComplete()
    ensures Index8() == Entries(Pairs(0, 256, 8))
  {
    hide Pairs,
      Rows8From0, Rows8From32, Rows8From64, Rows8From96,
      Rows8From128, Rows8From160, Rows8From192, Rows8From224;
    Rows8At0();
    Rows8At32();
    Rows8At64();
    Rows8At96();
    Rows8At128();
    Rows8At160();
    Rows8At192();
    Rows8At224();
    PairsConcat(0, 32, 64, 8);
    PairsConcat(0, 64, 96, 8);
    PairsConcat(0, 96, 128, 8);
    PairsConcat(0, 128, 160, 8);
    PairsConcat(0, 160, 192, 8);
    PairsConcat(0, 192, 224, 8);
    PairsConcat(0, 224, 256, 8);
  }

  // ---------------------------------------------------------------- swapping by table

  /** What is left of the pairs is a next pair and the pairs after it; the indices skipped are no
      lower indices of pairs. */
  lemma {:induction false} NextPair(m: nat, n: nat, s: nat) returns (m': nat)
    requires Pairs(m, n, s) != []
    ensures m <= m' < n && m' < Rev(m', s)
    ensures Pairs(m, n, s) == [Swap(m', Rev(m', s))] + Pairs(m' + 1, n, s)
    ensures forall i | m <= i < m' :: Rev(i, s) <= i
    decreases n - m
  {
    if m < Rev(m, s) {
      m' := m;
    } else {
      m' := NextPair(m + 1, n, s);
    }
  }

  lemma {:induction false} NoneLeft(m: nat, n: nat, s: nat)
    requires Pairs(m, n, s) == []
    ensures forall i | m <= i < n :: Rev(i, s) <= i
    decreases n - m
  {
    if m < n {
      NoneLeft(m + 1, n, s);
    }
  }

  lemma {:induction false} Skip<T>(b: seq<T>, m: nat, m': nat, s: nat)
    requires |b| == Pow2(s) && m <= m' <= |b|
    requires forall i | m <= i < m' :: Rev(i, s) <= i
    ensures Partial(b, m, s) == Partial(b, m', s)
    decreases m' - m
  {
    if m < m' {
      PartialStep(b, m, s);
      Skip(b, m + 1, m', s);
    }
  }

  lemma EntriesNext(first: Swap, swaps: seq<Swap>)
    ensures Entries([first] + swaps) == [first.m, first.mr] + Entries(swaps)
  {
    assert ([first] + swaps)[1..] == swaps;
  }

  method SwapByTable<T>(a: array<T>, index: seq<nat>, ghost s: nat)
    requires a.Length == Pow2(s) && index == Entries(Pairs(0, a.Length, s))
    modifies a
    ensures a[..] == BitReversed(old(a[..]), s)
  {
    hide Rev, Partial, BitReversed, Pairs;
    ghost var b := a[..];
    ghost var next: nat := 0;
    PartialStart(b, s);
    var m := 0;
    while m < |index|
      invariant 0 <= m <= |index| && next <= a.Length
      invariant index[m..] == Entries(Pairs(next, a.Length, s))
      invariant a[..] == Partial(b, next, s)
    {
      ghost var lower := NextPair(next, a.Length, s);
      EntriesNext(Swap(lower, Rev(lower, s)), Pairs(lower + 1, a.Length, s));
      assert index[m..][0] == lower && index[m..][1] == Rev(lower, s) && index[m..][2..] == index[m + 2..];
      Skip(b, next, lower, s);
      PartialStep(b, lower, s);
      var temp := a[index[m]];
      a[index[m]] := a[index[m + 1]];
      a[index[m + 1]] := temp;
      next := lower + 1;
      m := m + 2;
    }
    NoneLeft(next, a.Length, s);
    Skip(b, next, a.Length, s);
    PartialEnds(b, s);
  }

  lemma PartialStart<T>(b: seq<T>, s: nat)
    requires |b| == Pow2(s)
    ensures Partial(b, 0, s) == b
  {
  }

  lemma PowersOfStages()
    ensures Pow2(7) == 128 && Pow2(8) == 256
  {
  }

  /** WebRtcSpl_ComplexBitReverse: by table or by loop, the same permutation. */
  method ComplexBitReverse<T>(a: array<T>, stages: nat)
    requires a.Length == Pow2(stages)
    modifies a
    ensures a[..] == BitReversed(old(a[..]), stages)
  {
    hide BitReversed, Pairs, Index7, Index8, Pow2;
    if stages == 7 || stages == 8 {
      PowersOfStages();
      var index := Index7();
      if stages == 8 {
        index := Index8();
        Index8IsComplete();
      } else {
        Index7IsComplete();
      }
      SwapByTable(a, index, stages);
    } else {
      SwapByLoop(a, stages);
    }
  }
}
