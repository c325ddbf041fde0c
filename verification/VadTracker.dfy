/** The sorted, ageing memory of small feature values in vad_sp.c (WebRtcVad_FindMinimum):
    what one call does to the sixteen entries of a channel. */
module VadTracker {
  import opened FixedPoint

  const SLOTS := 16
  const FILL := 10000
  const MAX_AGE := 100
  const SMOOTHING_DOWN := 6553
  const SMOOTHING_UP := 32439

  datatype Entry = Entry(value: int, age: int)

  const FILLER := Entry(FILL, MAX_AGE + 1)

  // ---------------------------------------------------------------- ageing

  /** The first step of an ageing pass: an entry of age 100 is removed and the rest shifts down,
      a filler coming in at the end; any other entry gets a frame older. */
  function AgeFirst(r: seq<Entry>): (s: seq<Entry>)
    requires r != []
    ensures |s| == |r|
  {
    if r[0].age != MAX_AGE then [r[0].(age := W16(r[0].age + 1))] + r[1..] else r[1..] + [FILLER]
  }

  /** A whole pass. The entry that takes a removed entry's place is not aged in this pass. */
  function AgeRest(r: seq<Entry>): (s: seq<Entry>)
    ensures |s| == |r|
    decreases |r|
  {
    if r == [] then [] else [AgeFirst(r)[0]] + AgeRest(AgeFirst(r)[1..])
  }

  /** The same pass as the code's loop runs it in place, with n slots to go. */
  function AgeLast(w: seq<Entry>, n: nat): (s: seq<Entry>)
    requires n <= |w|
    ensures |s| == |w|
    decreases n
  {
    if n == 0 then w else AgeLast(AgeSlot(w, |w| - n), n - 1)
  }

  function AgeSlot(w: seq<Entry>, i: nat): (s: seq<Entry>)
    requires i < |w|
    ensures |s| == |w|
  {
    if w[i].age != MAX_AGE then w[i := w[i].(age := W16(w[i].age + 1))] else w[..i] + w[i + 1..] + [FILLER]
  }

  lemma {:induction false} AgeLastIsAgeRest(w: seq<Entry>, n: nat)
    requires n <= |w|
    ensures AgeLast(w, n) == w[..|w| - n] + AgeRest(w[|w| - n..])
    decreases n
  {
    if n > 0 {
      var i := |w| - n;
      var w' := AgeSlot(w, i);
      AgeLastIsAgeRest(w', n - 1);
      assert |w'| - (n - 1) == i + 1;
      assert AgeLast(w, n) == AgeLast(w', n - 1) == w'[..i + 1] + AgeRest(w'[i + 1..]);
      SlotByFirst(w, w', i);
    } else {
      assert w[..|w|] == w && w[|w|..] == [];
    }
  }

  lemma SlotByFirst(w: seq<Entry>, w': seq<Entry>, i: nat)
    requires i < |w| && w' == AgeSlot(w, i)
    ensures w'[..i + 1] + AgeRest(w'[i + 1..]) == w[..i] + AgeRest(w[i..])
  {
    SlotIsFirst(w, i);
    AgeRestUnfolds(w[i..], w'[i], w'[i + 1..]);
    Regroup(w[..i], w'[i], AgeRest(w'[i + 1..]));
    assert w[..i] + [w'[i]] == w'[..i + 1];
  }

  lemma AgeRestUnfolds(r: seq<Entry>, first: Entry, rest: seq<Entry>)
    requires r != [] && AgeFirst(r)[0] == first && AgeFirst(r)[1..] == rest
    ensures AgeRest(r) == [first] + AgeRest(rest)
  {
  }

  lemma Regroup(a: seq<Entry>, x: Entry, b: seq<Entry>)
    ensures a + ([x] + b) == (a + [x]) + b
  {
  }

  lemma WholePass(w: seq<Entry>)
    ensures AgeLast(w, |w|) == AgeRest(w)
  {
    AgeLastIsAgeRest(w, |w|);
    assert w[..0] == [] && w[0..] == w;
  }

  lemma SlotIsFirst(w: seq<Entry>, i: nat)
    requires i < |w|
    ensures AgeFirst(w[i..])[0] == AgeSlot(w, i)[i] && AgeFirst(w[i..])[1..] == AgeSlot(w, i)[i + 1..]
    ensures AgeSlot(w, i)[..i] == w[..i]
  {
  }

  /** The entries that survive a pass, in order. */
  function Survivors(r: seq<Entry>): (s: seq<Entry>)
    ensures |s| <= |r|
  {
    if r == [] then []
    else if r[0].age != MAX_AGE then [r[0].(age := W16(r[0].age + 1))] + Survivors(r[1..])
    else if |r| == 1 then []
    else [r[1]] + Survivors(r[2..])
  }

  function Values(r: seq<Entry>): (v: seq<int>)
    ensures |v| == |r|
    ensures forall i | 0 <= i < |r| :: v[i] == r[i].value
  {
    seq(|r|, i requires 0 <= i < |r| => r[i].value)
  }

  function Fill(n: nat): (v: seq<int>)
    ensures |v| == n && forall i | 0 <= i < n :: v[i] == FILL
  {
    seq(n, _ => FILL)
  }

  lemma ValuesCons(e: Entry, r: seq<Entry>)
    ensures Values([e] + r) == [e.value] + Values(r)
  {
  }

  /** a is s, filled up with 10000. */
  predicate Padded(a: seq<Entry>, s: seq<Entry>) {
    && |s| <= |a|
    && (forall i | 0 <= i < |s| :: a[i] == s[i])
    && forall i | |s| <= i < |a| :: a[i].value == FILL
  }

  lemma PaddedCons(x: Entry, a: seq<Entry>, s: seq<Entry>)
    requires Padded(a, s)
    ensures Padded([x] + a, [x] + s)
    ensures x.value == FILL && s == [] ==> Padded([x] + a, s)
  {
  }

  lemma {:induction false} FillersStay(tail: seq<Entry>)
    requires Padded(tail, [])
    ensures Padded(AgeRest(tail), [])
    decreases |tail|
  {
    if tail != [] {
      var a := AgeFirst(tail);
      FillersStay(a[1..]);
      AgeRestUnfolds(tail, a[0], a[1..]);
      PaddedCons(a[0], AgeRest(a[1..]), []);
    }
  }

  /** A pass keeps the survivors, in order, and fills up with 10000. */
  lemma {:induction false} AgeingKeepsSurvivors(r: seq<Entry>, tail: seq<Entry>)
    requires Padded(tail, [])
    ensures Padded(AgeRest(r + tail), Survivors(r))
    decreases |r|
  {
    if r == [] {
      assert r + tail == tail;
      FillersStay(tail);
    } else {
      FirstOfPadded(r, tail);
      var a := AgeFirst(r + tail);
      if r[0].age != MAX_AGE {
        AgeingKeepsSurvivors(r[1..], tail);
        OneStep(r, tail, a, r[1..]);
      } else if |r| == 1 {
        FillersStay(a[1..]);
        OneStep(r, tail, a, []);
      } else {
        AgeingKeepsSurvivors(r[2..], tail + [FILLER]);
        OneStep(r, tail, a, r[2..]);
      }
    }
  }

  lemma OneStep(r: seq<Entry>, tail: seq<Entry>, a: seq<Entry>, rest: seq<Entry>)
    requires r != [] && a == AgeFirst(r + tail)
    requires Padded(AgeRest(a[1..]), Survivors(rest))
    requires Survivors(r) == [a[0]] + Survivors(rest) || (a[0].value == FILL && Survivors(rest) == [] == Survivors(r))
    ensures Padded(AgeRest(r + tail), Survivors(r))
  {
  }

  lemma FirstOfPadded(r: seq<Entry>, tail: seq<Entry>)
    requires r != []
    ensures var a := AgeFirst(r + tail);
            if r[0].age != MAX_AGE then a[0] == r[0].(age := W16(r[0].age + 1)) && a[1..] == r[1..] + tail
            else if |r| == 1 then a == tail + [FILLER]
            else a[0] == r[1] && a[1..] == r[2..] + (tail + [FILLER])
  {
  }

  // ---------------------------------------------------------------- insertion

  predicate Sorted(v: seq<int>) { forall i, j | 0 <= i <= j < |v| :: v[i] <= v[j] }

  /** The least index whose value exceeds the feature, or the length. */
  function Position(v: seq<int>, feature: int): (p: nat)
    ensures p <= |v|
    ensures forall i | 0 <= i < p :: v[i] <= feature
    ensures p < |v| ==> feature < v[p]
  {
    if v == [] || feature < v[0] then 0 else 1 + Position(v[1..], feature)
  }

  function Insert(r: seq<Entry>, feature: int): (s: seq<Entry>)
    ensures |s| == |r|
  {
    var p := Position(Values(r), feature);
    if p < |r| then r[..p] + [Entry(feature, 1)] + r[p..|r| - 1] else r
  }

  /** What one call does to the entries of its channel. */
  function Step(r: seq<Entry>, feature: int): (s: seq<Entry>)
    ensures |s| == |r|
  {
    Insert(AgeRest(r), feature)
  }

  // ---------------------------------------------------------------- the running minimum

  function Median(r: seq<Entry>, frameCounter: int): int
    requires |r| == SLOTS
  {
    if frameCounter > 2 then r[2].value else if frameCounter > 0 then r[0].value else 1600
  }

  /** The weights the code gives the old mean and the median, in Q15: alpha + 1 and 32767 - alpha
      for the three values of alpha. They always sum to one. */
  function Blend(frameCounter: int, mean: int, median: int): int {
    if frameCounter <= 0 then mean + 32767 * median
    else if median < mean then 6554 * mean + 26214 * median
    else 32440 * mean + 328 * median
  }

  function NextMean(r: seq<Entry>, frameCounter: int, mean: int): int
    requires |r| == SLOTS
  {
    W16((Blend(frameCounter, mean, Median(r, frameCounter)) + 16384) / 32768)
  }

  // ---------------------------------------------------------------- what every call keeps

  predicate EntryOk(e: Entry) {
    && -32768 <= e.value <= FILL
    && IsInt16(e.age)
    && (e.value < FILL ==> 1 <= e.age <= MAX_AGE)
  }

  predicate AllOk(r: seq<Entry>) { forall i | 0 <= i < |r| :: EntryOk(r[i]) }

  predicate EntriesOk(r: seq<Entry>) { Sorted(Values(r)) && AllOk(r) }

  lemma {:induction false} AgeingKeepsEntries(r: seq<Entry>)
    requires AllOk(r)
    ensures AllOk(AgeRest(r))
    decreases |r|
  {
    if r != [] {
      var a := AgeFirst(r);
      assert AllOk(a);
      AgeingKeepsEntries(a[1..]);
      assert AgeRest(r) == [a[0]] + AgeRest(a[1..]);
    }
  }

  predicate Within(v: seq<int>, lo: int) { forall i | 0 <= i < |v| :: lo <= v[i] <= FILL }

  lemma {:induction false} SurvivorsSorted(r: seq<Entry>, lo: int)
    requires Sorted(Values(r)) && Within(Values(r), lo)
    ensures Sorted(Values(Survivors(r))) && Within(Values(Survivors(r)), lo)
    decreases |r|
  {
    if r != [] && (r[0].age != MAX_AGE || |r| > 1) {
      var k := if r[0].age != MAX_AGE then 1 else 2;
      SuffixSorted(r, k);
      SurvivorsSorted(r[k..], r[k - 1].value);
      ValuesCons(Survivors(r)[0], Survivors(r[k..]));
      ConsSorted(Values(Survivors(r[k..])), r[k - 1].value);
      assert lo <= Values(r)[k - 1] <= FILL;
    }
  }

  lemma SuffixSorted(r: seq<Entry>, k: nat)
    requires Sorted(Values(r)) && 1 <= k <= |r|
    requires forall i | 0 <= i < |r| :: Values(r)[i] <= FILL
    ensures Sorted(Values(r[k..])) && Within(Values(r[k..]), r[k - 1].value)
  {
  }

  lemma ConsSorted(v: seq<int>, x: int)
    requires Sorted(v) && Within(v, x) && x <= FILL
    ensures Sorted([x] + v) && Within([x] + v, x)
  {
  }

  /** Each call keeps the values sorted and at most 10000, and every value below 10000 at an
      age of 1 to 100. */
  lemma StepKeeps(r: seq<Entry>, feature: int)
    requires EntriesOk(r) && IsInt16(feature)
    ensures EntriesOk(Step(r, feature))
  {
    AgeingKeepsEntries(r);
    AgedSorted(r);
    InsertKeeps(AgeRest(r), feature);
  }

  lemma AgedSorted(r: seq<Entry>)
    requires EntriesOk(r)
    ensures Sorted(Values(AgeRest(r)))
  {
    assert r + [] == r;
    AgeingKeepsSurvivors(r, []);
    SurvivorsSorted(r, -32768);
    PaddedSorted(Values(AgeRest(r)), Values(Survivors(r)));
  }

  lemma PaddedSorted(w: seq<int>, v: seq<int>)
    requires Sorted(v) && Within(v, -32768) && |v| <= |w|
    requires forall i | 0 <= i < |w| :: w[i] == if i < |v| then v[i] else FILL
    ensures Sorted(w)
  {
  }

  /** `Insert` on the values alone. */
  function InsertAt(v: seq<int>, p: nat, feature: int): (w: seq<int>)
    requires p < |v|
    ensures |w| == |v|
  {
    v[..p] + [feature] + v[p..|v| - 1]
  }

  lemma InsertValues(r: seq<Entry>, feature: int)
    requires Position(Values(r), feature) < |r|
    ensures Values(Insert(r, feature)) == InsertAt(Values(r), Position(Values(r), feature), feature)
  {
  }

  lemma InsertAtSorted(v: seq<int>, p: nat, feature: int)
    requires Sorted(v) && p < |v|
    requires forall i | 0 <= i < p :: v[i] <= feature
    requires feature < v[p]
    ensures Sorted(InsertAt(v, p, feature))
  {
  }

  lemma InsertAtExchanges(v: seq<int>, p: nat, feature: int)
    requires p < |v|
    ensures multiset(InsertAt(v, p, feature)) == multiset(v) - multiset{v[|v| - 1]} + multiset{feature}
  {
    var n := |v| - 1;
    assert v == (v[..p] + v[p..n]) + [v[n]];
    assert multiset(v) == multiset(v[..p] + v[p..n]) + multiset{v[n]};
  }

  lemma InsertKeeps(a: seq<Entry>, feature: int)
    requires EntriesOk(a) && IsInt16(feature)
    ensures EntriesOk(Insert(a, feature))
  {
    var p := Position(Values(a), feature);
    if p < |a| {
      assert EntryOk(a[p]);
      InsertValues(a, feature);
      InsertAtSorted(Values(a), p, feature);
    }
  }

  /** A call changes the values by the feature coming in and the largest survivor going out,
      and by nothing when the feature is below none of them. */
  lemma StepExchanges(r: seq<Entry>, feature: int)
    requires EntriesOk(r) && r != []
    ensures var aged := Values(AgeRest(r));
            var after := Values(Step(r, feature));
            var largest := aged[|r| - 1];
            if feature < largest
               then multiset(after) == multiset(aged) - multiset{largest} + multiset{feature}
               else after == aged
  {
    AgedSorted(r);
    var v := Values(AgeRest(r));
    var p := Position(v, feature);
    if p < |v| {
      InsertValues(AgeRest(r), feature);
      InsertAtExchanges(v, p, feature);
      assert v[p] <= v[|v| - 1];
    } else {
      assert v[|v| - 1] <= feature;
    }
  }

  // ---------------------------------------------------------------- the first hundred calls

  function Start(): (r: seq<Entry>)
    ensures |r| == SLOTS
  {
    seq(SLOTS, _ => Entry(FILL, 0))
  }

  /** The entries after a channel has seen the features fs. */
  function Run(fs: seq<int>): (r: seq<Entry>)
    ensures |r| == SLOTS
  {
    if fs == [] then Start() else Step(Run(fs[..|fs| - 1]), fs[|fs| - 1])
  }

  lemma {:induction false} RunKeeps(fs: seq<int>)
    requires forall i | 0 <= i < |fs| :: IsInt16(fs[i])
    ensures EntriesOk(Run(fs))
  {
    if fs != [] {
      RunKeeps(fs[..|fs| - 1]);
      StepKeeps(Run(fs[..|fs| - 1]), fs[|fs| - 1]);
    }
  }

  predicate NoneOlder(r: seq<Entry>, n: int) {
    forall i | 0 <= i < |r| :: r[i].age <= n && IsInt16(r[i].age)
  }

  lemma {:induction false} NothingExpires(r: seq<Entry>, n: int)
    requires NoneOlder(r, n) && n < MAX_AGE
    ensures Values(AgeRest(r)) == Values(r)
    ensures NoneOlder(AgeRest(r), n + 1)
  {
    if r != [] {
      var a := AgeFirst(r);
      assert a[1..] == r[1..];
      NothingExpires(r[1..], n);
      ValuesCons(a[0], AgeRest(r[1..]));
      ValuesCons(r[0], r[1..]);
      assert r == [r[0]] + r[1..];
    }
  }

  lemma InsertAges(r: seq<Entry>, feature: int, n: int)
    requires n >= 1 && NoneOlder(r, n)
    ensures NoneOlder(Insert(r, feature), n)
  {
  }

  lemma {:induction false} RunAges(fs: seq<int>)
    requires |fs| <= MAX_AGE
    ensures NoneOlder(Run(fs), |fs|)
  {
    if fs != [] {
      var front := fs[..|fs| - 1];
      RunAges(front);
      NothingExpires(Run(front), |front|);
      InsertAges(AgeRest(Run(front)), fs[|fs| - 1], |fs|);
    }
  }

  /** w holds the smallest elements of `all`: the others are no smaller than any of it. */
  ghost predicate Smallest(w: seq<int>, all: multiset<int>) {
    && w != []
    && Sorted(w)
    && multiset(w) <= all
    && forall d | d in all - multiset(w) :: w[|w| - 1] <= d
  }

  /** Over the first hundred calls the memory is exactly the sixteen smallest of the features
      seen and of the sixteen start values. */
  lemma {:induction false} FirstHundred(fs: seq<int>)
    requires |fs| <= MAX_AGE
    requires forall i | 0 <= i < |fs| :: IsInt16(fs[i])
    ensures Smallest(Values(Run(fs)), multiset(fs) + multiset(Fill(SLOTS)))
  {
    hide Run, Step, Smallest, Fill, EntriesOk, NoneOlder, Values, Words;
    if fs == [] {
      StartHolds();
    } else {
      var front, f := fs[..|fs| - 1], fs[|fs| - 1];
      FirstHundred(front);
      RunKeeps(front);
      RunAges(front);
      RunNext(front, f);
      OneMore(Run(front), multiset(front) + multiset(Fill(SLOTS)), f, |front|);
      assert fs == front + [f];
      OneMoreSeen(front, f, multiset(Fill(SLOTS)));
    }
  }

  lemma StartHolds()
    ensures Smallest(Values(Run([])), multiset([]) + multiset(Fill(SLOTS)))
  {
    assert Values(Start()) == Fill(SLOTS);
  }

  lemma OneMoreSeen(front: seq<int>, f: int, start: multiset<int>)
    ensures multiset(front) + start + multiset{f} == multiset(front + [f]) + start
  {
  }

  lemma OneMore(r: seq<Entry>, all: multiset<int>, f: int, n: int)
    requires EntriesOk(r) && r != [] && NoneOlder(r, n) && n < MAX_AGE && IsInt16(f)
    requires Smallest(Values(r), all)
    ensures Smallest(Values(Step(r, f)), all + multiset{f})
  {
    NothingExpires(r, n);
    StepExchanges(r, f);
    StepKeeps(r, f);
    ExchangeKeepsSmallest(Values(r), Values(Step(r, f)), all, f);
  }

  lemma LastIsLargest(v: seq<int>, x: int)
    requires Sorted(v)
    ensures x in multiset(v) ==> v != [] && x <= v[|v| - 1]
  {
    if x in multiset(v) {
      var i :| 0 <= i < |v| && v[i] == x;
      assert v[i] <= v[|v| - 1];
    }
  }

  lemma RestOfExchange(all: multiset<int>, v: multiset<int>, w: multiset<int>, largest: int, f: int)
    requires v <= all && largest in v && w == v - multiset{largest} + multiset{f}
    ensures w <= all + multiset{f} && all + multiset{f} - w == all - v + multiset{largest}
  {
  }

  lemma ExchangeKeepsSmallest(v: seq<int>, w: seq<int>, all: multiset<int>, f: int)
    requires Smallest(v, all) && Sorted(w) && |w| == |v|
    requires var largest := v[|v| - 1];
             if f < largest then multiset(w) == multiset(v) - multiset{largest} + multiset{f} else w == v
    ensures Smallest(w, all + multiset{f})
  {
    hide Sorted;
    var largest := v[|v| - 1];
    assert largest in multiset(v);
    if f < largest {
      LastIsLargest(v, w[|w| - 1]);
      assert w[|w| - 1] in multiset(w);
      RestOfExchange(all, multiset(v), multiset(w), largest, f);
    } else {
      assert all + multiset{f} - multiset(w) == all - multiset(v) + multiset{f};
    }
  }

  // ---------------------------------------------------------------- a hundred-frame window

  predicate Words(fs: seq<int>) { forall i | 0 <= i < |fs| :: IsInt16(fs[i]) }

  /** The last hundred features. */
  function Window(fs: seq<int>): seq<int> { if |fs| <= MAX_AGE then fs else fs[|fs| - MAX_AGE..] }

  /** The memory is the sixteen smallest of the last hundred features and the start values. */
  ghost predicate HoldsSmallest(fs: seq<int>) {
    Smallest(Values(Run(fs)), multiset(Window(fs)) + multiset(Fill(SLOTS)))
  }

  lemma RunNext(fs: seq<int>, f: int)
    ensures Run(fs + [f]) == Step(Run(fs), f)
  {
    assert (fs + [f])[..|fs|] == fs;
  }

  /** A first feature that no later one is below stays in the first slot and gets a frame older with every call. */
  lemma {:induction false} FirstStays(fs: seq<int>)
    requires 0 < |fs| <= MAX_AGE && Words(fs) && forall i | 0 <= i < |fs| :: fs[0] <= fs[i] < FILL
    ensures Run(fs)[0] == Entry(fs[0], |fs|)
  {
    hide Run, Insert, AgeRest, Values;
    var front, f := fs[..|fs| - 1], fs[|fs| - 1];
    assert fs == front + [f];
    RunNext(front, f);
    if front == [] {
      RunOfNothing();
      AgedFirst(Start());
      InsertFirst(AgeRest(Start()), f);
    } else {
      FirstStays(front);
      AgedFirst(Run(front));
      InsertLater(AgeRest(Run(front)), f);
    }
  }

  lemma AgedFirst(r: seq<Entry>)
    requires r != [] && 0 <= r[0].age < MAX_AGE
    ensures AgeRest(r)[0] == Entry(r[0].value, r[0].age + 1)
  {
  }

  lemma RunOfNothing()
    ensures Run([]) == Start()
  {
  }

  lemma InsertFirst(r: seq<Entry>, f: int)
    requires r != [] && f < r[0].value
    ensures Insert(r, f)[0] == Entry(f, 1)
  {
  }

  lemma InsertLater(r: seq<Entry>, f: int)
    requires r != [] && r[0].value <= f
    ensures Insert(r, f)[0] == r[0]
  {
  }

  /** When the first entry expires, the last slot is free and the feature comes in. */
  lemma ExpiredTakesFeature(r: seq<Entry>, f: int)
    requires r != [] && EntriesOk(r) && r[0].age == MAX_AGE && f < FILL
    ensures f in Values(Step(r, f))
  {
    hide Insert, Survivors;
    assert r + [] == r;
    AgeingKeepsSurvivors(r, []);
    ExpiredLeavesRoom(r);
    var a := AgeRest(r);
    assert Values(a)[|a| - 1] == FILL;
    TakesFeature(a, f);
  }

  lemma ExpiredLeavesRoom(r: seq<Entry>)
    requires r != [] && r[0].age == MAX_AGE
    ensures |Survivors(r)| < |r|
  {
  }

  lemma TakesFeature(a: seq<Entry>, f: int)
    requires a != [] && f < Values(a)[|a| - 1]
    ensures f in Values(Insert(a, f))
  {
    var p := Position(Values(a), f);
    assert Values(Insert(a, f))[p] == f;
  }

  /** A hundred and one features, the first of which expires, and sixteen of which are smaller than the last. */
  function Overdue(): (fs: seq<int>)
    ensures |fs| == MAX_AGE + 1
  {
    [1] + (seq(16, _ => 2) + seq(84, _ => 3))
  }

  lemma OverdueFails()
    ensures Words(Overdue()) && !HoldsSmallest(Overdue())
  {
    hide Run, Step, Values, EntriesOk;
    var fs := Overdue();
    var front, twos, threes := fs[..MAX_AGE], seq(16, _ => 2), seq(84, _ => 3);
    assert fs == front + [3];
    RunNext(front, 3);
    FirstStays(front);
    RunKeeps(front);
    ExpiredTakesFeature(Run(front), 3);
    var w := Values(Run(fs));
    assert Window(fs) == twos + threes;
    TwosThenThrees(w, multiset(twos + threes) + multiset(Fill(SLOTS)));
  }

  lemma TwosThenThrees(w: seq<int>, all: multiset<int>)
    requires |w| == SLOTS && 3 in w && all == multiset(seq(16, _ => 2) + seq(84, _ => 3)) + multiset(Fill(SLOTS))
    ensures !Smallest(w, all)
  {
    if Smallest(w, all) {
      assert w[|w| - 1] >= 3;
      CountOfEqual(16, 2);
      assert multiset(seq(16, _ => 2) + seq(84, _ => 3)) == multiset(seq(16, _ => 2)) + multiset(seq(84, _ => 3));
      assert 2 !in all - multiset(w);
      assert all[2] >= 16;
      var others := multiset(w) - multiset{3};
      CountAtMostSize(others, 2);
    }
  }

  lemma {:induction false} CountOfEqual(n: nat, x: int)
    ensures multiset(seq(n, _ => x))[x] == n
  {
    if n > 0 {
      CountOfEqual(n - 1, x);
      assert seq(n, _ => x) == seq(n - 1, _ => x) + [x];
    }
  }

  lemma CountAtMostSize(m: multiset<int>, x: int)
    ensures m[x] <= |m|
  {
    assert m == m[x := 0] + multiset{}[x := m[x]];
  }

  /** The memory is the sixteen smallest of a hundred-frame window for every run of up to n calls if and only if n is at
      most a hundred. */
  lemma WindowIsExact(n: nat)
    ensures (forall fs | |fs| <= n && Words(fs) :: HoldsSmallest(fs)) <==> n <= MAX_AGE
  {
    hide Smallest;
    if n <= MAX_AGE {
      forall fs | |fs| <= n && Words(fs) ensures HoldsSmallest(fs) {
        FirstHundred(fs);
      }
    } else {
      OverdueFails();
    }
  }

  // ---------------------------------------------------------------- smoothing

  /** The smoothed mean lies between the old mean and the chosen median. */
  lemma SmoothingIsBetween(r: seq<Entry>, frameCounter: int, mean: int)
    requires |r| == SLOTS && IsInt16(mean) && IsInt16(Median(r, frameCounter))
    ensures var median := Median(r, frameCounter);
            var next := NextMean(r, frameCounter, mean);
            mean <= next <= median || median <= next <= mean
  {
  }

  /** How many values are below x, and how many are at most x. */
  function Below(values: seq<int>, x: int): nat {
    if values == [] then 0
    else Below(values[..|values| - 1], x) + if values[|values| - 1] < x then 1 else 0
  }

  function AtMost(values: seq<int>, x: int): nat {
    if values == [] then 0
    else AtMost(values[..|values| - 1], x) + if values[|values| - 1] <= x then 1 else 0
  }

  /** x is the value with k others below it in any order of the values: the third smallest for k = 2. */
  predicate IsRanked(values: seq<int>, k: nat, x: int) { Below(values, x) <= k < AtMost(values, x) }

  lemma {:induction false} CountsOfSorted(values: seq<int>, k: nat, x: int, n: nat)
    requires Sorted(values) && k < |values| && n <= |values|
    ensures x <= values[k] ==> Below(values[..n], x) <= k
    ensures x > values[k] ==> Below(values[..n], x) >= if n <= k then n else k + 1
    ensures x >= values[k] ==> AtMost(values[..n], x) >= if n <= k then n else k + 1
    ensures x < values[k] ==> AtMost(values[..n], x) <= k
    ensures n <= k ==> Below(values[..n], x) <= n && AtMost(values[..n], x) <= n
  {
    if n > 0 {
      CountsOfSorted(values, k, x, n - 1);
      assert values[..n][..n - 1] == values[..n - 1];
      if n - 1 >= k {
        assert values[k] <= values[n - 1];
      } else {
        assert values[n - 1] <= values[k];
      }
    }
  }

  lemma RankedIs(values: seq<int>, k: nat, x: int)
    requires Sorted(values) && k < |values|
    ensures IsRanked(values, k, x) <==> x == values[k]
  {
    CountsOfSorted(values, k, x, |values|);
    assert values[..|values|] == values;
  }

  /** The mean falls by four fifths of the way to a value below it and rises by a hundredth of the way to one that is
      not, to the nearest whole number. The value is the smallest in the memory, and from the third frame on the third
      smallest; before the first frame the mean becomes 1600. */
  lemma FallsFastRisesSlowly(r: seq<Entry>, frameCounter: int, mean: int, v: int)
    requires |r| == SLOTS && EntriesOk(r) && IsInt16(mean)
    requires frameCounter > 0 ==> IsRanked(Values(r), if frameCounter > 2 then 2 else 0, v)
    ensures
      var next := NextMean(r, frameCounter, mean);
      if frameCounter <= 0 then 1599 <= next <= 1601
      else if v < mean then -3 <= 5 * (next - v) - (mean - v) <= 3 + (mean - v) / 16384
      else -50 <= 100 * (next - mean) - (v - mean) <= 51 + (v - mean) / 1024
  {
    hide NextMean, Sorted, AllOk;
    if frameCounter > 0 {
      RankedIs(Values(r), if frameCounter > 2 then 2 else 0, v);
    }
    MedianIs(r, frameCounter);
    NextIs(r, frameCounter, mean);
    Weights(mean, Median(r, frameCounter));
  }

  lemma MedianIs(r: seq<Entry>, frameCounter: int)
    requires |r| == SLOTS && AllOk(r)
    ensures IsInt16(Median(r, frameCounter))
    ensures
      Median(r, frameCounter)
      == if frameCounter > 2 then Values(r)[2] else if frameCounter > 0 then Values(r)[0] else 1600
  {
  }

  lemma NextIs(r: seq<Entry>, frameCounter: int, mean: int)
    requires |r| == SLOTS
    ensures NextMean(r, frameCounter, mean) == W16((Blend(frameCounter, mean, Median(r, frameCounter)) + 16384) / 32768)
  {
  }

  lemma Weights(mean: int, v: int)
    requires IsInt16(mean) && IsInt16(v)
    ensures v == 1600 ==> 1599 <= W16((Blend(0, mean, v) + 16384) / 32768) <= 1601
    ensures
      var next := W16((Blend(1, mean, v) + 16384) / 32768);
      && (v < mean ==> -3 <= 5 * (next - v) - (mean - v) <= 3 + (mean - v) / 16384)
      && (v >= mean ==> -50 <= 100 * (next - mean) - (v - mean) <= 51 + (v - mean) / 1024)
  {
  }
}
