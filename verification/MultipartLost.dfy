/** Which splits of a serialized multipart body are accepted with its items: those, and only those, whose first bytes
    hold the first delimiter line. A parser that lost it runs behind the body for good. */
module MultipartLost {
  import opened FormHeaders
  import opened HeaderFields
  import opened LineReader
  import opened Multipart
  import opened MultipartBody
  import opened MultipartModel
  import opened MultipartRoundTrip
  import opened MultipartSplit

  predicate Suffix(r: string, t: string) { |r| <= |t| && t[|t| - |r|..] == r }

  lemma SuffixOfSum(a: string, b: string, t: string)
    requires Suffix(a + b, t)
    ensures Suffix(b, t)
  {
    assert b == (a + b)[|a|..];
  }

  /** The text from the content of the first item to come on. */
  function Rest(todo: seq<FormItem>, boundary: string): string
    requires todo != []
  {
    BodyText(todo[0].content, todo, boundary)
  }

  lemma RestIs(todo: seq<FormItem>, boundary: string)
    requires todo != []
    ensures Rest(todo, boundary) == todo[0].content + CrlfDashBoundary(boundary) + After(todo[1..], boundary)
    ensures Form(todo, boundary) == Head(todo[0]) + Rest(todo, boundary)
  {
    hide Head, After;
    var c, d, after := todo[0].content, CrlfDashBoundary(boundary), After(todo[1..], boundary);
    assert Head(todo[0]) + c + d + after == Head(todo[0]) + (c + d + after);
  }

  // ---------------------------------------------------------------- where the delimiter can occur

  predicate GoodBoundary(boundary: string) { boundary != [] && '\r' !in boundary }

  predicate PlainLine(h: string) { h != [] && '\r' !in h && h[0] != '-' }

  /** The delimiter begins with the only CR in it. */
  lemma OneCr(t: string, d: string, i: nat, k: nat)
    requires Occurs(t, d, i) && i <= k < i + |d| && (forall j | 1 <= j < |d| :: d[j] != '\r') && k < |t| && t[k] == '\r'
    ensures k == i
  {
    assert t[i..i + |d|][k - i] == t[k];
  }

  lemma DelimiterChars(boundary: string)
    requires GoodBoundary(boundary)
    ensures
      var d := CrlfDashBoundary(boundary);
      |d| >= 5 && d[0] == '\r' && d[1] == '\n' && d[2] == '-' && forall j | 1 <= j < |d| :: d[j] != '\r'
  {
  }

  /** No delimiter stands in the header lines of an item, from the line end before them to the empty line. */
  lemma {:induction false} NoneInLines(hs: seq<string>, boundary: string, i: nat)
    requires GoodBoundary(boundary) && forall k | 0 <= k < |hs| :: PlainLine(hs[k])
    ensures !Occurs(CRLF + (JoinLines(hs) + CRLF), CrlfDashBoundary(boundary), i)
    decreases |hs|
  {
    hide Occurs, CrlfDashBoundary;
    var d := CrlfDashBoundary(boundary);
    DelimiterChars(boundary);
    var t := CRLF + (JoinLines(hs) + CRLF);
    if hs == [] {
      assert |t| == 4;
      TooShort(t, d, i);
    } else {
      var h := hs[0];
      var later := CRLF + (JoinLines(hs[1..]) + CRLF);
      assert t == CRLF + h + later;
      if i == 0 {
        DiffersAt(t, d, 0, 2);
      } else if i < |h| + 2 {
        if i == 1 {
          DiffersAt(t, d, 1, 0);
        } else {
          assert t[i] == h[i - 2];
          assert h[i - 2] in h;
          DiffersAt(t, d, i, 0);
        }
      } else {
        NoneInLines(hs[1..], boundary, i - |h| - 2);
        OccursBehind(CRLF + h, later, d, i - |h| - 2);
      }
    }
  }

  lemma TooShort(t: string, d: string, i: nat)
    requires |t| < i + |d|
    ensures !Occurs(t, d, i)
  {
  }

  lemma DiffersAt(t: string, d: string, i: nat, k: nat)
    requires k < |d| && i + k < |t| && t[i + k] != d[k]
    ensures !Occurs(t, d, i)
  {
    Differs(t, d, i, k);
  }

  lemma OccursBehind(a: string, t: string, d: string, i: nat)
    ensures Occurs(a + t, d, |a| + i) <==> Occurs(t, d, i)
  {
    if i + |d| <= |t| {
      assert (a + t)[|a| + i..|a| + i + |d|] == t[i..i + |d|];
    }
  }

  lemma LinesArePlain(item: FormItem)
    requires SafeName(item.name) && SafeName(item.filename) && SafeType(item.contentType)
    ensures forall k | 0 <= k < |HeaderLines(item)| :: PlainLine(HeaderLines(item)[k])
  {
    hide DispositionText;
    DispositionHasNoCr(item);
  }

  /** A delimiter that ends behind an item's content and the delimiter there ends behind the next item's head. */
  lemma NextDelimiter(item: FormItem, todo: seq<FormItem>, boundary: string, i: nat)
    requires todo != [] && GoodBoundary(boundary)
    requires SafeName(todo[0].name) && SafeName(todo[0].filename) && SafeType(todo[0].contentType)
    requires Occurs(Rest([item] + todo, boundary), CrlfDashBoundary(boundary), i) && i > |item.content|
    ensures
      var all := Rest([item] + todo, boundary);
      |all| - i - |CrlfDashBoundary(boundary)| < |Rest(todo, boundary)|
  {
    hide Rest, Head, After, Form, HeaderLines, Occurs, CrlfDashBoundary, PlainLine;
    var d, c, rest := CrlfDashBoundary(boundary), item.content, Rest(todo, boundary);
    RestIs([item] + todo, boundary);
    RestIs(todo, boundary);
    AfterIs(todo, boundary);
    assert ([item] + todo)[1..] == todo;
    DelimiterChars(boundary);
    LinesArePlain(todo[0]);
    HeadIsLines(todo[0]);
    var lines := CRLF + Head(todo[0]);
    var all := c + d + lines + rest;
    assert all == Rest([item] + todo, boundary) == (c + d) + (lines + rest);
    if |all| - i - |d| >= |rest| {
      if i < |c| + |d| {
        assert all[i] == d[i - |c|];
        DiffersAt(all, d, i, 0);
      } else {
        NoneInLines(HeaderLines(todo[0]), boundary, i - |c| - |d|);
        OccursWithin(lines, rest, d, i - |c| - |d|);
        OccursBehind(c + d, lines + rest, d, i - |c| - |d|);
      }
    }
  }

  lemma NoneBehindLast(item: FormItem, boundary: string, i: nat)
    requires GoodBoundary(boundary) && i > |item.content|
    ensures !Occurs(Rest([item], boundary), CrlfDashBoundary(boundary), i)
  {
    hide Rest, Occurs, CrlfDashBoundary;
    var d, c := CrlfDashBoundary(boundary), item.content;
    var all := Rest([item], boundary);
    RestIs([item], boundary);
    AfterIs([item], boundary);
    DelimiterChars(boundary);
    assert all == c + d + (DASH + CRLF);
    if i + |d| <= |all| {
      assert all[i] == d[i - |c|];
      DiffersAt(all, d, i, 0);
    } else {
      TooShort(all, d, i);
    }
  }

  /** If the last item's content is too short to begin with two dashes and the boundary, the delimiter behind the
      second last item's is the last. */
  lemma LastDelimiter(item: FormItem, last: FormItem, boundary: string, i: nat)
    requires GoodBoundary(boundary) && SafeName(last.name) && SafeName(last.filename) && SafeType(last.contentType)
    requires Occurs(Rest([item, last], boundary), CrlfDashBoundary(boundary), i)
    requires i > |item.content| && |last.content| <= 2
    ensures |Rest([item, last], boundary)| - i - |CrlfDashBoundary(boundary)| <= 4
  {
    hide Rest, Head, After, Form, Occurs, CrlfDashBoundary;
    var d, c, all := CrlfDashBoundary(boundary), item.content, Rest([item, last], boundary);
    assert [item] + [last] == [item, last];
    NextDelimiter(item, [last], boundary, i);
    RestIs([item, last], boundary);
    RestIs([last], boundary);
    AfterIs([last], boundary);
    assert [item, last][1..] == [last];
    DelimiterChars(boundary);
    HeadIsLines(last);
    assert [last][1..] == [];
    var tail := last.content + d + (DASH + CRLF);
    assert Rest([last], boundary) == tail;
    assert After([last], boundary) == CRLF + (JoinLines(HeaderLines(last)) + CRLF + tail);
    LastDelimiterIs(all, c, d, JoinLines(HeaderLines(last)), last.content, i);
  }

  lemma LastDelimiterIs(all: string, c: string, d: string, lines: string, c2: string, i: nat)
    requires |d| >= 5 && d[0] == '\r' && (forall j | 1 <= j < |d| :: d[j] != '\r') && |c2| <= 2
    requires all == c + d + (CRLF + (lines + CRLF + (c2 + d + (DASH + CRLF)))) && Occurs(all, d, i)
    requires |all| - i - |d| < |c2 + d + (DASH + CRLF)|
    ensures |all| - i - |d| <= 4
  {
    hide Occurs;
    var end := |all| - |d| - 4;
    var blank := end - |c2| - 2;
    assert all[end] == '\r' && all[blank] == '\r';
    if i < end {
      if i + |d| > end {
        OneCr(all, d, i, end);
      } else {
        OneCr(all, d, i, blank);
      }
    }
  }

  // ---------------------------------------------------------------- running behind the body

  /** How many items have been handed over whole. */
  function Finished(p: Parser): int { if p.state == Body then |p.items| - 1 else |p.items| }

  ghost predicate InStep(p: Parser, items: seq<FormItem>) {
    0 <= Finished(p) <= |items| && p.items[..Finished(p)] == items[..Finished(p)]
  }

  /** An item that is not the one at its place was handed over. */
  ghost predicate Out(p: Parser, items: seq<FormItem>) { Finished(p) >= 0 && !InStep(p, items) }

  /** In the content of an item: it begins behind the empty line, but behind the beginning of the content due. */
  ghost predicate BodyBehind(p: Parser, r: string, due: string, boundary: string)
    requires p.items != []
  {
    var d, e := CrlfDashBoundary(boundary), p.items[|p.items| - 1].content;
    && Suffix(CRLF + (e + r), due)
    && (forall i: nat | i < |e| :: !Occurs(e + r, d, i))
    && (e == [] || |p.pending| >= |d|)
  }

  /** Outside the contents: what is to come begins behind the beginning of the content due. */
  ghost predicate LineBehind(r: string, due: string) { |r| < |due| && Suffix(r, due) }

  /** No item can begin any more. */
  ghost predicate TooLate(p: Parser, r: string) {
    (p.state == Boundary && Suffix(r, DASH + CRLF)) || ((p.state == NewEntry || p.state == Headers) && r == [])
  }

  ghost predicate Behind(p: Parser, r: string, items: seq<FormItem>, boundary: string) {
    && InStep(p, items) && Finished(p) < |items| && p.file.content == [] && p.state != Preamble
    && (p.valid || p.state == Boundary ==> Finished(p) >= 1)
    && (0 < Finished(p) == |items| - 1 ==> |items[Finished(p)].content| >= 3 || TooLate(p, r))
    && var due := Rest(items[Finished(p)..], boundary);
       if p.state == Body then BodyBehind(p, r, due, boundary) else LineBehind(r, due)
  }

  ghost predicate Lost(p: Parser, r: string, items: seq<FormItem>, boundary: string) {
    Out(p, items) || Behind(p, r, items, boundary)
  }

  /** A turn after which the items cannot be right any more, or which refuses the body. */
  ghost predicate LostTurn(t: Turn, u: string, items: seq<FormItem>, boundary: string) {
    (t.Stop? && !t.ok) || Lost(t.p, t.p.pending + u, items, boundary)
  }

  // ---------------------------------------------------------------- an item out of place stays

  ghost predicate Keeps(p: Parser, q: Parser) {
    0 <= Finished(p) <= Finished(q) && q.items[..Finished(p)] == p.items[..Finished(p)]
  }

  lemma InStepBefore(p: Parser, q: Parser, items: seq<FormItem>)
    requires Keeps(p, q)
    ensures InStep(q, items) ==> InStep(p, items)
  {
    var m := Finished(p);
    assert InStep(q, items) ==> q.items[..m] == q.items[..Finished(q)][..m] == items[..m];
  }

  lemma {:induction false} HeaderTurnKeeps(p: Parser)
    requires p.state == Headers
    ensures var t := HeaderTurn(p); Keeps(p, t.p) && t.p.state in {Headers, Body}
    decreases |p.pending|
  {
    hide Seek, TakeHeader, HeaderTurn;
    HeaderTurnIs(p);
    var pos := Seek(p.pending, CRLF);
    if 0 < pos < |p.pending| {
      HeaderTurnKeeps(p.(file := TakeHeader(p.file, p.pending[..pos]).0, pending := p.pending[pos + |CRLF|..]));
    }
  }

  lemma StepKeepsOut(p: Parser, items: seq<FormItem>, boundary: string)
    requires Out(p, items) && p.pending != []
    ensures Out(Step(p, boundary).p, items)
  {
    hide Seek, HeaderTurn, TakeHeader, InStep, DashBoundaryCrlf, CrlfDashBoundary;
    if p.state == Headers {
      HeaderTurnKeeps(p);
    }
    InStepBefore(p, Step(p, boundary).p, items);
  }

  // ---------------------------------------------------------------- one turn in each state

  lemma {:induction false} HeaderBehind(p: Parser, u: string, items: seq<FormItem>, boundary: string)
    requires p.state == Headers && Behind(p, p.pending + u, items, boundary)
    ensures LostTurn(HeaderTurn(p), u, items, boundary)
    decreases |p.pending|
  {
    hide Seek, TakeHeader, HeaderTurn, Rest, CrlfDashBoundary;
    HeaderTurnIs(p);
    var pos := Seek(p.pending, CRLF);
    if pos < |p.pending| {
      var r := p.pending + u;
      assert r == p.pending[..pos + 2] + (p.pending[pos + 2..] + u);
      SuffixOfSum(p.pending[..pos + 2], p.pending[pos + 2..] + u, Rest(items[Finished(p)..], boundary));
      if pos == 0 {
        var q := p.(pending := p.pending[2..], state := Body, items := p.items + [p.file]);
        assert [] + (q.pending + u) == q.pending + u;
        assert CRLF + (q.pending + u) == r;
      } else {
        TakeHeaderKeepsContent(p.file, p.pending[..pos]);
        var q := p.(file := TakeHeader(p.file, p.pending[..pos]).0, pending := p.pending[pos + 2..]);
        HeaderBehind(q, u, items, boundary);
      }
    }
  }

  lemma SuffixOfSuffix(r: string, s: string, t: string)
    requires Suffix(r, t) && Suffix(s, t) && |r| <= |s|
    ensures Suffix(r, s)
  {
    assert s[|s| - |r|..] == t[|t| - |s|..][|s| - |r|..] == t[|t| - |r|..];
  }

  lemma RestSuffix(item: FormItem, todo: seq<FormItem>, boundary: string)
    ensures todo != [] ==> Suffix(Rest(todo, boundary), Rest([item] + todo, boundary))
    ensures Suffix(DASH + CRLF, Rest([item], boundary))
  {
    hide Rest, Head, After, Form, CrlfDashBoundary;
    var d := CrlfDashBoundary(boundary);
    RestIs([item], boundary);
    AfterIs([item], boundary);
    assert [item][1..] == [];
    if todo != [] {
      RestIs([item] + todo, boundary);
      RestIs(todo, boundary);
      AfterIs(todo, boundary);
      assert ([item] + todo)[1..] == todo;
      var before, rest := item.content + d + (CRLF + Head(todo[0])), Rest(todo, boundary);
      assert Rest([item] + todo, boundary) == before + rest;
      assert (before + rest)[|before|..] == rest;
    }
  }

  lemma OccursInSuffix(b: string, t: string, d: string, i: nat)
    requires Suffix(b, t)
    ensures Occurs(t, d, |t| - |b| + i) <==> Occurs(b, d, i)
  {
    OccursBehind(t[..|t| - |b|], b, d, i);
    assert t == t[..|t| - |b|] + b;
  }

  /** A content that began too late and is as long as the one due ends at the end of a later one: there is one, and the
      parser is behind again. */
  lemma StillBehind(item: FormItem, todo: seq<FormItem>, b: string, boundary: string)
    requires SafeItems(todo, boundary) && GoodBoundary(boundary)
    requires Suffix(CRLF + b, Rest([item] + todo, boundary))
    requires Occurs(b, CrlfDashBoundary(boundary), |item.content|)
    ensures todo != []
    ensures
      var r := b[|item.content| + |CrlfDashBoundary(boundary)|..];
      && LineBehind(r, Rest(todo, boundary))
      && (|todo| == 1 ==> |todo[0].content| >= 3 || Suffix(r, DASH + CRLF))
  {
    hide Rest, CrlfDashBoundary;
    var d, all := CrlfDashBoundary(boundary), Rest([item] + todo, boundary);
    SuffixOfSum(CRLF, b, all);
    var i := |all| - |b| + |item.content|;
    OccursInSuffix(b, all, d, |item.content|);
    assert [item] + [] == [item];
    if todo == [] {
      NoneBehindLast(item, boundary, i);
    } else {
      NextDelimiter(item, todo, boundary, i);
      RestSuffix(item, todo, boundary);
      var r := b[|item.content| + |d|..];
      assert b == b[..|item.content| + |d|] + r;
      SuffixOfSum(b[..|item.content| + |d|], r, all);
      SuffixOfSuffix(r, Rest(todo, boundary), all);
      if |todo| == 1 {
        assert todo == [todo[0]] && [item] + todo == [item, todo[0]];
        RestSuffix(todo[0], [], boundary);
        if |todo[0].content| <= 2 {
          LastDelimiter(item, todo[0], boundary, i);
          SuffixOfSuffix(r, DASH + CRLF, Rest(todo, boundary));
        }
      }
    }
  }

  lemma NoneInMore(e: string, r: string, d: string, j: nat)
    requires j <= |r|
    requires (forall i: nat | i < |e| :: !Occurs(e + r, d, i)) && (forall i: nat | i < j :: !Occurs(r, d, i))
    ensures e + r[..j] + r[j..] == e + r && forall i: nat | i < |e + r[..j]| :: !Occurs(e + r, d, i)
  {
    forall i: nat | |e| <= i < |e| + j ensures !Occurs(e + r, d, i) {
      OccursBehind(e, r, d, i - |e|);
    }
  }

  lemma DropPastFirst(e: string, r: string, n: nat)
    requires n <= |r|
    ensures (e + r)[|e| + n..] == r[n..]
  {
  }

  lemma PassedBehind(p: Parser, u: string, q: Parser, items: seq<FormItem>, boundary: string)
    requires SafeItems(items, boundary) && GoodBoundary(boundary)
    requires p.state == Body && Behind(p, p.pending + u, items, boundary)
    requires Passed(p, p.pending + u, CrlfDashBoundary(boundary), q, u)
    ensures Lost(q, q.pending + u, items, boundary)
  {
    hide Seek, Rest, CrlfDashBoundary, AddContent, SafeItem, LineBehind;
    var r, d, m := p.pending + u, CrlfDashBoundary(boundary), Finished(p);
    var k, e := Seek(r, d), p.items[m].content;
    ContentGrows(p.items, r[..k]);
    if q.items[m] == items[m] {
      var item, todo, b := items[m], items[m + 1..], e + r;
      assert [item] + todo == items[m..];
      OccursBehind(e, r, d, k);
      assert |item.content| == |e| + k && k + |d| <= |r|;
      SafeRest(items, m + 1, boundary);
      StillBehind(item, todo, b, boundary);
      DropPastFirst(e, r, k + |d|);
      assert q.items[..m + 1] == items[..m + 1];
    } else {
      OutAt(q, items, m);
    }
  }

  lemma SafeRest(items: seq<FormItem>, k: nat, boundary: string)
    requires SafeItems(items, boundary) && k <= |items|
    ensures SafeItems(items[k..], boundary)
  {
    hide SafeItem;
  }

  lemma KeptBehind(p: Parser, u: string, q: Parser, j: nat, items: seq<FormItem>, boundary: string)
    requires p.state == Body && Behind(p, p.pending + u, items, boundary)
    requires Kept(p, p.pending + u, CrlfDashBoundary(boundary), q, u, j)
    requires |q.pending| >= |CrlfDashBoundary(boundary)| || q == p
    ensures Lost(q, q.pending + u, items, boundary)
  {
    hide Seek, Rest, CrlfDashBoundary, AddContent, Occurs;
    if q != p {
      var r, e := p.pending + u, p.items[|p.items| - 1].content;
      NoneInMore(e, r, CrlfDashBoundary(boundary), j);
      ContentGrows(p.items, r[..j]);
    }
  }

  lemma BodyBehindTurn(p: Parser, u: string, items: seq<FormItem>, boundary: string)
    requires SafeItems(items, boundary) && GoodBoundary(boundary)
    requires p.state == Body && p.pending != [] && Behind(p, p.pending + u, items, boundary)
    ensures LostTurn(BodyTurn(p, boundary), u, items, boundary)
  {
    hide Passed, Kept, BodyBehind, BodyTurn, SafeItem, CrlfDashBoundary, Lost;
    BodyTurnExtracts(p, u, boundary);
    var turn := BodyTurn(p, boundary);
    if turn.Stop? {
      HeldBack(p, boundary);
      KeptBehind(p, u, turn.p, Released(p.pending, CrlfDashBoundary(boundary)), items, boundary);
    } else {
      PassedBehind(p, u, turn.p, items, boundary);
    }
  }

  lemma ContentGrows(items: seq<FormItem>, data: string)
    requires items != []
    ensures
      var n, more := |items| - 1, AddContent(items, data);
      more[n].content == items[n].content + data && more[..n] == items[..n]
  {
  }

  lemma HeldBack(p: Parser, boundary: string)
    requires p.state == Body && p.items != []
    ensures
      var d, t := CrlfDashBoundary(boundary), BodyTurn(p, boundary);
      t.Stop? ==> |t.p.pending| >= |d| || t.p == p
  {
    hide Seek, AddContent;
  }

  lemma OutAt(q: Parser, items: seq<FormItem>, k: nat)
    requires k < Finished(q) && k < |items| && q.items[k] != items[k]
    ensures Out(q, items)
  {
    var m := Finished(q);
    if m <= |items| {
      assert q.items[..m][k] == q.items[k] && items[..m][k] == items[k];
    }
  }

  lemma BoundaryTurnIs(p: Parser, u: string)
    requires p.state == Boundary
    ensures
      var t := BoundaryTurn(p);
      var r := t.p.pending + u;
      && |t.p.pending| <= |p.pending| && p.pending + u == p.pending[..|p.pending| - |t.p.pending|] + r
      && t.p == p.(state := t.p.state, valid := t.p.valid, pending := t.p.pending)
      && (t.p.state == Boundary || (t.p.state == NewEntry && CRLF <= p.pending && r == (p.pending + u)[2..]))
  {
  }

  lemma BoundaryBehindTurn(p: Parser, u: string, items: seq<FormItem>, boundary: string)
    requires p.state == Boundary && Behind(p, p.pending + u, items, boundary)
    ensures LostTurn(BoundaryTurn(p), u, items, boundary)
  {
    hide Rest, BoundaryTurn, Suffix, BodyBehind;
    var due, q := Rest(items[Finished(p)..], boundary), BoundaryTurn(p).p;
    BoundaryTurnIs(p, u);
    SuffixOfSum(p.pending[..|p.pending| - |q.pending|], q.pending + u, due);
    if Suffix(p.pending + u, DASH + CRLF) {
      LateTurn(p, u);
    }
  }

  lemma LateTurn(p: Parser, u: string)
    requires p.state == Boundary && Suffix(p.pending + u, DASH + CRLF)
    ensures TooLate(BoundaryTurn(p).p, BoundaryTurn(p).p.pending + u)
  {
    hide BoundaryTurn;
    BoundaryTurnIs(p, u);
    var r, q := p.pending + u, BoundaryTurn(p).p;
    SuffixOfSum(p.pending[..|p.pending| - |q.pending|], q.pending + u, DASH + CRLF);
    if CRLF <= p.pending {
      assert r[0] == CRLF[0] && r[0] == (DASH + CRLF)[4 - |r|];
    }
  }

  lemma EntryBehindTurn(p: Parser, u: string, items: seq<FormItem>, boundary: string)
    requires p.state == NewEntry && p.pending != [] && Behind(p, p.pending + u, items, boundary)
    ensures LostTurn(Step(p, boundary), u, items, boundary)
  {
    hide Rest, LineBehind;
  }

  /** Every turn of a parser that lost the first delimiter line leaves it behind or with an item out of place. */
  lemma StepBehind(p: Parser, u: string, items: seq<FormItem>, boundary: string)
    requires SafeItems(items, boundary) && GoodBoundary(boundary)
    requires p.pending != [] && Lost(p, p.pending + u, items, boundary)
    ensures LostTurn(Step(p, boundary), u, items, boundary)
  {
    hide Seek, SafeItems, HeaderTurn, BodyTurn, BoundaryTurn, Rest, Out, BodyBehind, LineBehind, InStep;
    if Out(p, items) {
      StepKeepsOut(p, items, boundary);
    } else {
      match p.state {
        case Preamble =>
        case NewEntry => EntryBehindTurn(p, u, items, boundary);
        case Headers => HeaderBehind(p, u, items, boundary);
        case Body => BodyBehindTurn(p, u, items, boundary);
        case Boundary => BoundaryBehindTurn(p, u, items, boundary);
      }
    }
  }

  lemma {:induction false} LoopBehind(p: Parser, u: string, items: seq<FormItem>, boundary: string)
    requires SafeItems(items, boundary) && GoodBoundary(boundary) && Lost(p, p.pending + u, items, boundary)
    ensures var (q, ok) := Loop(p, boundary); ok ==> Lost(q, q.pending + u, items, boundary)
    decreases |p.pending|, p.state.NewEntry?
  {
    hide SafeItems, Lost, Step, GoodBoundary;
    if p.pending != [] {
      StepBehind(p, u, items, boundary);
      StepShrinks(p, boundary);
      var t := Step(p, boundary);
      if t.More? {
        LoopBehind(t.p, u, items, boundary);
      }
    }
  }

  lemma StepShrinks(p: Parser, boundary: string)
    requires p.pending != []
    ensures
      var t := Step(p, boundary);
      t.More? ==> |t.p.pending| < |p.pending| || (t.p.pending == p.pending && p.state.NewEntry? && !t.p.state.NewEntry?)
  {
    hide Step;
  }

  /** A content that the input ends in is not the last item's, if it is one that begins with a delimiter line. */
  lemma EndsWrong(last: FormItem, e: string, r: string, boundary: string)
    requires GoodBoundary(boundary) && |last.content| >= 3 && |r| >= |CrlfDashBoundary(boundary)|
    requires Suffix(CRLF + (e + r), Rest([last], boundary))
    requires forall i: nat | i < |e| :: !Occurs(e + r, CrlfDashBoundary(boundary), i)
    ensures e != last.content
  {
    hide Rest, CrlfDashBoundary, Occurs, Suffix;
    var d, c := CrlfDashBoundary(boundary), last.content;
    RestIs([last], boundary);
    AfterIs([last], boundary);
    assert [last][1..] == [];
    DelimiterChars(boundary);
    EndIsShort(c, d, e, r, c + d + (DASH + CRLF));
  }

  lemma EndIsShort(c: string, d: string, e: string, r: string, all: string)
    requires all == c + d + (DASH + CRLF) && |c| >= 3 && |r| >= |d| >= 5 && d[0] == '\r'
    requires Suffix(CRLF + (e + r), all) && forall i: nat | i < |e| :: !Occurs(e + r, d, i)
    ensures |e| < |c|
  {
    hide Occurs;
    SuffixOfSum(CRLF, e + r, all);
    var o := |all| - |e + r|;
    if o <= |c| {
      SeekAt(c, d, DASH + CRLF);
      OccursInSuffix(e + r, all, d, |c| - o);
    } else {
      assert all[o - 2..][1] == (CRLF + (e + r))[1] == '\n';
      assert all[|c|] == d[0];
    }
  }

  lemma SeekAt(c: string, d: string, rest: string)
    ensures Occurs(c + d + rest, d, |c|)
  {
    assert (c + d + rest)[|c|..|c| + |d|] == d;
  }

  lemma EndBehind(p: Parser, items: seq<FormItem>, boundary: string)
    requires GoodBoundary(boundary) && Lost(p, p.pending, items, boundary)
    ensures !(p.valid && p.items == items)
  {
    hide Rest, CrlfDashBoundary, Occurs;
    if Behind(p, p.pending, items, boundary) && p.state == Body && p.valid && Finished(p) == |items| - 1 {
      var m := |items| - 1;
      assert items[m..] == [items[m]];
      if p.items[m].content != [] {
        EndsWrong(items[m], p.items[m].content, p.pending, boundary);
      }
    }
  }

  lemma {:induction false} FeedAllBehind(p: Parser, pieces: seq<string>, items: seq<FormItem>, boundary: string)
    requires SafeItems(items, boundary) && GoodBoundary(boundary) && Lost(p, p.pending + Join(pieces), items, boundary)
    ensures var (q, ok) := FeedAll(p, boundary, pieces); !(ok && q.valid && q.items == items)
    decreases |pieces|
  {
    hide SafeItems, Lost, Loop, GoodBoundary;
    if pieces == [] {
      assert p.pending + Join(pieces) == p.pending;
      EndBehind(p, items, boundary);
    } else {
      var u, fed := Join(pieces[1..]), p.(pending := p.pending + pieces[0]);
      assert p.pending + Join(pieces) == fed.pending + u;
      SameLost(p, fed, fed.pending + u, items, boundary);
      LoopBehind(fed, u, items, boundary);
      var (q, ok) := Loop(fed, boundary);
      if ok {
        FeedAllBehind(q, pieces[1..], items, boundary);
      }
    }
  }

  lemma SameLost(p: Parser, fed: Parser, r: string, items: seq<FormItem>, boundary: string)
    requires Lost(p, r, items, boundary) && fed == p.(pending := fed.pending) && |p.pending| <= |fed.pending|
    ensures Lost(fed, r, items, boundary)
  {
    hide Rest;
  }

  // ---------------------------------------------------------------- where a lost parser starts

  lemma LineChars(boundary: string)
    requires GoodBoundary(boundary)
    ensures
      var d := DashBoundaryCrlf(boundary);
      && |d| >= 5 && d[0] == '-' && d[1] == '-' && d[|d| - 2] == '\r' && d[|d| - 1] == '\n'
      && forall j | 0 <= j < |d| - 2 :: d[j] != '\r'
  {
  }

  /** In a line and its end, nothing but the end is one. */
  lemma EndOfLine(pre: string, h: string, rest: string, i: nat)
    requires |pre| >= 2 && pre[|pre| - 1] == '\n' && PlainLine(h) && |pre| < i <= |pre| + |h| + 2
    requires var all := pre + h + CRLF + rest; all[i - 2] == '\r' && all[i - 1] == '\n'
    ensures i == |pre| + |h| + 2
  {
    var all := pre + h + CRLF + rest;
    assert all[|pre| - 1] == '\n' && all[|pre| + |h|] == '\r';
    assert forall j | |pre| <= j < |pre| + |h| :: all[j] == h[j - |pre|] && h[j - |pre|] in h;
  }

  lemma LinesBehind(pre: string, hs: seq<string>, rest: string)
    ensures hs == [] ==> JoinLines(hs) == []
    ensures hs != [] ==> pre + (JoinLines(hs) + CRLF) == (pre + hs[0] + CRLF) + (JoinLines(hs[1..]) + CRLF)
    ensures hs != [] ==>
              pre + (JoinLines(hs) + CRLF + rest) == (pre + hs[0] + CRLF) + (JoinLines(hs[1..]) + CRLF + rest)
  {
    hide JoinLines;
    JoinIs(hs);
    if hs != [] {
      Regrouped(pre, hs[0], CRLF, JoinLines(hs[1..]), rest);
    }
  }

  lemma JoinIs(hs: seq<string>)
    ensures JoinLines(hs) == if hs == [] then [] else hs[0] + CRLF + JoinLines(hs[1..])
  {
  }

  lemma Regrouped(a: string, b: string, c: string, d: string, e: string)
    ensures a + (b + c + d + c) == (a + b + c) + (d + c)
    ensures a + (b + c + d + c + e) == (a + b + c) + (d + c + e)
  {
    assert a + (b + c + d + c) == (a + b + c) + (d + c);
    assert a + (b + c + d + c + e) == (a + (b + c + d + c)) + e;
  }

  lemma EndsInCrlf(all: string, boundary: string, i: nat)
    requires GoodBoundary(boundary) && Occurs(all, DashBoundaryCrlf(boundary), i)
    ensures
      var end := i + |DashBoundaryCrlf(boundary)|;
      5 <= end <= |all| && all[end - 2] == '\r' && all[end - 1] == '\n' && all[end - 4] != '\r'
  {
    hide DashBoundaryCrlf;
    var d := DashBoundaryCrlf(boundary);
    LineChars(boundary);
    assert all[i..i + |d|] == d;
    assert all[i..i + |d|][|d| - 4] == d[|d| - 4];
    assert all[i..i + |d|][|d| - 2] == '\r' && all[i..i + |d|][|d| - 1] == '\n';
  }

  /** A delimiter line that ends in the header lines of an item ends at the end of one of them. */
  lemma {:induction false} EndsAtLine(pre: string, hs: seq<string>, rest: string, boundary: string, i: nat)
    returns (k: nat)
    requires GoodBoundary(boundary) && forall j | 0 <= j < |hs| :: PlainLine(hs[j])
    requires |pre| >= 2 && pre[|pre| - 2] == '\r' && pre[|pre| - 1] == '\n'
    requires Occurs(pre + (JoinLines(hs) + CRLF + rest), DashBoundaryCrlf(boundary), i)
    requires |pre| < i + |DashBoundaryCrlf(boundary)| <= |pre + (JoinLines(hs) + CRLF)|
    ensures 0 < k <= |hs|
    ensures
      var all := pre + (JoinLines(hs) + CRLF + rest);
      all[i + |DashBoundaryCrlf(boundary)|..] == JoinLines(hs[k..]) + CRLF + rest
    ensures k == 1 ==> i + |DashBoundaryCrlf(boundary)| == |pre| + |hs[0]| + 2
    decreases |hs|
  {
    hide DashBoundaryCrlf, PlainLine, GoodBoundary, Occurs, JoinLines;
    var all, end := pre + (JoinLines(hs) + CRLF + rest), i + |DashBoundaryCrlf(boundary)|;
    EndsInCrlf(all, boundary, i);
    LinesBehind(pre, hs, rest);
    if hs != [] {
      var h, later := hs[0], hs[1..];
      var next, tail := pre + h + CRLF, JoinLines(later) + CRLF + rest;
      if end > |next| {
        k := EndsAtLine(next, later, rest, boundary, i);
        k := k + 1;
        assert hs[k..] == later[k - 1..];
      } else {
        k := 1;
        EndOfLine(pre, h, tail, end);
        assert all[|next|..] == tail;
      }
    }
  }

  /** The item that is read if only the header lines hs, a proper rest of the item's, are. */
  function Headless(item: FormItem, hs: seq<string>): FormItem {
    item.(name := "", filename := "", contentType := if hs == [] then "" else item.contentType)
  }

  predicate Beheaded(item: FormItem, hs: seq<string>) {
    && (hs == [] || (item.contentType != [] && hs == [TypeLine(item)]))
    && Headless(item, hs) != item
  }

  lemma DashesApart(a: string, b: string, c: string, e: string, k: nat)
    requires '-' !in a && '-' !in b && '-' !in c && '-' !in e && b != [] && k + 1 < |a + "-" + b + "-" + c + e|
    ensures var line := a + "-" + b + "-" + c + e; !(line[k] == '-' == line[k + 1])
  {
    var line, rest := a + "-" + b + "-" + c + e, c + e;
    assert '-' !in rest;
    assert line == a + ['-'] + b + ['-'] + rest;
    assert line[|a| + 1] in b;
    if k < |a| {
      assert line[k] in a;
    } else if |a| < k < |a| + 1 + |b| {
      assert line[k] in b;
    } else if k > |a| + 1 + |b| {
      assert line[k] in rest;
    } else if k == |a| + 1 + |b| {
      assert line[k + 1] in rest;
    }
  }

  lemma LabelParts()
    ensures "Content-Disposition: form-data; " == "Content" + "-" + "Disposition: form" + "-" + "data; "
  {
  }

  lemma PartsWithoutDash(text: string)
    requires text == "name=\"\""
    ensures '-' !in "Content" && '-' !in "Disposition: form" && '-' !in "data; " && '-' !in text
  {
  }

  lemma EmptyNames(item: FormItem)
    requires item.name == "" == item.filename
    ensures DispositionText(item) == "name=\"\""
    ensures DispositionLine(item) == "Content-Disposition: form-data; " + DispositionText(item)
  {
  }

  lemma NoDashes(item: FormItem, k: nat)
    requires item.name == "" == item.filename && k + 1 < |DispositionLine(item)|
    ensures !(DispositionLine(item)[k] == '-' == DispositionLine(item)[k + 1])
  {
    hide DispositionLine, DispositionText;
    EmptyNames(item);
    LabelParts();
    PartsWithoutDash(DispositionText(item));
    DashesApart("Content", "Disposition: form", "data; ", DispositionText(item), k);
  }

  /** The delimiter line found later ends behind the first head, or it cuts off the first header line at least. */
  lemma StartsBehind(items: seq<FormItem>, boundary: string, i: nat) returns (hs: seq<string>)
    requires items != [] && SafeItems(items, boundary) && GoodBoundary(boundary)
    requires i > 0 && Occurs(DashBoundaryCrlf(boundary) + Form(items, boundary), DashBoundaryCrlf(boundary), i)
    ensures
      var all, rest := DashBoundaryCrlf(boundary) + Form(items, boundary), Rest(items, boundary);
      var r := all[i + |DashBoundaryCrlf(boundary)|..];
      LineBehind(r, rest) || (Beheaded(items[0], hs) && r == JoinLines(hs) + CRLF + rest)
  {
    hide Rest, Head, After, Form, HeaderLines, DashBoundaryCrlf, JoinLines, DispositionLine, TypeLine, PlainLine;
    var d, rest, item := DashBoundaryCrlf(boundary), Rest(items, boundary), items[0];
    var all := d + Form(items, boundary);
    RestIs(items, boundary);
    HeadIsLines(item);
    SafeOne(items, 0, boundary);
    LinesArePlain(item);
    LineChars(boundary);
    var lines := HeaderLines(item);
    assert all == d + (JoinLines(lines) + CRLF + rest);
    hs := [];
    if i + |d| > |d + (JoinLines(lines) + CRLF)| {
      var r := all[i + |d|..];
      assert all == all[..i + |d|] + r;
      assert Suffix(rest, all);
      SuffixOfSuffix(r, rest, all);
    } else {
      var k := EndsAtLine(d, lines, rest, boundary, i);
      hs := lines[k..];
      TwoLines(item);
      if k == 1 {
        CutFirstLine(item, rest, boundary, i);
      }
    }
  }

  lemma CutFirstLine(item: FormItem, rest: string, boundary: string, i: nat)
    requires GoodBoundary(boundary)
    requires var d := DashBoundaryCrlf(boundary); Occurs(d + (JoinLines(HeaderLines(item)) + CRLF + rest), d, i)
    requires i == |DispositionLine(item)| + 2
    ensures item.name != "" || item.filename != ""
  {
    hide DashBoundaryCrlf, JoinLines, HeaderLines, DispositionLine, Occurs;
    var d, h := DashBoundaryCrlf(boundary), DispositionLine(item);
    LineChars(boundary);
    TwoLines(item);
    var hs := HeaderLines(item)[1..];
    JoinOne(h, hs);
    assert HeaderLines(item) == [h] + hs;
    assert d + (JoinLines(HeaderLines(item)) + CRLF + rest) == d + h + (CRLF + JoinLines(hs) + CRLF + rest);
    DashesInLine(d, h, CRLF + JoinLines(hs) + CRLF + rest, i);
    if item.name == "" == item.filename {
      NoDashes(item, i - |d|);
    }
  }

  lemma SafeOne(items: seq<FormItem>, k: nat, boundary: string)
    requires SafeItems(items, boundary) && k < |items|
    ensures SafeItem(items[k], boundary)
    ensures SafeName(items[k].name) && SafeName(items[k].filename) && SafeType(items[k].contentType)
  {
  }

  lemma TwoLines(item: FormItem)
    ensures HeaderLines(item)[0] == DispositionLine(item)
    ensures HeaderLines(item)[1..] == if item.contentType == [] then [] else [TypeLine(item)]
    ensures |HeaderLines(item)| == if item.contentType == [] then 1 else 2
  {
    hide DispositionLine, TypeLine;
  }

  lemma DashesInLine(d: string, h: string, rest: string, i: nat)
    requires |d| >= 5 && d[0] == '-' && d[1] == '-' && d[|d| - 2] == '\r' && d[|d| - 1] == '\n'
    requires forall j | 0 <= j < |d| - 2 :: d[j] != '\r'
    requires Occurs(d + h + rest, d, i) && i == |h| + 2
    ensures i >= |d| && i - |d| + 1 < |h| && h[i - |d|] == '-' == h[i - |d| + 1]
  {
    var all := d + h + rest;
    assert all[i..i + |d|] == d;
    assert all[i] == '-' && all[i + 1] == '-';
    assert all[|d| - 1] == '\n' && all[|d| - 2] == '\r';
    assert forall j | i <= j < i + |d| - 2 :: all[j] == d[j - i];
  }

  // ---------------------------------------------------------------- the exact condition

  /** The body was parsed and gave the items. */
  ghost predicate Accepted(boundary: string, pieces: seq<string>, items: seq<FormItem>) {
    var (q, ok) := FeedAll(INITIAL, boundary, pieces);
    ok && q.valid && q.items == items
  }

  const STARTED := INITIAL.(state := NewEntry)

  /** The first bytes of a body that reach the parser. */
  function FirstBytes(pieces: seq<string>): string {
    if pieces == [] then [] else if pieces[0] != [] then pieces[0] else FirstBytes(pieces[1..])
  }

  lemma {:induction false} EntryIsHeaders(boundary: string, pieces: seq<string>)
    requires Join(pieces) != []
    ensures FeedAll(STARTED, boundary, pieces) == FeedAll(STARTED.(state := Headers), boundary, pieces)
    decreases |pieces|
  {
    hide HeadersTurn, BodyTurn, BoundaryTurn, PreambleTurn;
    assert [] + pieces[0] == pieces[0];
    if pieces[0] == [] {
      EntryIsHeaders(boundary, pieces[1..]);
    }
  }

  lemma {:induction false} HeadlessLines(item: FormItem, hs: seq<string>, boundary: string)
    requires SafeItem(item, boundary) && Beheaded(item, hs)
    ensures SafeItem(Headless(item, hs), boundary)
    ensures ReadLines(CLEARED, hs) == (Headless(item, hs).(content := ""), true)
    ensures forall i | 0 <= i < |hs| :: GoodLine(hs[i])
  {
    hide DispositionLine, TypeLine, TakeHeader, Occurs;
    var fake := Headless(item, hs);
    DispositionHasNoCr(item);
    TwoLines(item);
    TwoLines(fake);
    SameTypeLine(item, fake);
    if hs != [] {
      assert HeaderLines(item)[1] == TypeLine(item);
      TypeLineRead(CLEARED, item);
      assert hs == [TypeLine(item)] + [];
      ReadOne(CLEARED, TypeLine(item), []);
    }
  }

  lemma SameTypeLine(item: FormItem, fake: FormItem)
    requires fake.name == "" == fake.filename
    ensures |DispositionLine(fake)| < HEADER_MAX_LENGTH
    ensures fake.contentType == item.contentType ==> TypeLine(fake) == TypeLine(item)
  {
  }

  lemma BeheadedIsRead(items: seq<FormItem>, hs: seq<string>, boundary: string, pieces: seq<string>)
    requires items != [] && SafeItems(items, boundary) && Beheaded(items[0], hs)
    requires Join(pieces) == JoinLines(hs) + CRLF + Rest(items, boundary)
    ensures var (q, ok) := FeedAll(STARTED, boundary, pieces); q.items != items
  {
    hide FeedAll, After, SafeItem, JoinLines, ReadLines, Headless, Beheaded;
    var fake := Headless(items[0], hs);
    var all := [fake] + items[1..];
    EntryIsHeaders(boundary, pieces);
    SafeOne(items, 0, boundary);
    HeadlessLines(items[0], hs, boundary);
    assert fake.content == items[0].content && fake != items[0] by { SameContent(items[0], hs); }
    assert all[0] == fake && all[1..] == items[1..];
    assert [] + all == all && [] + Join(pieces) == Join(pieces);
    FeedAllLeads(STARTED.(state := Headers), pieces, Lines(hs, all), all, boundary);
  }

  lemma SameContent(item: FormItem, hs: seq<string>)
    requires Beheaded(item, hs)
    ensures Headless(item, hs).content == item.content && Headless(item, hs) != item
  {
  }

  /** A delimiter line found behind the first one starts a parse that does not give the items. */
  lemma WrongStart(items: seq<FormItem>, boundary: string, i: nat, pieces: seq<string>)
    requires items != [] && SafeItems(items, boundary) && GoodBoundary(boundary)
    requires i > 0 && Occurs(DashBoundaryCrlf(boundary) + Form(items, boundary), DashBoundaryCrlf(boundary), i)
    requires Join(pieces) == (DashBoundaryCrlf(boundary) + Form(items, boundary))[i + |DashBoundaryCrlf(boundary)|..]
    ensures var (q, ok) := FeedAll(STARTED, boundary, pieces); !(ok && q.valid && q.items == items)
  {
    hide FeedAll, SafeItems, Form, DashBoundaryCrlf, Rest, LineBehind, Beheaded, GoodBoundary;
    var hs := StartsBehind(items, boundary, i);
    if LineBehind(Join(pieces), Rest(items, boundary)) {
      assert items[0..] == items && [] + Join(pieces) == Join(pieces);
      FeedAllBehind(STARTED, pieces, items, boundary);
    } else {
      BeheadedIsRead(items, hs, boundary, pieces);
    }
  }

  lemma NothingFound(boundary: string, piece: string)
    requires Seek(piece, DashBoundaryCrlf(boundary)) == |piece|
    ensures Feed(INITIAL, boundary, piece) == (INITIAL, true)
  {
    hide Seek, DashBoundaryCrlf, HeadersTurn, BodyTurn, BoundaryTurn, PreambleTurn;
    assert [] + piece == piece;
    NothingTurn(INITIAL.(pending := piece), boundary);
  }

  lemma NothingTurn(p: Parser, boundary: string)
    requires Seek(p.pending, DashBoundaryCrlf(boundary)) == |p.pending|
    ensures PreambleTurn(p, boundary) == Stop(p.(pending := []), true)
  {
    hide Seek, DashBoundaryCrlf;
    assert p.pending[|p.pending|..] == [];
  }

  lemma FoundStarts(boundary: string, piece: string, later: seq<string>)
    requires Seek(piece, DashBoundaryCrlf(boundary)) < |piece|
    ensures
      var at := Seek(piece, DashBoundaryCrlf(boundary)) + |DashBoundaryCrlf(boundary)|;
      at <= |piece| && FeedAll(INITIAL, boundary, [piece] + later) == FeedAll(STARTED, boundary, [piece[at..]] + later)
  {
    hide Seek, DashBoundaryCrlf, Loop, FeedAll;
    Resumes(boundary, piece);
    var at := Seek(piece, DashBoundaryCrlf(boundary)) + |DashBoundaryCrlf(boundary)|;
    assert [] + piece[at..] == piece[at..];
    FeedTwo(INITIAL, boundary, piece, later);
    FeedTwo(STARTED, boundary, piece[at..], later);
  }

  /** What a parser makes of a body without its first bytes. */
  lemma {:induction false} LostFirst(items: seq<FormItem>, boundary: string, z: nat, pieces: seq<string>)
    requires items != [] && SafeItems(items, boundary) && GoodBoundary(boundary)
    requires 0 < z <= |DashBoundaryCrlf(boundary) + Form(items, boundary)|
    requires Join(pieces) == (DashBoundaryCrlf(boundary) + Form(items, boundary))[z..]
    ensures !Accepted(boundary, pieces, items)
    decreases |pieces|
  {
    hide FeedAll, Feed, SafeItems, Form, DashBoundaryCrlf, Seek, GoodBoundary;
    var d, all := DashBoundaryCrlf(boundary), DashBoundaryCrlf(boundary) + Form(items, boundary);
    if pieces == [] {
      FeedNothing(boundary);
    } else {
      var a, later := pieces[0], pieces[1..];
      assert pieces == [a] + later;
      var k := Seek(a, d);
      if k < |a| {
        FoundStarts(boundary, a, later);
        OccursWithin(a, Join(later), d, k);
        OccursBehind(all[..z], a + Join(later), d, k);
        assert all == all[..z] + (a + Join(later));
        JoinFirst(a[k + |d|..], later);
        assert all[z + k + |d|..] == a[k + |d|..] + Join(later);
        WrongStart(items, boundary, z + k, [a[k + |d|..]] + later);
      } else {
        NothingFound(boundary, a);
        FeedTwo(INITIAL, boundary, a, later);
        assert Join(later) == all[z + |a|..];
        LostFirst(items, boundary, z + |a|, later);
      }
    }
  }

  lemma FeedNothing(boundary: string)
    ensures FeedAll(INITIAL, boundary, []) == (INITIAL, true)
  {
  }

  lemma JoinFirst(a: string, later: seq<string>)
    ensures Join([a] + later) == a + Join(later)
  {
  }

  lemma {:induction false} NothingFed(boundary: string, pieces: seq<string>)
    requires Join(pieces) == []
    ensures FeedAll(STARTED, boundary, pieces) == (STARTED, true)
    decreases |pieces|
  {
    if pieces != [] {
      assert pieces[0] == [];
      NothingFed(boundary, pieces[1..]);
    }
  }

  /** The last line of a body holds a delimiter line at its very end or not at all. */
  lemma NotInFinish(boundary: string, i: nat)
    requires GoodBoundary(boundary) && Occurs(Finish(boundary), DashBoundaryCrlf(boundary), i)
    ensures i + |DashBoundaryCrlf(boundary)| == |Finish(boundary)|
  {
    EndsInCrlf(Finish(boundary), boundary, i);
    var marked := DASH + boundary + DASH;
    assert Finish(boundary) == marked + CRLF && '\r' !in marked;
    assert forall j | 0 <= j < |marked| :: Finish(boundary)[j] == marked[j];
  }

  /** A body without items is not accepted. */
  lemma {:induction false} NoItems(boundary: string, z: nat, pieces: seq<string>)
    requires GoodBoundary(boundary) && z <= |Finish(boundary)| && Join(pieces) == Finish(boundary)[z..]
    ensures !FeedAll(INITIAL, boundary, pieces).0.valid
    decreases |pieces|
  {
    hide FeedAll, Feed, Finish, DashBoundaryCrlf, Seek, GoodBoundary;
    var d, all := DashBoundaryCrlf(boundary), Finish(boundary);
    if pieces == [] {
      FeedNothing(boundary);
    } else {
      var a, later := pieces[0], pieces[1..];
      assert pieces == [a] + later;
      var k := Seek(a, d);
      if k < |a| {
        FoundStarts(boundary, a, later);
        OccursWithin(a, Join(later), d, k);
        OccursBehind(all[..z], a + Join(later), d, k);
        assert all == all[..z] + (a + Join(later));
        NotInFinish(boundary, z + k);
        JoinFirst(a[k + |d|..], later);
        NothingFed(boundary, [a[k + |d|..]] + later);
      } else {
        NothingFound(boundary, a);
        FeedTwo(INITIAL, boundary, a, later);
        assert Join(later) == all[z + |a|..];
        NoItems(boundary, z + |a|, later);
      }
    }
  }

  /** A serialized body of safe items is accepted with exactly its items if and only if there are items and the first
      bytes that reach the parser hold the whole first delimiter line. */
  lemma {:induction false} AcceptedIsExact(items: seq<FormItem>, boundary: string, pieces: seq<string>)
    requires SafeItems(items, boundary) && boundary != []
    requires Join(pieces) == Serialized(items, boundary) + Finish(boundary)
    ensures Accepted(boundary, pieces, items) <==> items != [] && |FirstBytes(pieces)| >= |DashBoundaryCrlf(boundary)|
    decreases |pieces|
  {
    hide FeedAll, Feed, SafeItem, Form, Serialized, Finish, DashBoundaryCrlf;
    if items == [] {
      assert [] + Finish(boundary) == Finish(boundary) == Finish(boundary)[0..];
      NothingSerialized(boundary);
      NoItems(boundary, 0, pieces);
    } else if pieces != [] {
      SerializedIs(items, boundary);
      var a, later := pieces[0], pieces[1..];
      assert pieces == [a] + later;
      if a == [] {
        ShortFirstPieceIsLost(boundary, a, later);
        AcceptedIsExact(items, boundary, later);
      } else if |a| < |DashBoundaryCrlf(boundary)| {
        ShortFirstPieceIsLost(boundary, a, later);
        assert Join(later) == (a + Join(later))[|a|..];
        LostFirst(items, boundary, |a|, later);
      } else {
        RoundTrip(items, boundary, pieces);
      }
    } else {
      FeedNothing(boundary);
    }
  }

  lemma NothingSerialized(boundary: string)
    ensures Serialized([], boundary) == []
  {
  }
}
