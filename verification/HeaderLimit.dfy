/** The limit on header lines in state 2 of the multipart parser. It is tested once for each visit to the state, on the
    first line that is pending then, so whether a long line passes depends on how the bytes are split. */
module HeaderLimit {
  import opened HeaderFields
  import opened LineReader
  import opened MultipartModel
  import opened MultipartRoundTrip

  /** Header lines that are accepted one after the other, of whatever length. */
  predicate Accepted(file: FormItem, hs: seq<string>) {
    && (forall i | 0 <= i < |hs| :: hs[i] != [] && '\r' !in hs[i])
    && ReadLines(file, hs).1
  }

  predicate Short(hs: seq<string>) { forall i | 0 <= i < |hs| :: |hs[i]| < HEADER_MAX_LENGTH }

  /** The header lines and the empty line behind them pass, however they are split. */
  ghost predicate PassesEverySplit(p: Parser, boundary: string, hs: seq<string>) {
    forall pieces: seq<string> | Join(pieces) == JoinLines(hs) + CRLF :: FeedAll(p, boundary, pieces).1
  }

  // ---------------------------------------------------------------- short lines pass

  /** Either some lines are still to come, or the empty line has been read. */
  predicate Remains(p: Parser, u: string, hs: seq<string>) {
    p.state == Headers && Accepted(p.file, hs) && Short(hs) && p.pending + u == JoinLines(hs) + CRLF
  }

  predicate Through(p: Parser, u: string) { p.state == Body && p.pending == [] && u == [] }

  lemma {:induction false} ShortTurn(p: Parser, u: string, hs: seq<string>) returns (left: seq<string>)
    requires Remains(p, u, hs)
    ensures
      var t := HeaderTurn(p);
      if t.Stop? then t.ok && Remains(t.p, u, left) else Through(t.p, u)
    ensures Seek(p.pending, CRLF) <= HEADER_MAX_LENGTH
    decreases |hs|
  {
    hide Seek, TakeHeader, HeaderTurn, JoinLines, ReadLines;
    HeaderTurnIs(p);
    LinesText(hs, []);
    assert JoinLines(hs) + CRLF + [] == JoinLines(hs) + CRLF;
    left := hs;
    if hs == [] {
      SeekLine([], [], p.pending, u);
      assert p.pending == [] ==> Seek(p.pending, CRLF) == |p.pending|;
    } else {
      var h, later := hs[0], hs[1..];
      SeekLine(h, JoinLines(later) + CRLF + [], p.pending, u);
      ReadOne(p.file, h, later);
      assert [h] + later == hs;
      if |p.pending| >= |h| + 2 {
        var q := p.(file := TakeHeader(p.file, h).0, pending := p.pending[|h| + 2..]);
        assert JoinLines(later) + CRLF + [] == JoinLines(later) + CRLF;
        left := ShortTurn(q, u, later);
      }
    }
  }

  lemma ShortCall(p: Parser, boundary: string, u: string, hs: seq<string>) returns (left: seq<string>)
    requires Remains(p, u, hs)
    ensures
      var (q, ok) := Loop(p, boundary);
      ok && (Remains(q, u, left) || Through(q, u))
  {
    hide Seek, HeaderTurn, Remains;
    left := hs;
    if p.pending != [] {
      StateOf(p, u, hs);
      left := ShortTurn(p, u, hs);
      var t := HeaderTurn(p);
      if t.More? {
        NothingPending(t.p, boundary);
      }
    }
  }

  lemma StateOf(p: Parser, u: string, hs: seq<string>)
    requires Remains(p, u, hs)
    ensures p.state == Headers
  {
  }

  lemma NothingPending(p: Parser, boundary: string)
    requires p.pending == []
    ensures Loop(p, boundary) == (p, true)
  {
  }

  lemma ShortPiece(p: Parser, boundary: string, piece: string, u: string, hs: seq<string>) returns (left: seq<string>)
    requires Remains(p, piece + u, hs) || Through(p, piece + u)
    ensures
      var (q, ok) := Feed(p, boundary, piece);
      ok && (Remains(q, u, left) || Through(q, u))
  {
    hide Loop, JoinLines, Accepted;
    left := hs;
    if Through(p, piece + u) {
      assert |piece + u| == 0;
      assert p.(pending := p.pending + piece) == p;
      NothingPending(p, boundary);
    } else {
      assert (p.pending + piece) + u == p.pending + (piece + u);
      left := ShortCall(p.(pending := p.pending + piece), boundary, u, hs);
    }
  }

  lemma {:induction false} ShortPieces(p: Parser, boundary: string, pieces: seq<string>, hs: seq<string>)
    requires Remains(p, Join(pieces), hs) || Through(p, Join(pieces))
    ensures FeedAll(p, boundary, pieces).1
    decreases |pieces|
  {
    hide Feed, Remains, Through;
    if pieces != [] {
      var left := ShortPiece(p, boundary, pieces[0], Join(pieces[1..]), hs);
      ShortPieces(Feed(p, boundary, pieces[0]).0, boundary, pieces[1..], left);
    }
  }

  // ---------------------------------------------------------------- a long line can be refused

  /** A call that begins with a line of the limit or longer, and ends inside its line end, is refused. */
  lemma LongLineRefused(p: Parser, boundary: string, h: string)
    requires p.state == Headers && p.pending == [] && |h| >= HEADER_MAX_LENGTH && '\r' !in h
    ensures !Feed(p, boundary, h + "\r").1
  {
    hide Seek, HeaderTurn;
    assert [] + (h + "\r") == h + "\r";
    assert (h + "\r") + "\n" == h + CRLF + [];
    SeekLine(h, [], h + "\r", "\n");
  }

  /** Accepted short lines, arriving whole, leave the parser waiting for the next line. */
  lemma {:induction false} LinesRead(p: Parser, hs: seq<string>)
    requires p.state == Headers && Accepted(p.file, hs) && Short(hs) && p.pending == JoinLines(hs)
    ensures
      var t := HeaderTurn(p);
      t.Stop? && t.ok && t.p.state == Headers && t.p.pending == [] && t.p.file == ReadLines(p.file, hs).0
    ensures Seek(p.pending, CRLF) <= HEADER_MAX_LENGTH
    decreases |hs|
  {
    hide Seek, TakeHeader, HeaderTurn, JoinLines, ReadLines;
    HeaderTurnIs(p);
    LinesText(hs, []);
    NoLines(p.file);
    if hs == [] {
      SeekFails([], CRLF);
    } else {
      var h, later := hs[0], hs[1..];
      JoinOne(h, later);
      ReadOne(p.file, h, later);
      assert [h] + later == hs;
      assert p.pending + [] == h + CRLF + JoinLines(later);
      SeekLine(h, JoinLines(later), p.pending, []);
      var q := p.(file := TakeHeader(p.file, h).0, pending := p.pending[|h| + 2..]);
      assert q.pending + [] == q.pending;
      LinesRead(q, later);
    }
  }

  lemma NoLines(file: FormItem)
    ensures JoinLines([]) == [] && ReadLines(file, []) == (file, true)
  {
  }

  lemma {:induction false} JoinLinesAppend(a: seq<string>, b: seq<string>)
    ensures JoinLines(a + b) == JoinLines(a) + JoinLines(b)
  {
    if a == [] {
      assert a + b == b;
    } else {
      assert (a + b)[1..] == a[1..] + b;
      JoinLinesAppend(a[1..], b);
    }
  }

  lemma {:induction false} ReadLinesPrefix(file: FormItem, a: seq<string>, b: seq<string>)
    requires ReadLines(file, a + b).1
    ensures ReadLines(file, a).1
    decreases |a|
  {
    hide TakeHeader;
    if a != [] {
      assert (a + b)[1..] == a[1..] + b;
      ReadLinesPrefix(TakeHeader(file, a[0]).0, a[1..], b);
    }
  }

  /** The split that refuses: the lines before the first long one, that line and its CR, and the rest. */
  lemma LongLineSplit(p: Parser, boundary: string, hs: seq<string>, i: nat)
    requires p.state == Headers && p.pending == [] && Accepted(p.file, hs)
    requires i < |hs| && |hs[i]| >= HEADER_MAX_LENGTH && Short(hs[..i])
    ensures !PassesEverySplit(p, boundary, hs)
  {
    hide TakeHeader, HeaderTurn, Seek, ReadLines, Loop, JoinLines;
    var first, h, later := hs[..i], hs[i], hs[i + 1..];
    assert hs == first + ([h] + later);
    ReadLinesPrefix(p.file, first, [h] + later);
    JoinLinesAppend(first, [h] + later);
    JoinOne(h, later);
    var pieces := [JoinLines(first), h + "\r", "\n" + JoinLines(later) + CRLF];
    JoinThree(pieces[0], pieces[1], pieces[2]);
    assert (h + "\r") + ("\n" + JoinLines(later) + CRLF) == h + CRLF + JoinLines(later) + CRLF;
    assert Join(pieces) == JoinLines(hs) + CRLF;
    FirstPiece(p, boundary, first);
    var q := Feed(p, boundary, pieces[0]).0;
    LongLineRefused(q, boundary, h);
    FeedAllTwo(p, boundary, pieces[0], pieces[1], [pieces[2]]);
    assert pieces == [pieces[0], pieces[1]] + [pieces[2]];
  }

  lemma FirstPiece(p: Parser, boundary: string, first: seq<string>)
    requires p.state == Headers && p.pending == [] && Accepted(p.file, first) && Short(first)
    ensures
      var (q, ok) := Feed(p, boundary, JoinLines(first));
      ok && q.state == Headers && q.pending == []
  {
    hide Seek, HeaderTurn, JoinLines, Accepted, Short;
    var fed := p.(pending := JoinLines(first));
    assert [] + JoinLines(first) == JoinLines(first);
    if fed.pending != [] {
      LinesRead(fed, first);
    }
  }

  lemma JoinThree(a: string, b: string, c: string)
    ensures Join([a, b, c]) == a + (b + c)
  {
    assert [a, b, c][1..] == [b, c] && [b, c][1..] == [c];
    assert Join([c]) == c;
  }

  lemma FeedAllTwo(p: Parser, boundary: string, a: string, b: string, rest: seq<string>)
    requires Feed(p, boundary, a).1 && !Feed(Feed(p, boundary, a).0, boundary, b).1
    ensures !FeedAll(p, boundary, [a, b] + rest).1
  {
    hide Feed;
    assert ([a, b] + rest)[1..] == [b] + rest;
  }

  lemma {:induction false} FirstLong(hs: seq<string>) returns (i: nat)
    requires !Short(hs)
    ensures i < |hs| && |hs[i]| >= HEADER_MAX_LENGTH && Short(hs[..i])
  {
    if |hs[0]| >= HEADER_MAX_LENGTH {
      i := 0;
    } else {
      assert !Short(hs[1..]);
      var j := FirstLong(hs[1..]);
      i := j + 1;
      assert hs[..i] == [hs[0]] + hs[1..][..i - 1];
    }
  }

  /** The exact condition: accepted header lines pass under every split if and only if each is shorter than the
      limit. */
  lemma LimitIsExact(p: Parser, boundary: string, hs: seq<string>)
    requires p.state == Headers && p.pending == [] && Accepted(p.file, hs)
    ensures PassesEverySplit(p, boundary, hs) <==> Short(hs)
  {
    hide Accepted, Short, FeedAll, JoinLines;
    if Short(hs) {
      forall pieces: seq<string> | Join(pieces) == JoinLines(hs) + CRLF ensures FeedAll(p, boundary, pieces).1 {
        assert p.pending + Join(pieces) == Join(pieces);
        ShortPieces(p, boundary, pieces, hs);
      }
    } else {
      var i := FirstLong(hs);
      LongLineSplit(p, boundary, hs, i);
    }
  }

  /** A line of any length passes when it arrives behind a first line that is within the limit. */
  lemma UncheckedBehindFirst(p: Parser, h1: string, h2: string)
    requires h1 != [] && h2 != [] && '\r' !in h1 && '\r' !in h2 && |h1| <= HEADER_MAX_LENGTH
    requires TakeHeader(p.file, h1).1 && TakeHeader(TakeHeader(p.file, h1).0, h2).1
    ensures
      var t := HeadersTurn(p.(pending := h1 + CRLF + (h2 + CRLF)));
      t.Stop? && t.ok && t.p.pending == []
  {
    hide Seek, TakeHeader, HeaderTurn;
    var one := p.(pending := h1 + CRLF + (h2 + CRLF));
    var two := p.(file := TakeHeader(p.file, h1).0, pending := h2 + CRLF);
    var three := two.(file := TakeHeader(two.file, h2).0, pending := []);
    assert one.pending + [] == h1 + CRLF + (h2 + CRLF) && two.pending + [] == h2 + CRLF + [];
    SeekLine(h1, h2 + CRLF, one.pending, []);
    assert one.pending[|h1| + 2..] == two.pending by { assert one.pending[|h1| + 2..] + [] == one.pending[|h1| + 2..]; }
    SeekLine(h2, [], two.pending, []);
    assert two.pending[|h2| + 2..] == [];
    SeekFails([], CRLF);
    HeaderTurnIs(one);
    HeaderTurnIs(two);
    HeaderTurnIs(three);
  }
}
