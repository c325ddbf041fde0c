/** State 3 of the multipart parser: whatever the bytes and however they arrive, the content handed over is
    what stands before the first CRLF, two dashes and the boundary. */
module MultipartBody {
  import opened HeaderFields
  import opened LineReader
  import opened MultipartModel

  lemma AddContentTwice(items: seq<FormItem>, a: string, b: string)
    ensures AddContent(AddContent(items, a), b) == AddContent(items, a + b)
    ensures AddContent(items, []) == items
  {
    if items != [] {
      var last := items[|items| - 1];
      assert last.content + [] == last.content;
      assert (last.content + a) + b == last.content + (a + b);
    }
  }

  /** An occurrence that ends within t is one of t, too. */
  lemma OccursWithin(t: string, u: string, s: string, i: nat)
    requires i + |s| <= |t|
    ensures Occurs(t + u, s, i) <==> Occurs(t, s, i)
  {
  }

  /** The first occurrence in a part of the text is the first in the whole text. */
  lemma SeekPrefix(t: string, u: string, s: string)
    requires s != []
    ensures Seek(t, s) < |t| ==> Seek(t + u, s) == Seek(t, s)
    ensures Seek(t, s) == |t| ==> forall i: nat | i + |s| <= |t| :: !Occurs(t + u, s, i)
  {
    hide Seek;
    SeekIsFirst(t, s);
    var k := Seek(t, s);
    forall i: nat | i + |s| <= |t| ensures Occurs(t + u, s, i) <==> Occurs(t, s, i) {
      OccursWithin(t, u, s, i);
    }
    if k < |t| {
      SeekIs(t + u, s, k);
    }
  }

  /** Text before which nothing occurs can be dropped from the search. */
  lemma SeekDrop(t: string, s: string, j: nat)
    requires s != [] && j <= |t| && forall i: nat | i < j :: !Occurs(t, s, i)
    ensures Seek(t, s) == j + Seek(t[j..], s)
  {
    hide Seek;
    var k := Seek(t[j..], s);
    SeekIsFirst(t[j..], s);
    forall i: nat | j <= i ensures Occurs(t, s, i) <==> Occurs(t[j..], s, i - j) {
      if i + |s| <= |t| {
        assert t[j..][i - j..i - j + |s|] == t[i..i + |s|];
      }
    }
    if k < |t| - j {
      assert Occurs(t, s, j + k);
      SeekIs(t, s, j + k);
    } else {
      SeekFails(t, s);
    }
  }

  /** How much of the text body bytes t, one turn of state 3 hands over. */
  function Released(t: string, d: string): (j: nat)
    requires d != []
    ensures j <= |t|
  {
    if |d| > |t| then 0 else if Seek(t, d) < |t| then Seek(t, d) else |t| - |d|
  }

  /** State 3 handed over all of the text r before its first delimiter d and left what follows it. */
  ghost predicate Passed(p: Parser, r: string, d: string, q: Parser, u: string)
    requires d != []
  {
    var k := Seek(r, d);
    && k < |r| && q.pending + u == r[k + |d|..]
    && q == p.(items := AddContent(p.items, r[..k]), state := Boundary, pending := q.pending)
  }

  /** State 3 handed over the first j bytes of the text r, in which no delimiter d begins. */
  ghost predicate Kept(p: Parser, r: string, d: string, q: Parser, u: string, j: nat)
    requires d != []
  {
    && j <= |r| && q.pending + u == r[j..] && |q.pending| <= |d|
    && q == p.(items := AddContent(p.items, r[..j]), pending := q.pending)
    && (forall i: nat | i < j :: !Occurs(r, d, i))
    && Seek(q.pending, d) == |q.pending|
  }

  lemma SlicesOfSum(t: string, u: string, k: nat, n: nat)
    requires k + n <= |t|
    ensures (t + u)[..k] == t[..k] && (t + u)[k + n..] == t[k + n..] + u
  {
  }

  /** One turn of state 3 with u still to come: up to the first delimiter of the whole text, or some bytes
      that no delimiter can begin in. */
  lemma BodyTurnExtracts(p: Parser, u: string, boundary: string)
    requires p.state == Body && p.pending != []
    ensures
      var d := CrlfDashBoundary(boundary);
      var r := p.pending + u;
      var turn := BodyTurn(p, boundary);
      var j := Released(p.pending, d);
      && (turn.More? ==> Passed(p, r, d, turn.p, u))
      && (turn.Stop? ==> turn.ok && Kept(p, r, d, turn.p, u, j))
  {
    hide Seek, AddContent;
    var d := CrlfDashBoundary(boundary);
    var t, r := p.pending, p.pending + u;
    SeekPrefix(t, u, d);
    AddContentTwice(p.items, [], []);
    if |d| > |t| {
      SeekFails(t, d);
      assert r[..0] == [] && r[0..] == r;
    } else if Seek(t, d) < |t| {
      var k := Seek(t, d);
      SlicesOfSum(t, u, k, |d|);
    } else {
      var j := |t| - |d|;
      SlicesOfSum(t, u, j, 0);
      SeekIsFirst(t, d);
      SeekDrop(t, d, j);
      if j == 0 {
        assert t[0..] == t && t[..0] == [];
      }
    }
  }

  /** Feeding pieces while the parser stays in state 3; it leaves the pieces that come after it left. */
  function FeedBody(p: Parser, boundary: string, pieces: seq<string>): (Parser, seq<string>)
    requires p.state == Body
    decreases |pieces|
  {
    if pieces == [] then (p, [])
    else
      var q := p.(pending := p.pending + pieces[0]);
      if q.pending == [] then FeedBody(q, boundary, pieces[1..])
      else
        match BodyTurn(q, boundary)
        case More(next) => (next, pieces[1..])
        case Stop(next, _) => FeedBody(next, boundary, pieces[1..])
  }

  /** Of the text, the bytes before the first delimiter d were handed over and the bytes behind it are left; or
      there is no delimiter, nothing is lost and no more bytes are held back than d has. */
  ghost predicate Extracted(p: Parser, text: string, d: string, q: Parser, later: seq<string>)
    requires d != []
  {
    var k := Seek(text, d);
    if k < |text| then
      && q.state == Boundary && q.items == AddContent(p.items, text[..k])
      && q.pending + Join(later) == text[k + |d|..]
    else
      && q.state == Body && later == [] && |q.pending| <= |d|
      && |q.pending| <= |text|
      && q.items == AddContent(p.items, text[..|text| - |q.pending|])
      && q.pending == text[|text| - |q.pending|..]
  }

  /** What is extracted from the rest of a text after its first j bytes completes the text. */
  lemma ExtractedLater(p: Parser, text: string, d: string, j: nat, next: Parser, q: Parser, later: seq<string>)
    requires d != [] && j <= |text| && (forall i: nat | i < j :: !Occurs(text, d, i))
    requires next.items == AddContent(p.items, text[..j]) && Extracted(next, text[j..], d, q, later)
    ensures Extracted(p, text, d, q, later)
  {
    hide Seek, AddContent, Join;
    var rest := text[j..];
    SeekDrop(text, d, j);
    var k := Seek(rest, d);
    var m := if k < |rest| then k else |rest| - |q.pending|;
    AddContentTwice(p.items, text[..j], rest[..m]);
    assert text[..j] + rest[..m] == text[..j + m];
    assert text[j + m..] == rest[m..];
    if k < |rest| {
      assert text[j + m + |d|..] == rest[m + |d|..];
    }
  }

  /** The content handed over is exactly the bytes before the first delimiter, however they were split. */
  lemma {:induction false} BodyIsExtracted(p: Parser, boundary: string, pieces: seq<string>)
    requires p.state == Body
    requires pieces != [] || Seek(p.pending, CrlfDashBoundary(boundary)) == |p.pending| <= |CrlfDashBoundary(boundary)|
    ensures
      var (q, later) := FeedBody(p, boundary, pieces);
      Extracted(p, p.pending + Join(pieces), CrlfDashBoundary(boundary), q, later)
    decreases |pieces|
  {
    hide Seek, AddContent, CrlfDashBoundary, BodyTurn, Extracted;
    var d := CrlfDashBoundary(boundary);
    var text := p.pending + Join(pieces);
    if pieces == [] {
      assert text == p.pending;
      NothingMore(p, d);
    } else {
      var u := Join(pieces[1..]);
      var q := p.(pending := p.pending + pieces[0]);
      assert text == q.pending + u;
      if q.pending == [] {
        SeekFails([], d);
        BodyIsExtracted(q, boundary, pieces[1..]);
        assert Extracted(p, text, d, FeedBody(p, boundary, pieces).0, FeedBody(p, boundary, pieces).1) by {
          SamePending(p, q, text, d, FeedBody(p, boundary, pieces).0, FeedBody(p, boundary, pieces).1);
        }
      } else {
        BodyTurnExtracts(q, u, boundary);
        var turn := BodyTurn(q, boundary);
        if turn.Stop? {
          BodyIsExtracted(turn.p, boundary, pieces[1..]);
          var (last, later) := FeedBody(p, boundary, pieces);
          ExtractedLater(p, text, d, Released(q.pending, d), turn.p, last, later);
        } else {
          PassedIsExtracted(p, q, text, d, turn.p, pieces[1..]);
        }
      }
    }
  }

  lemma NothingMore(p: Parser, d: string)
    requires d != [] && p.state == Body && Seek(p.pending, d) == |p.pending| <= |d|
    ensures Extracted(p, p.pending, d, p, [])
  {
    hide Seek;
    AddContentTwice(p.items, [], []);
    assert p.pending[..0] == [] && p.pending[0..] == p.pending;
  }

  lemma SamePending(p: Parser, q: Parser, text: string, d: string, r: Parser, later: seq<string>)
    requires d != [] && p.items == q.items && Extracted(q, text, d, r, later)
    ensures Extracted(p, text, d, r, later)
  {
  }

  lemma PassedIsExtracted(p: Parser, q: Parser, text: string, d: string, r: Parser, later: seq<string>)
    requires d != [] && p.items == q.items && Passed(q, text, d, r, Join(later))
    ensures Extracted(p, text, d, r, later)
  {
  }
}
