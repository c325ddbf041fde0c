/** What a cut first delimiter line does to a multipart upload, and exactly which splits of a serialized body are
    accepted with its items. */
module MultipartSplit {
  import opened FormHeaders
  import opened HeaderFields
  import opened LineReader
  import opened Multipart
  import opened MultipartBody
  import opened MultipartModel
  import opened MultipartRoundTrip

  // ---------------------------------------------------------------- resuming at the next delimiter line

  lemma FeedTwo(p: Parser, boundary: string, a: string, later: seq<string>)
    ensures
      var (q, ok) := Feed(p, boundary, a);
      FeedAll(p, boundary, [a] + later) == if ok then FeedAll(q, boundary, later) else (q, false)
  {
    hide Feed;
    assert ([a] + later)[1..] == later;
  }

  /** A piece with a delimiter line in it starts the parser behind the first one. */
  lemma Resumes(boundary: string, piece: string)
    requires Seek(piece, DashBoundaryCrlf(boundary)) < |piece|
    ensures
      var at := Seek(piece, DashBoundaryCrlf(boundary)) + |DashBoundaryCrlf(boundary)|;
      at <= |piece|
      && Feed(INITIAL, boundary, piece) == Loop(INITIAL.(pending := piece[at..], state := NewEntry), boundary)
  {
    hide Seek, DashBoundaryCrlf;
    var d := DashBoundaryCrlf(boundary);
    var k := Seek(piece, d);
    assert [] + piece == piece;
    assert piece[k..][..|d|] == piece[k..k + |d|] == d;
    assert piece[k..][|d|..] == piece[k + |d|..];
  }

  /** A first piece shorter than the delimiter line is lost, and parsing resumes behind the next delimiter line that
      arrives whole: if that is followed by the form of some of the items, the upload ends valid with these alone. */
  lemma FirstPartIsLost(first: string, piece: string, later: seq<string>, todo: seq<FormItem>, boundary: string)
    requires todo != [] && SafeItems(todo, boundary) && |first| < |DashBoundaryCrlf(boundary)|
    requires Seek(piece, DashBoundaryCrlf(boundary)) < |piece|
    requires
      var d := DashBoundaryCrlf(boundary);
      piece[Seek(piece, d) + |d|..] + Join(later) == Form(todo, boundary)
    ensures
      var (q, ok) := FeedAll(INITIAL, boundary, [first, piece] + later);
      ok && q.valid && q.items == todo
  {
    hide Loop, SafeItems, Form, Seek, DashBoundaryCrlf, FeedAll, Feed;
    ShortFirstPieceIsLost(boundary, first, [piece] + later);
    assert [first, piece] + later == [first] + ([piece] + later);
    Resumes(boundary, piece);
    var at := Seek(piece, DashBoundaryCrlf(boundary)) + |DashBoundaryCrlf(boundary)|;
    var p := INITIAL.(pending := piece[at..], state := NewEntry);
    assert [] + todo == todo;
    var next := LoopLeads(p, Join(later), Start(todo), todo, boundary);
    NothingLeft(later);
    FeedTwo(INITIAL, boundary, piece, later);
    FeedAllLeads(Loop(p, boundary).0, later, next, todo, boundary);
  }

  lemma NothingLeft(later: seq<string>)
    ensures later == [] ==> Join(later) == []
  {
  }
}
