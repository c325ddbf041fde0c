/** Reading a chunked body: read_content_with_length and read_content_chunked of httplib.h. */
module ChunkedReader {
  import opened ChunkSize
  import opened LineReader

  const RECV_BUFSIZ := 16384
  const LINE_BUFSIZ := 16

  /** What takes the body: it may refuse a piece unless it is patient. */
  class Receiver {
    var delivered: string
    const patient: bool

    constructor (patient: bool)
      ensures delivered == [] && this.patient == patient
    {
      delivered, this.patient := [], patient;
    }

    method Accept(piece: string) returns (ok: bool)
      modifies this
      ensures delivered == old(delivered) + piece
      ensures patient ==> ok
    {
      delivered := delivered + piece;
      if patient {
        return true;
      }
      ok := *;
    }
  }

  lemma TakeSome(s: string, before: string, r: nat, n: nat)
    requires r + n <= |s|
    ensures s[r..][n..] == s[r + n..] && (before + s[..r]) + s[r..][..n] == before + s[..r + n]
  {
    assert s[..r + n] == s[..r] + s[r..][..n];
  }

  /** read_content_with_length: the next len bytes in as many pieces as the stream chooses. */
  method ReadContentWithLength(strm: InStream, len: nat, out: Receiver) returns (ok: bool)
    modifies strm, out
    ensures |strm.rest| <= |old(strm.rest)|
    ensures
      var k := |old(strm.rest)| - |strm.rest|;
      && k <= len && strm.rest == old(strm.rest)[k..]
      && out.delivered == old(out.delivered) + old(strm.rest)[..k]
      && (ok ==> k == len)
      && (!ok && out.patient ==> k == |old(strm.rest)| < len)
  {
    ghost var s, before := strm.rest, out.delivered;
    var r := 0;
    while r < len
      invariant 0 <= r <= len && r <= |s|
      invariant strm.rest == s[r..] && out.delivered == before + s[..r]
    {
      var readLen := len - r;
      var n, bytes := strm.Read(if readLen < RECV_BUFSIZ then readLen else RECV_BUFSIZ);
      if n <= 0 {
        return false;
      }
      TakeSome(s, before, r, n);
      var accepted := out.Accept(bytes);
      r := r + n;
      if !accepted {
        return false;
      }
    }
    return true;
  }

  // ---------------------------------------------------------------- what reading a body comes to

  datatype Reading = Reading(ok: bool, body: string, rest: string, trailers: seq<string>)

  /** A C string ends at its first NUL. */
  function CText(s: string): string {
    if s == [] || s[0] == NUL then [] else [s[0]] + CText(s[1..])
  }

  predicate BlankLine(line: string) { CText(line) == [CR, LF] }

  /** The lines behind the last chunk, up to an empty one. */
  function Trailers(s: string, fails: bool): Reading
    decreases |s|
  {
    var line, next := s[..LineEnd(s)], s[LineEnd(s)..];
    if !HasLine(s, fails) then Reading(false, [], next, [])
    else if BlankLine(line) then Reading(true, [], next, [])
    else if |line| > HEADER_MAX_LENGTH then Reading(false, [], next, [])
    else
      var r := Trailers(next, fails);
      r.(trailers := [line] + r.trailers)
  }

  /** The last chunk may end the stream; otherwise trailers follow it. */
  function AfterLastChunk(s: string, fails: bool): Reading {
    if HasLine(s, fails) then Trailers(s, fails) else Reading(true, [], s[LineEnd(s)..], [])
  }

  function Ahead(data: string, r: Reading): Reading { r.(body := data + r.body) }

  /** The data of a chunk and the line end behind it. */
  function ChunkData(s: string, fails: bool, len: nat): Reading
    requires len > 0
    decreases |s|, 0
  {
    if |s| < len then Reading(false, s, [], [])
    else
      var tail := s[len..];
      var next := tail[LineEnd(tail)..];
      if HasLine(tail, fails) && BlankLine(tail[..LineEnd(tail)]) then Ahead(s[..len], ReadBody(next, fails))
      else Reading(false, s[..len], next, [])
  }

  /** What read_content_chunked makes of the bytes s. */
  function ReadBody(s: string, fails: bool): Reading
    decreases |s|, 1
  {
    var next := s[LineEnd(s)..];
    if !HasLine(s, fails) then Reading(false, [], next, [])
    else
      match StrToUl(s[..LineEnd(s)])
      case NoDigits => Reading(false, [], next, [])
      case Value(len) =>
        if len == ULONG_MAX then Reading(false, [], next, [])
        else if len == 0 then AfterLastChunk(next, fails)
        else ChunkData(next, fails, len)
  }

  /** The second half of read_content_chunked. */
  method ReadTrailers(lineReader: StreamLineReader) returns (ok: bool, trailers: seq<string>)
    requires lineReader.Valid()
    modifies lineReader, lineReader.strm, lineReader.fixedBuffer
    ensures Reading(ok, [], lineReader.strm.rest, trailers)
            == AfterLastChunk(old(lineReader.strm.rest), lineReader.strm.fails)
  {
    hide LineEnd, Ended, BlankLine, HasLine, Trailers, AfterLastChunk;
    trailers := [];
    ghost var start, fails := lineReader.strm.rest, lineReader.strm.fails;
    ghost var s := start;
    AfterLastChunkIs(start, fails);
    var got := lineReader.Getline();
    if !got {
      return true, [];
    }
    assert [] + Trailers(s, fails).trailers == Trailers(s, fails).trailers;
    while !BlankLine(lineReader.Line())
      invariant lineReader.Valid() && HasLine(s, fails)
      invariant lineReader.Line() == s[..LineEnd(s)] && lineReader.strm.rest == s[LineEnd(s)..]
      invariant Trailers(start, fails) == Trailers(s, fails).(trailers := trailers + Trailers(s, fails).trailers)
      decreases |s|
    {
      var line := lineReader.Line();
      TrailersIs(s, fails);
      if |line| > HEADER_MAX_LENGTH {
        return false, trailers;
      }
      assert trailers + ([line] + Trailers(lineReader.strm.rest, fails).trailers)
          == (trailers + [line]) + Trailers(lineReader.strm.rest, fails).trailers;
      trailers := trailers + [line];
      s := lineReader.strm.rest;
      got := lineReader.Getline();
      if !got {
        TrailersIs(s, fails);
        return false, trailers;
      }
    }
    TrailersIs(s, fails);
    return true, trailers;
  }

  lemma AfterLastChunkIs(s: string, fails: bool)
    ensures AfterLastChunk(s, fails)
         == if HasLine(s, fails) then Trailers(s, fails) else Reading(true, [], s[LineEnd(s)..], [])
  {
    hide HasLine, Trailers;
  }

  lemma TrailersIs(s: string, fails: bool)
    ensures
      var line, next := s[..LineEnd(s)], s[LineEnd(s)..];
      Trailers(s, fails) ==
      if !HasLine(s, fails) then Reading(false, [], next, [])
      else if BlankLine(line) then Reading(true, [], next, [])
      else if |line| > HEADER_MAX_LENGTH then Reading(false, [], next, [])
      else Trailers(next, fails).(trailers := [line] + Trailers(next, fails).trailers)
    ensures Trailers(s, fails).body == []
  {
    hide BlankLine;
  }

  /** The body of the loop of read_content_chunked: the data of one chunk and the line end behind it. */
  method ReadChunkData(lineReader: StreamLineReader, len: nat, out: Receiver) returns (ok: bool)
    requires lineReader.Valid() && len > 0
    modifies lineReader, lineReader.strm, lineReader.fixedBuffer, out
    ensures lineReader.Valid()
    ensures old(out.delivered) <= out.delivered && |lineReader.strm.rest| <= |old(lineReader.strm.rest)|
    ensures
      var strm, data := lineReader.strm, out.delivered[|old(out.delivered)|..];
      var expected := ChunkData(old(strm.rest), strm.fails, len);
      && (ok ==> expected == Ahead(data, ReadBody(strm.rest, strm.fails)))
      && (!ok && out.patient ==> expected == Reading(false, data, strm.rest, []))
  {
    hide LineEnd, Ended, CText, ReadBody;
    ghost var s := lineReader.strm.rest;
    ok := ReadContentWithLength(lineReader.strm, len, out);
    if !ok {
      return false;
    }
    ok := lineReader.Getline();
    ok := ok && BlankLine(lineReader.Line());
  }

  /** read_content_chunked delivers what ReadBody says, however the stream splits its bytes. A refusal by
      the receiver is the only other outcome. */
  method ReadContentChunked(strm: InStream, out: Receiver) returns (ok: bool, trailers: seq<string>)
    modifies strm, out
    ensures old(out.delivered) <= out.delivered
    ensures ok || out.patient ==>
            Reading(ok, out.delivered[|old(out.delivered)|..], strm.rest, trailers)
            == ReadBody(old(strm.rest), strm.fails)
  {
    hide LineEnd, HasLine, BlankLine, StrToUl, AfterLastChunk, ChunkData;
    ghost var s, fails, before := strm.rest, strm.fails, out.delivered;
    ghost var start := s;
    trailers := [];
    var buf := new char[LINE_BUFSIZ];
    var lineReader := new StreamLineReader(strm, buf);
    var got := lineReader.Getline();
    if !got {
      return false, [];
    }
    while true
      invariant lineReader.Valid() && lineReader.strm == strm && lineReader.fixedBuffer == buf && HasLine(s, fails)
      invariant lineReader.Line() == s[..LineEnd(s)] && strm.rest == s[LineEnd(s)..]
      invariant before <= out.delivered
      invariant ReadBody(start, fails) == Ahead(out.delivered[|before|..], ReadBody(s, fails))
      decreases |s|
    {
      var size := StrToUl(lineReader.Line());
      if size.NoDigits? || size.n == ULONG_MAX {
        return false, [];
      }
      if size.n == 0 {
        break;
      }
      ghost var delivered := out.delivered;
      HasLineShrinks(s, fails);
      ok := ReadChunkData(lineReader, size.n, out);
      assert out.delivered[|before|..] == delivered[|before|..] + out.delivered[|delivered|..];
      if !ok {
        return false, [];
      }
      s := strm.rest;
      AheadTwice(delivered[|before|..], out.delivered[|delivered|..], ReadBody(s, fails));
      got := lineReader.Getline();
      if !got {
        return false, [];
      }
    }
    ok, trailers := ReadTrailers(lineReader);
  }

  lemma HasLineShrinks(s: string, fails: bool)
    requires HasLine(s, fails)
    ensures LineEnd(s) > 0
  {
  }

  lemma AheadTwice(a: string, b: string, r: Reading)
    ensures Ahead(a, Ahead(b, r)) == Ahead(a + b, r)
  {
  }
}
