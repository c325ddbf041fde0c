/** Reading lines from a stream, as stream_line_reader of httplib.h does it: byte by byte, into a
    fixed buffer first and into a growing string once that is full. */
module LineReader {

  const CRLF := "\r\n"
  const HEADER_MAX_LENGTH := 8192

  /** Pieces of a text, joined in order. */
  function Join(pieces: seq<string>): string {
    if pieces == [] then [] else pieces[0] + Join(pieces[1..])
  }

  const CR := '\r'
  const LF := '\n'
  const NUL := '\0'

  /** What a peer sends: some bytes, and then the end of the stream or a failure. */
  class InStream {
    var rest: string
    const fails: bool

    constructor (bytes: string, fails: bool)
      ensures rest == bytes && this.fails == fails
    {
      rest, this.fails := bytes, fails;
    }

    /** Stream::read: at most size bytes, fewer at the stream's own choice, 0 at the end, -1 on failure. */
    method Read(size: nat) returns (n: int, bytes: string)
      requires size > 0
      modifies this
      ensures n == |bytes| || (n < 0 && bytes == [])
      ensures |bytes| <= |old(rest)| && bytes == old(rest)[..|bytes|] && rest == old(rest)[|bytes|..]
      ensures old(rest) != [] ==> 1 <= n <= size
      ensures old(rest) == [] ==> n == if fails then -1 else 0
    {
      if rest == [] {
        return (if fails then -1 else 0), [];
      }
      var most := if size < |rest| then size else |rest|;
      var k :| 1 <= k <= most;
      n, bytes, rest := k, rest[..k], rest[k..];
    }
  }

  predicate CrlfAt(s: string, i: nat) { i + 1 < |s| && s[i] == CR && s[i + 1] == LF }

  /** Where the first line ends: behind the first CRLF, at the end of s if there is none. */
  function LineEnd(s: string): (n: nat)
    ensures n <= |s| && (s != [] ==> n > 0)
  {
    if |s| < 2 then |s| else if CrlfAt(s, 0) then 2 else 1 + LineEnd(s[1..])
  }

  /** LineEnd is the only place with an ended line and no CRLF before. */
  lemma {:induction false} LineEndIs(s: string, n: nat)
    requires n <= |s| && (n == |s| || (n >= 2 && CrlfAt(s, n - 2)))
    requires forall i: nat | i + 2 < n :: !CrlfAt(s, i)
    ensures LineEnd(s) == n
  {
    if |s| >= 2 {
      if n >= 3 {
        assert 0 + 2 < n;
        assert !CrlfAt(s, 0);
        forall i: nat | i + 2 < n - 1 ensures !CrlfAt(s[1..], i) {
          assert !CrlfAt(s, i + 1);
        }
        LineEndIs(s[1..], n - 1);
      }
    }
  }

  /** The line ends in CRLF, not just at the end of the stream. */
  predicate Ended(s: string) { LineEnd(s) >= 2 && CrlfAt(s, LineEnd(s) - 2) }

  predicate NoCrlf(s: string, n: nat) { forall j: nat | j + 2 <= n :: !CrlfAt(s, j) }

  lemma NoCrlfNext(s: string, n: nat)
    requires NoCrlf(s, n) && n < |s|
    ensures NoCrlf(s, n + 1) <==> n == 0 || !(s[n - 1] == CR && s[n] == LF)
  {
    if n > 0 {
      assert CrlfAt(s, n - 1) <==> s[n - 1] == CR && s[n] == LF;
    }
  }

  lemma NoCrlfIn(s: string)
    ensures NoCrlf(s, 0)
  {
  }

  lemma TakeOne(s: string, i: nat)
    requires i < |s|
    ensures s[i..][..1] == [s[i]] && s[i..][1..] == s[i + 1..] && s[..i] + [s[i]] == s[..i + 1]
  {
  }

  lemma IsCrlf(s: string, i: int)
    requires 0 <= i && i + 1 < |s| && s[i] == CR && s[i + 1] == LF
    ensures CrlfAt(s, i)
  {
  }

  lemma LineUnended(s: string)
    requires NoCrlf(s, |s|)
    ensures LineEnd(s) == |s| && !Ended(s)
  {
    LineEndIs(s, |s|);
  }

  lemma LineEnded(s: string, n: nat)
    requires 2 <= n <= |s| && CrlfAt(s, n - 2) && NoCrlf(s, n - 1)
    ensures LineEnd(s) == n && Ended(s)
  {
    LineEndIs(s, n);
  }

  /** getline succeeds: there is a byte, and an unended line did not run into a failure. */
  predicate HasLine(s: string, fails: bool) { s != [] && (Ended(s) || !fails) }

  class StreamLineReader {
    const strm: InStream
    const fixedBuffer: array<char>
    var fixedBufferUsedSize: nat
    var glowableBuffer: string

    ghost predicate Valid()
      reads this, fixedBuffer
    {
      && fixedBuffer.Length >= 2
      && fixedBufferUsedSize < fixedBuffer.Length
      && (fixedBufferUsedSize > 0 ==> fixedBuffer[fixedBufferUsedSize] == NUL)
      && (glowableBuffer != [] ==> fixedBufferUsedSize == fixedBuffer.Length - 1)
    }

    /** ptr and size: the bytes of the line. */
    function Line(): string
      requires Valid()
      reads this, fixedBuffer
    {
      if glowableBuffer == [] then fixedBuffer[..fixedBufferUsedSize] else glowableBuffer
    }

    constructor (strm: InStream, fixedBuffer: array<char>)
      requires fixedBuffer.Length >= 2
      ensures Valid() && this.strm == strm && this.fixedBuffer == fixedBuffer && Line() == []
    {
      this.strm, this.fixedBuffer := strm, fixedBuffer;
      fixedBufferUsedSize, glowableBuffer := 0, [];
    }

    method Append(c: char)
      requires Valid()
      modifies this, fixedBuffer
      ensures Valid() && Line() == old(Line()) + [c]
    {
      if fixedBufferUsedSize < fixedBuffer.Length - 1 {
        ghost var before := fixedBuffer[..fixedBufferUsedSize];
        fixedBuffer[fixedBufferUsedSize] := c;
        fixedBufferUsedSize := fixedBufferUsedSize + 1;
        fixedBuffer[fixedBufferUsedSize] := NUL;
        assert fixedBuffer[..fixedBufferUsedSize] == before + [c];
      } else {
        if glowableBuffer == [] {
          assert fixedBuffer[fixedBufferUsedSize] == NUL;
          glowableBuffer := fixedBuffer[..fixedBufferUsedSize];
        }
        glowableBuffer := glowableBuffer + [c];
      }
    }

    /** getline: the next line with its CRLF; what the stream still holds when it ends without one. */
    method Getline() returns (ok: bool)
      requires Valid()
      modifies this, strm, fixedBuffer
      ensures Valid() && ok == HasLine(old(strm.rest), strm.fails)
      ensures ok ==> Line() == old(strm.rest)[..LineEnd(old(strm.rest))]
      ensures strm.rest == old(strm.rest)[LineEnd(old(strm.rest))..]
    {
      hide LineEnd, NoCrlf, Ended, CrlfAt;
      ghost var s := strm.rest;
      NoCrlfIn(s);
      fixedBufferUsedSize := 0;
      glowableBuffer := [];
      var prevByte := NUL;
      var i := 0;
      while true
        invariant Valid() && 0 <= i <= |s|
        invariant Line() == s[..i] && strm.rest == s[i..]
        invariant prevByte == if i == 0 then NUL else s[i - 1]
        invariant NoCrlf(s, i)
        decreases |s| - i
      {
        var n, bytes := strm.Read(1);
        if n <= 0 {
          LineUnended(s);
          return n == 0 && i != 0;
        }
        TakeOne(s, i);
        assert bytes == [s[i]];
        NoCrlfNext(s, i);
        Append(bytes[0]);
        i := i + 1;
        if prevByte == CR && bytes[0] == LF {
          IsCrlf(s, i - 2);
          LineEnded(s, i);
          return true;
        }
        prevByte := bytes[0];
      }
    }
  }
}
