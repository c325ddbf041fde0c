/** The chunked transfer coding of section 7.1 of RFC 9112: what the writer emits, the reader delivers. */
module ChunkedCoding {
  import opened ChunkSize
  import opened ChunkedReader
  import opened ChunkedWriter
  import opened LineReader
  import opened UrlCoding

  function Chunks(ws: seq<string>): string {
    if ws == [] then [] else Chunk(ws[0]) + Chunks(ws[1..])
  }

  /** Payloads a size line can announce: ULONG_MAX itself stands for a size out of range. */
  predicate Sendable(ws: seq<string>) { forall i | 0 <= i < |ws| :: 0 < |ws[i]| < ULONG_MAX }

  // ---------------------------------------------------------------- one chunk

  /** A text without CR followed by CRLF is one line. */
  lemma LineOf(t: string, rest: string)
    requires CR !in t
    ensures LineEnd(t + CRLF + rest) == |t| + 2 && Ended(t + CRLF + rest)
    ensures (t + CRLF + rest)[..|t| + 2] == t + CRLF && (t + CRLF + rest)[|t| + 2..] == rest
  {
    hide LineEnd;
    var s := t + CRLF + rest;
    assert forall i: nat | i < |t| :: s[i] == t[i];
    LineEndIs(s, |t| + 2);
  }

  /** What is left without a CRLF is one line, too. */
  lemma LastLine(t: string)
    requires CR !in t || (t != [] && CR !in t[..|t| - 1])
    ensures LineEnd(t) == |t| && !Ended(t) && t[..LineEnd(t)] == t && t[LineEnd(t)..] == []
  {
  }

  lemma SizeHasNoCr(n: nat)
    ensures CR !in ToHex(n) && (n <= ULONG_MAX ==> StrToUl(ToHex(n) + CRLF) == Value(n))
  {
    hide StrToUl;
    ToHexDigits(n);
    LowerDigits(ToHex(n));
    if n <= ULONG_MAX {
      SizeRoundTrip(n, CRLF);
    }
  }

  lemma CrlfIsBlank()
    ensures BlankLine(CRLF) && !BlankLine([CR])
  {
  }

  lemma ChunkParts(w: string, rest: string)
    requires w != []
    ensures Chunk(w) + rest == ToHex(|w|) + CRLF + (w + (CRLF + rest))
  {
    hide ToHex;
    Regroup(ToHex(|w|), CRLF, w, rest);
  }

  lemma Regroup(h: string, e: string, w: string, rest: string)
    ensures (h + e + w + e) + rest == h + e + (w + (e + rest))
  {
  }

  /** The reader takes one chunk off and goes on behind it. */
  lemma ReadChunk(w: string, rest: string, fails: bool)
    requires 0 < |w| < ULONG_MAX
    ensures ReadBody(Chunk(w) + rest, fails) == Ahead(w, ReadBody(rest, fails))
  {
    hide LineEnd, StrToUl, ToHex, BlankLine, Chunk;
    var h := ToHex(|w|);
    var tail := CRLF + rest;
    SizeHasNoCr(|w|);
    ChunkParts(w, rest);
    LineOf(h, w + tail);
    assert (w + tail)[..|w|] == w && (w + tail)[|w|..] == tail;
    assert tail == [] + CRLF + rest;
    LineOf([], rest);
    assert [] + CRLF == CRLF;
    CrlfIsBlank();
  }

  lemma ReadTerminator(rest: string, fails: bool)
    ensures ReadBody(DONE_MARKER + CRLF + rest, fails) == Reading(true, [], rest, [])
  {
    hide LineEnd, StrToUl, ToHex, BlankLine;
    var s := DONE_MARKER + CRLF + rest;
    assert ToHex(0) == "0" by { ZeroPrinted(); }
    SizeHasNoCr(0);
    assert s == "0" + CRLF + (CRLF + rest);
    LineOf("0", CRLF + rest);
    assert CRLF + rest == [] + CRLF + rest;
    LineOf([], rest);
    assert [] + CRLF == CRLF;
    CrlfIsBlank();
  }

  lemma ZeroPrinted()
    ensures ToHex(0) == "0"
  {
  }

  /** Reading chunks and a terminator delivers exactly the payloads and stops behind the terminator,
      whatever follows it. */
  lemma {:induction false} BodyRoundTrip(ws: seq<string>, rest: string, fails: bool)
    requires Sendable(ws)
    ensures ReadBody(Chunks(ws) + DONE_MARKER + CRLF + rest, fails) == Reading(true, Join(ws), rest, [])
  {
    hide Chunk, ReadBody;
    var s := Chunks(ws) + DONE_MARKER + CRLF + rest;
    if ws == [] {
      ReadTerminator(rest, fails);
      assert s == DONE_MARKER + CRLF + rest;
    } else {
      var u := Chunks(ws[1..]) + DONE_MARKER + CRLF + rest;
      assert s == Chunk(ws[0]) + u;
      BodyRoundTrip(ws[1..], rest, fails);
      ReadChunk(ws[0], u, fails);
    }
  }

  // ---------------------------------------------------------------- a whole run of the writer

  function AllOps(calls: seq<ProviderCall>): seq<SinkOp> {
    if calls == [] then [] else calls[0].ops + AllOps(calls[1..])
  }

  function Puts(ws: seq<string>): (ops: seq<SinkOp>)
    ensures |ops| == |ws| && forall i | 0 <= i < |ws| :: ops[i] == Put(ws[i])
  {
    seq(|ws|, i requires 0 <= i < |ws| => Put(ws[i]))
  }

  lemma {:induction false} ChunksAppend(ws: seq<string>, w: string)
    ensures Chunks(ws + [w]) == Chunks(ws) + Chunk(w)
  {
    hide Chunk;
    if ws == [] {
      assert [] + [w] == [w];
      assert Chunks([w]) == Chunk(w) + Chunks([]);
    } else {
      assert (ws + [w])[1..] == ws[1..] + [w];
      ChunksAppend(ws[1..], w);
    }
  }

  lemma {:induction false} ChunksConcat(us: seq<string>, vs: seq<string>)
    ensures Chunks(us + vs) == Chunks(us) + Chunks(vs)
  {
    hide Chunk;
    if us == [] {
      assert us + vs == vs;
    } else {
      assert (us + vs)[1..] == us[1..] + vs;
      ChunksConcat(us[1..], vs);
    }
  }

  lemma {:induction false} DoPuts(st: Sunk, ws: seq<string>)
    requires st.available && Sendable(ws)
    ensures DoOps(st, Puts(ws)) == Sunk(st.out + Chunks(ws), true)
  {
    hide Chunk;
    var ops := Puts(ws);
    if ws == [] {
      assert st.out + [] == st.out;
    } else {
      var n := |ws| - 1;
      assert ops[..n] == Puts(ws[..n]) && ops[n] == Put(ws[n]);
      DoPuts(st, ws[..n]);
      assert ws == ws[..n] + [ws[n]];
      ChunksAppend(ws[..n], ws[n]);
      assert st.out + Chunks(ws[..n]) + Chunk(ws[n]) == st.out + Chunks(ws);
    }
  }

  /** However a provider spreads non-empty writes over its calls, up to one final done, the writer emits
      their chunks and the terminator, and ends well. */
  lemma {:induction false} RunEmits(st: Sunk, calls: seq<ProviderCall>, ws: seq<string>)
    requires st.available && Sendable(ws)
    requires AllOps(calls) == Puts(ws) + [Done]
    requires forall i | 0 <= i < |calls| :: calls[i].result
    ensures DoCalls(st, calls) == (Sunk(st.out + Chunks(ws) + DONE_MARKER + CRLF, false), Success)
    decreases |calls|
  {
    hide DoOps, Chunk, Chunks;
    var ops, later := calls[0].ops, AllOps(calls[1..]);
    assert ops + later == Puts(ws) + [Done];
    if |ops| == |ws| + 1 {
      assert ops == (ops + later)[..|ws| + 1];
      assert (Puts(ws) + [Done])[..|ws| + 1] == Puts(ws) + [Done];
      DoPutsAndDone(st, ws);
      assert DoCalls(DoOps(st, ops), calls[1..]).0 == DoOps(st, ops);
    } else {
      var k := |ops|;
      assert k <= |ws| by {
        assert |ops + later| == |ws| + 1;
      }
      assert ops == (Puts(ws) + [Done])[..k] == Puts(ws[..k]);
      assert later == (Puts(ws) + [Done])[k..] == Puts(ws[k..]) + [Done];
      DoPuts(st, ws[..k]);
      RunEmits(DoOps(st, ops), calls[1..], ws[k..]);
      assert ws == ws[..k] + ws[k..];
      ChunksConcat(ws[..k], ws[k..]);
      assert st.out + Chunks(ws[..k]) + Chunks(ws[k..]) == st.out + Chunks(ws);
    }
  }

  lemma DoPutsAndDone(st: Sunk, ws: seq<string>)
    requires st.available && Sendable(ws)
    ensures DoOps(st, Puts(ws) + [Done]) == Sunk(st.out + Chunks(ws) + DONE_MARKER + CRLF, false)
  {
    hide Chunk, Chunks;
    assert (Puts(ws) + [Done])[..|ws|] == Puts(ws);
    DoPuts(st, ws);
  }

  /** The round trip: what a healthy run of the writer emits, the reader delivers. */
  lemma WriterToReader(calls: seq<ProviderCall>, ws: seq<string>, rest: string, fails: bool)
    requires Sendable(ws) && AllOps(calls) == Puts(ws) + [Done]
    requires forall i | 0 <= i < |calls| :: calls[i].result
    ensures
      var (end, outcome) := DoCalls(Sunk([], true), calls);
      outcome == Success && ReadBody(end.out + rest, fails) == Reading(true, Join(ws), rest, [])
  {
    hide *;
    RunEmits(Sunk([], true), calls, ws);
    BodyRoundTrip(ws, rest, fails);
    assert [] + Chunks(ws) == Chunks(ws);
  }

  // ---------------------------------------------------------------- truncation

  lemma {:induction false} HexRunGrows(s: string, val: nat)
    ensures HexRun(s, val) >= val
    ensures s != [] && HexValue(s[0]) > 0 ==> HexRun(s, val) > 0
  {
    hide HexValue;
    if s != [] && HexValue(s[0]) >= 0 {
      HexRunGrows(s[1..], val * 16 + HexValue(s[0]));
    }
  }

  lemma {:induction false} NoLeadingZero(n: nat)
    requires n > 0
    ensures ToHex(n) != [] && HexValue(ToHex(n)[0]) > 0
  {
    HexDigit(n % 16);
    if n >= 16 {
      NoLeadingZero(n / 16);
    }
  }

  /** A size line cut anywhere does not read as the last chunk. */
  lemma CutSize(n: nat, t: string)
    requires n > 0 && t != [] && t <= ToHex(n) + [CR]
    ensures StrToUl(t) != Value(0)
  {
    hide ToHex, HexRun, HexValue;
    var h := ToHex(n);
    NoLeadingZero(n);
    ToHexDigits(n);
    LowerDigits(h);
    assert t[0] == (h + [CR])[0] == h[0];
    assert SkipSpaces(t) == t;
    HexRunGrows(t, 0);
    assert |t| > 1 ==> t[1] == (h + [CR])[1];
  }

  lemma CutData(w: string, t: string, fails: bool)
    requires 0 < |w| < ULONG_MAX && t <= Chunk(w) && t != Chunk(w) && |t| > |ToHex(|w|)| + 1
    ensures !ReadBody(t, fails).ok
  {
    hide LineEnd, StrToUl, ToHex, BlankLine;
    var h := ToHex(|w|);
    var data := t[|h| + 2..];
    SizeHasNoCr(|w|);
    assert t == Chunk(w)[..|t|];
    assert t == h + CRLF + data;
    LineOf(h, data);
    if |data| >= |w| {
      var tail := data[|w|..];
      assert tail == CRLF[..|tail|];
      assert tail == [] || tail == [CR];
      CrlfIsBlank();
      if tail != [] {
        assert tail[..0] == [];
        LastLine(tail);
      }
    }
  }

  lemma CutChunk(w: string, t: string, fails: bool)
    requires 0 < |w| < ULONG_MAX && t <= Chunk(w) && t != Chunk(w)
    ensures !ReadBody(t, fails).ok
  {
    hide LineEnd, StrToUl, ToHex, BlankLine;
    var h, k := ToHex(|w|), |t|;
    SizeHasNoCr(|w|);
    if t == [] {
    } else if k <= |h| + 1 {
      assert t == Chunk(w)[..k] == (h + [CR])[..k];
      CutSize(|w|, t);
      if k <= |h| {
        assert CR !in t;
      } else {
        assert t[..k - 1] == h;
      }
      LastLine(t);
    } else {
      CutData(w, t, fails);
    }
  }

  /** A body cut short anywhere before its terminator is never accepted. */
  lemma {:induction false} TruncationIsDetected(ws: seq<string>, t: string, fails: bool)
    requires Sendable(ws) && t <= Chunks(ws)
    ensures !ReadBody(t, fails).ok
    decreases |ws|
  {
    hide Chunk, ReadBody;
    if ws == [] {
      NothingToRead(fails);
    } else {
      var c := Chunk(ws[0]);
      if |t| < |c| {
        assert t == Chunks(ws)[..|t|] == c[..|t|];
        CutChunk(ws[0], t, fails);
      } else {
        var u := t[|c|..];
        assert t == c + u by {
          assert t[..|c|] == Chunks(ws)[..|c|] == c;
        }
        assert u == Chunks(ws)[|c|..|t|] == Chunks(ws[1..])[..|u|];
        ReadChunk(ws[0], u, fails);
        TruncationIsDetected(ws[1..], u, fails);
      }
    }
  }

  lemma NothingToRead(fails: bool)
    ensures !ReadBody([], fails).ok && ReadBody([], fails).body == []
  {
  }

  /** A provider call that ends in an empty write ends the run without a terminator: the writer reports
      success, and what it wrote is never accepted as a whole body. */
  lemma EmptyWriteTruncates(first: ProviderCall, later: seq<ProviderCall>, ws: seq<string>, fails: bool)
    requires Sendable(ws) && first.ops == Puts(ws) + [Put([])] && first.result
    ensures
      var (end, outcome) := DoCalls(Sunk([], true), [first] + later);
      outcome == Success && end == Sunk(Chunks(ws), false) && !ReadBody(end.out, fails).ok
  {
    hide Chunks, ToHex, ReadBody;
    var st := Sunk([], true);
    assert (Puts(ws) + [Put([])])[..|ws|] == Puts(ws);
    DoPuts(st, ws);
    assert [] + Chunks(ws) == Chunks(ws) && Chunks(ws) + [] == Chunks(ws);
    assert DoOps(st, first.ops) == Sunk(Chunks(ws), false);
    assert ([first] + later)[1..] == later;
    TruncationIsDetected(ws, Chunks(ws), fails);
  }

  // ---------------------------------------------------------------- exactly which runs are complete

  /** The operations a run carries out: all those of every call that is made. */
  function Executed(st: Sunk, calls: seq<ProviderCall>): seq<SinkOp>
    decreases calls
  {
    if !st.available || calls == [] then []
    else if !calls[0].result then calls[0].ops
    else calls[0].ops + Executed(DoOps(st, calls[0].ops), calls[1..])
  }

  /** No payload of the size that the reader takes for out of range, or above. */
  predicate Announceable(ops: seq<SinkOp>) { forall i | 0 <= i < |ops| && ops[i].Put? :: |ops[i].data| < ULONG_MAX }

  function OpText(op: SinkOp): string {
    match op
    case Put(data) => Chunk(data)
    case Done => DONE_MARKER + CRLF
  }

  function OpsText(ops: seq<SinkOp>): string {
    if ops == [] then [] else OpText(ops[0]) + OpsText(ops[1..])
  }

  /** The payloads before the first done. */
  function Payload(ops: seq<SinkOp>): string {
    if ops == [] || ops[0].Done? then [] else ops[0].data + Payload(ops[1..])
  }

  /** The operations behind the first done. */
  function Behind(ops: seq<SinkOp>): seq<SinkOp> {
    if ops == [] then [] else if ops[0].Done? then ops[1..] else Behind(ops[1..])
  }

  lemma {:induction false} OpsTextAppend(a: seq<SinkOp>, b: seq<SinkOp>)
    ensures OpsText(a + b) == OpsText(a) + OpsText(b)
  {
    hide OpText;
    if a == [] {
      assert a + b == b;
    } else {
      assert (a + b)[1..] == a[1..] + b;
      OpsTextAppend(a[1..], b);
    }
  }

  lemma {:induction false} DoOpsText(st: Sunk, ops: seq<SinkOp>)
    ensures DoOps(st, ops).out == st.out + OpsText(ops)
  {
    hide Chunk;
    if ops != [] {
      var n := |ops| - 1;
      DoOpsText(st, ops[..n]);
      assert ops == ops[..n] + [ops[n]];
      OpsTextAppend(ops[..n], [ops[n]]);
      OneOpText(ops[n]);
      Associates(st.out, OpsText(ops[..n]), OpText(ops[n]));
    }
  }

  lemma OneOpText(op: SinkOp)
    ensures OpsText([op]) == OpText(op)
  {
    assert [op][1..] == [];
  }

  lemma {:induction false} DoCallsText(st: Sunk, calls: seq<ProviderCall>)
    ensures DoCalls(st, calls).0.out == st.out + OpsText(Executed(st, calls))
    decreases calls
  {
    hide DoOps, OpText;
    if st.available && calls != [] {
      var ops := calls[0].ops;
      DoOpsText(st, ops);
      if calls[0].result {
        DoCallsText(DoOps(st, ops), calls[1..]);
        OpsTextAppend(ops, Executed(DoOps(st, ops), calls[1..]));
        Associates(st.out, OpsText(ops), OpsText(Executed(DoOps(st, ops), calls[1..])));
      }
    }
  }

  lemma Associates(a: string, b: string, c: string)
    ensures (a + b) + c == a + (b + c)
  {
  }

  /** What the reader makes of any operations whatever: with a done among them it accepts the payloads before the
      first one and stops behind it; without one it delivers the payloads and refuses. */
  lemma {:induction false} ReadOps(ops: seq<SinkOp>, more: string, fails: bool)
    requires Announceable(ops) && (Done in ops || more == [])
    ensures
      var r := ReadBody(OpsText(ops) + more, fails);
      && (r.ok <==> Done in ops)
      && r.body == Payload(ops)
      && (Done in ops ==> r.rest == OpsText(Behind(ops)) + more && r.trailers == [])
  {
    hide Chunk, ReadBody;
    if ops == [] {
      NothingToRead(fails);
      assert OpsText(ops) + more == [];
    } else {
      var rest := OpsText(ops[1..]) + more;
      assert OpsText(ops) + more == OpText(ops[0]) + rest;
      if ops[0].Done? {
        ReadTerminator(rest, fails);
      } else {
        assert Done in ops <==> Done in ops[1..];
        ReadOps(ops[1..], more, fails);
        ReadPayload(ops[0].data, rest, fails);
      }
    }
  }

  lemma ReadPayload(data: string, rest: string, fails: bool)
    requires |data| < ULONG_MAX
    ensures ReadBody(Chunk(data) + rest, fails) == Ahead(data, ReadBody(rest, fails))
  {
    hide ReadBody, ToHex;
    if data == [] {
      assert Chunk(data) + rest == rest;
      assert [] + ReadBody(rest, fails).body == ReadBody(rest, fails).body;
    } else {
      ReadChunk(data, rest, fails);
    }
  }

  /** The exact condition: whatever a content provider does, call by call, the reader accepts what the run of the
      writer emitted if and only if done is among the operations carried out, and then it delivers exactly the
      payloads before the first done. */
  lemma RunIsComplete(calls: seq<ProviderCall>, fails: bool)
    requires Announceable(Executed(Sunk([], true), calls))
    ensures
      var ops := Executed(Sunk([], true), calls);
      var r := ReadBody(DoCalls(Sunk([], true), calls).0.out, fails);
      && (r.ok <==> Done in ops)
      && r.body == Payload(ops)
      && (r.ok ==> r.rest == OpsText(Behind(ops)))
  {
    hide *;
    var ops := Executed(Sunk([], true), calls);
    DoCallsText(Sunk([], true), calls);
    ReadOps(ops, [], fails);
    assert [] + OpsText(ops) == OpsText(ops) && OpsText(ops) + [] == OpsText(ops);
    assert OpsText(Behind(ops)) + [] == OpsText(Behind(ops));
  }
}
