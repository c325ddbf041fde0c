/** Writing a chunked body: write_data and write_content_chunked of httplib.h, with the compressor that
    changes nothing and without trailers. */
module ChunkedWriter {
  import opened ChunkSize
  import opened LineReader

  /** Where the bytes go. A healthy stream takes at least one byte of every write; any other may fail. */
  class OutStream {
    var written: string
    const healthy: bool

    constructor (healthy: bool)
      ensures written == [] && this.healthy == healthy
    {
      written, this.healthy := [], healthy;
    }

    method Write(bytes: string) returns (n: int)
      requires bytes != []
      modifies this
      ensures n <= |bytes| && (n < 0 || n > 0)
      ensures n < 0 ==> written == old(written)
      ensures n > 0 ==> written == old(written) + bytes[..n]
      ensures healthy ==> n > 0
    {
      var failing := *;
      if failing && !healthy {
        return -1;
      }
      var k :| 1 <= k <= |bytes|;
      written, n := written + bytes[..k], k;
    }

    method IsWritable() returns (b: bool)
      ensures healthy ==> b
    {
      b := *;
      b := b || healthy;
    }
  }

  method WriteData(strm: OutStream, d: string) returns (ok: bool)
    modifies strm
    ensures ok ==> strm.written == old(strm.written) + d
    ensures old(strm.written) <= strm.written <= old(strm.written) + d
    ensures strm.healthy ==> ok
  {
    var offset := 0;
    ghost var before := strm.written;
    while offset < |d|
      invariant 0 <= offset <= |d|
      invariant strm.written == before + d[..offset]
    {
      var length := strm.Write(d[offset..]);
      if length < 0 {
        assert before + d[..offset] <= before + d;
        return false;
      }
      assert d[..offset + length] == d[..offset] + d[offset..][..length];
      offset := offset + length;
    }
    assert d[..offset] == d;
    return true;
  }

  // ---------------------------------------------------------------- what a run writes

  /** One chunk: nothing for an empty payload. */
  function Chunk(payload: string): string {
    if payload == [] then [] else ToHex(|payload|) + CRLF + payload + CRLF
  }

  const DONE_MARKER := "0\r\n"

  /** What a content provider does with the sink, and how it returns. */
  datatype SinkOp = Put(data: string) | Done
  datatype ProviderCall = ProviderCall(ops: seq<SinkOp>, result: bool)
  datatype Outcome = Success | WriteError | Canceled

  datatype Sunk = Sunk(out: string, available: bool)

  function DoOp(st: Sunk, op: SinkOp): Sunk {
    match op
    case Put(data) => Sunk(st.out + Chunk(data), data != [])
    case Done => Sunk(st.out + DONE_MARKER + CRLF, false)
  }

  function DoOps(st: Sunk, ops: seq<SinkOp>): Sunk {
    if ops == [] then st else DoOp(DoOps(st, ops[..|ops| - 1]), ops[|ops| - 1])
  }

  /** The loop of write_content_chunked: the provider is called while it has data and the server runs. */
  function DoCalls(st: Sunk, calls: seq<ProviderCall>): (Sunk, Outcome)
    decreases calls
  {
    if !st.available || calls == [] then (st, Success)
    else if !calls[0].result then (DoOps(st, calls[0].ops), Canceled)
    else DoCalls(DoOps(st, calls[0].ops), calls[1..])
  }

  class DataSink {
    const strm: OutStream
    var offset: nat
    var dataAvailable: bool
    var ok: bool

    constructor (strm: OutStream)
      ensures this.strm == strm && offset == 0 && dataAvailable && ok
    {
      this.strm, offset, dataAvailable, ok := strm, 0, true, true;
    }

    function State(): Sunk
      reads this, strm
    {
      Sunk(strm.written, dataAvailable)
    }

    method Write(data: string) returns (r: bool)
      modifies this, strm
      ensures r == ok && (ok ==> old(ok)) && (old(ok) && strm.healthy ==> ok)
      ensures ok ==> State() == DoOp(old(State()), Put(data))
      ensures old(ok) ==> offset == old(offset) + |data|
    {
      hide ToHex;
      if ok {
        dataAvailable := |data| > 0;
        offset := offset + |data|;
        var payload := data;
        if payload != [] {
          var size := FromIToHex(|payload|);
          var chunk := size + CRLF + payload + CRLF;
          var writable := strm.IsWritable();
          if !writable {
            ok := false;
          } else {
            ok := WriteData(strm, chunk);
          }
        }
      }
      r := ok;
    }

    method Finish()
      modifies this, strm
      ensures (ok ==> old(ok)) && (old(ok) && strm.healthy ==> ok)
      ensures ok ==> State() == DoOp(old(State()), Done)
      ensures offset == old(offset)
    {
      if !ok {
        return;
      }
      dataAvailable := false;
      var marked := WriteData(strm, DONE_MARKER);
      if !marked {
        ok := false;
      }
      var ended := WriteData(strm, CRLF);
      if !ended {
        ok := false;
      }
    }

    /** A content provider working through its operations. */
    method Provide(ops: seq<SinkOp>)
      modifies this, strm
      ensures (ok ==> old(ok)) && (old(ok) && strm.healthy ==> ok)
      ensures ok ==> State() == DoOps(old(State()), ops)
    {
      hide DoOp;
      ghost var st := State();
      for i := 0 to |ops|
        invariant (ok ==> old(ok)) && (old(ok) && strm.healthy ==> ok)
        invariant ok ==> State() == DoOps(st, ops[..i])
      {
        assert ops[..i + 1][..i] == ops[..i];
        match ops[i] {
          case Put(data) =>
            var accepted := Write(data);
          case Done =>
            Finish();
        }
      }
      assert ops[..|ops|] == ops;
    }
  }

  /** write_content_chunked. Shutting down is asked for when the calls are used up. */
  method WriteContentChunked(strm: OutStream, calls: seq<ProviderCall>) returns (error: Outcome)
    modifies strm
    ensures
      var (end, outcome) := DoCalls(Sunk(old(strm.written), true), calls);
      strm.healthy || error == Success ==> strm.written == end.out && error == outcome
  {
    hide DoOps;
    var sink := new DataSink(strm);
    var i := 0;
    ghost var start := sink.State();
    while sink.dataAvailable && i < |calls|
      invariant 0 <= i <= |calls| && sink.strm == strm && sink.ok
      invariant DoCalls(start, calls) == DoCalls(sink.State(), calls[i..])
    {
      var writable := strm.IsWritable();
      if !writable {
        return WriteError;
      }
      assert calls[i..][0] == calls[i] && calls[i..][1..] == calls[i + 1..];
      sink.Provide(calls[i].ops);
      if !calls[i].result {
        return Canceled;
      } else if !sink.ok {
        return WriteError;
      }
      i := i + 1;
    }
    return Success;
  }
}
