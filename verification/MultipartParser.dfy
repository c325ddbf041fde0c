/** MultipartFormDataParser of httplib.h: a buffer with a start and an end position, and the loop of parse. */
module MultipartParser {
  import opened HeaderFields
  import opened LineReader
  import opened MultipartModel

  /** The callbacks: the parts they have been given. They may refuse unless they are patient. */
  class PartReceiver {
    var items: seq<FormItem>
    const patient: bool

    constructor (patient: bool)
      ensures items == [] && this.patient == patient
    {
      items, this.patient := [], patient;
    }

    method OnHeader(file: FormItem) returns (ok: bool)
      modifies this
      ensures items == old(items) + [file]
      ensures patient ==> ok
    {
      items := items + [file];
      ok := *;
      ok := ok || patient;
    }

    method OnContent(data: string) returns (ok: bool)
      modifies this
      ensures items == AddContent(old(items), data)
      ensures patient ==> ok
    {
      items := AddContent(items, data);
      ok := *;
      ok := ok || patient;
    }
  }

  class MultipartFormDataParser {
    const boundary: string
    var state: State
    var isValid: bool
    var file: FormItem

    var buf: seq<char>
    var bufSpos: nat
    var bufEpos: nat

    ghost predicate Valid()
      reads this
    {
      bufSpos <= bufEpos <= |buf|
    }

    /** The bytes between the two positions. */
    function Pending(): string
      requires Valid()
      reads this
    {
      buf[bufSpos..bufEpos]
    }

    function Abs(handler: PartReceiver): Parser
      requires Valid()
      reads this, handler
    {
      Parser(state, isValid, file, Pending(), handler.items)
    }

    constructor (boundary: string)
      ensures Valid() && this.boundary == boundary
      ensures state == Preamble && !isValid && file == CLEARED && Pending() == []
    {
      this.boundary := boundary;
      state, isValid, file := Preamble, false, CLEARED;
      buf, bufSpos, bufEpos := [], 0, 0;
    }

    // -------------------------------------------------------------- the buffer

    function BufSize(): nat
      requires Valid()
      reads this
    {
      bufEpos - bufSpos
    }

    method StartWith(a: string, spos: nat, epos: nat, b: string) returns (r: bool)
      requires spos <= epos <= |a|
      ensures r == (b <= a[spos..epos])
    {
      if epos - spos < |b| {
        return false;
      }
      for i := 0 to |b|
        invariant forall j | 0 <= j < i :: a[j + spos] == b[j]
      {
        if a[i + spos] != b[i] {
          assert a[spos..epos][i] != b[i];
          return false;
        }
      }
      assert forall j | 0 <= j < |b| :: a[spos..epos][j] == a[j + spos];
      return true;
    }

    /** buf_find: look for the first byte of s, then compare the rest. */
    method BufFind(s: string) returns (k: nat)
      requires Valid() && s != []
      ensures k == Seek(Pending(), s)
    {
      hide Seek, Occurs, NoneBefore;
      var c := s[0];
      var off := bufSpos;
      ghost var t := Pending();
      NoneBeforeStart(t, s);
      while off < bufEpos
        invariant bufSpos <= off <= bufEpos
        invariant NoneBefore(t, s, off - bufSpos)
      {
        var pos := off;
        while true
          invariant off <= pos <= bufEpos
          invariant NoneBefore(t, s, pos - bufSpos)
          decreases bufEpos - pos
        {
          if pos == bufEpos {
            NoneInRest(t, s, pos - bufSpos);
            return BufSize();
          }
          if buf[pos] == c {
            break;
          }
          OccursStarts(t, s, pos - bufSpos);
          NoneBeforeNext(t, s, pos - bufSpos);
          pos := pos + 1;
        }
        var remainingSize := bufEpos - pos;
        if |s| > remainingSize {
          NoneInRest(t, s, pos - bufSpos);
          return BufSize();
        }
        var here := StartWith(buf, pos, bufEpos, s);
        assert t[pos - bufSpos..] == buf[pos..bufEpos];
        OccursAt(t, s, pos - bufSpos);
        if here {
          FoundAt(t, s, pos - bufSpos);
          return pos - bufSpos;
        }
        NoneBeforeNext(t, s, pos - bufSpos);
        off := pos + 1;
      }
      NoneInRest(t, s, bufEpos - bufSpos);
      return BufSize();
    }

    /** The first half of buf_append: what is pending moves to the front of the buffer. */
    method Compact()
      requires Valid()
      modifies this`buf, this`bufSpos, this`bufEpos
      ensures Valid() && Pending() == old(Pending()) && bufSpos == 0
    {
      ghost var t := Pending();
      var remainingSize := BufSize();
      if remainingSize > 0 && bufSpos > 0 {
        for i := 0 to remainingSize
          invariant bufSpos == old(bufSpos) && bufEpos == old(bufEpos) <= |buf|
          invariant buf[..i] == t[..i] && buf[bufSpos + i..bufEpos] == t[i..]
        {
          assert buf[bufSpos + i] == t[i..][0] == t[i];
          buf := buf[i := buf[bufSpos + i]];
          assert t[i..][1..] == t[i + 1..];
        }
      }
      bufSpos := 0;
      bufEpos := remainingSize;
      assert buf[..remainingSize] == t;
    }

    /** buf_append: the new bytes go behind the pending ones. */
    method BufAppend(data: string)
      requires Valid()
      modifies this`buf, this`bufSpos, this`bufEpos
      ensures Valid() && Pending() == old(Pending()) + data
    {
      ghost var t := Pending();
      Compact();
      if bufEpos + |data| > |buf| {
        buf := buf + seq(bufEpos + |data| - |buf|, _ => '\0');
      }
      ghost var end := bufEpos;
      for i := 0 to |data|
        invariant bufSpos == 0 && bufEpos == end && bufEpos + |data| <= |buf|
        invariant buf[..bufEpos + i] == t + data[..i]
      {
        buf := buf[bufEpos + i := data[i]];
        assert buf[..bufEpos + i + 1] == buf[..bufEpos + i] + [data[i]];
      }
      bufEpos := bufEpos + |data|;
      assert data[..|data|] == data;
    }

    method BufErase(size: nat)
      requires Valid() && size <= BufSize()
      modifies this`bufSpos
      ensures Valid() && Pending() == old(Pending())[size..]
    {
      bufSpos := bufSpos + size;
    }

    // -------------------------------------------------------------- the cases of parse

    /** What a case does: the loop goes on, or parse returns. The callbacks may have refused. */
    ghost predicate Answers(verdict: Verdict, handler: PartReceiver, t: Turn)
      requires Valid()
      reads this, handler
    {
      match verdict
      case Continue => t == More(Abs(handler))
      case Return(ok) => (ok || handler.patient) ==> t == Stop(Abs(handler), ok)
    }

    method InitialBoundary(handler: PartReceiver) returns (v: Verdict)
      requires Valid()
      modifies this
      ensures Valid() && Answers(v, handler, PreambleTurn(old(Abs(handler)), boundary))
    {
      hide Seek, Occurs, DashBoundaryCrlf, PreambleTurn;
      var d := DashBoundaryCrlf(boundary);
      PreambleTurnIs(Abs(handler), boundary);
      var pos := BufFind(d);
      BufErase(pos);
      if |d| > BufSize() {
        return Return(true);
      }
      var here := StartWith(buf, bufSpos, bufEpos, d);
      if !here {
        return Return(false);
      }
      BufErase(|d|);
      state := NewEntry;
      return Continue;
    }

    method ReadHeaders(handler: PartReceiver) returns (v: Verdict)
      requires Valid() && state.Headers?
      modifies this, handler
      ensures Valid() && Answers(v, handler, HeadersTurn(old(Abs(handler))))
    {
      hide Seek, TakeHeader, HeaderTurn, Occurs, HeadersTurn;
      ghost var start := Abs(handler);
      HeadersTurnIs(start);
      var pos := BufFind(CRLF);
      if pos > HEADER_MAX_LENGTH {
        return Return(false);
      }
      while pos < BufSize()
        invariant Valid() && state.Headers? && handler.items == start.items
        invariant pos == Seek(Pending(), CRLF)
        invariant HeaderTurn(start) == HeaderTurn(Abs(handler))
        decreases |Pending()|
      {
        ghost var now := Abs(handler);
        if pos == 0 {
          EmptyLine(now);
          var accepted := handler.OnHeader(file);
          if !accepted {
            isValid := false;
            return Return(false);
          }
          BufErase(|CRLF|);
          state := Body;
          return Continue;
        }
        HeaderLine(now);
        var header := Pending()[..pos];
        var ok;
        file, ok := HandleHeader(file, header);
        if !ok {
          isValid := false;
          return Return(false);
        }
        BufErase(pos + |CRLF|);
        pos := BufFind(CRLF);
      }
      NoLineYet(Abs(handler));
      return Return(true);
    }

    method ReadBody(handler: PartReceiver) returns (v: Verdict)
      requires Valid() && state.Body?
      modifies this, handler
      ensures Valid() && Answers(v, handler, BodyTurn(old(Abs(handler)), boundary))
    {
      hide Seek, AddContent;
      var d := CrlfDashBoundary(boundary);
      if |d| > BufSize() {
        return Return(true);
      }
      var pos := BufFind(d);
      if pos < BufSize() {
        var accepted := handler.OnContent(Pending()[..pos]);
        if !accepted {
          isValid := false;
          return Return(false);
        }
        BufErase(pos + |d|);
        state := Boundary;
        return Continue;
      }
      var len := BufSize() - |d|;
      if len > 0 {
        var accepted := handler.OnContent(Pending()[..len]);
        if !accepted {
          isValid := false;
          return Return(false);
        }
        BufErase(len);
      }
      return Return(true);
    }

    method ReadBoundary(handler: PartReceiver) returns (v: Verdict)
      requires Valid() && state.Boundary?
      modifies this
      ensures Valid() && Answers(v, handler, BoundaryTurn(old(Abs(handler))))
    {
      if |CRLF| > BufSize() {
        return Return(true);
      }
      var here := StartWith(buf, bufSpos, bufEpos, CRLF);
      if here {
        BufErase(|CRLF|);
        state := NewEntry;
        return Continue;
      }
      if |DASH| > BufSize() {
        return Return(true);
      }
      here := StartWith(buf, bufSpos, bufEpos, DASH);
      if !here {
        return Return(true);
      }
      BufErase(|DASH|);
      isValid := true;
      BufErase(BufSize());
      return Continue;
    }

    /** parse: what Feed says, unless a callback refuses. */
    method Parse(data: string, handler: PartReceiver) returns (ok: bool)
      requires Valid()
      modifies this, handler
      ensures Valid()
      ensures ok || handler.patient ==> (Abs(handler), ok) == Feed(old(Abs(handler)), boundary, data)
    {
      hide PreambleTurn, HeadersTurn, BodyTurn, BoundaryTurn;
      BufAppend(data);
      ghost var start := Abs(handler);
      while BufSize() > 0
        invariant Valid() && Loop(start, boundary) == Loop(Abs(handler), boundary)
        decreases BufSize(), state.NewEntry?
      {
        ghost var p := Abs(handler);
        var v: Verdict;
        match state {
          case Preamble =>
            v := InitialBoundary(handler);
          case NewEntry =>
            file := file.(name := "", filename := "", contentType := "");
            state := Headers;
            v := Continue;
          case Headers =>
            v := ReadHeaders(handler);
          case Body =>
            v := ReadBody(handler);
          case Boundary =>
            v := ReadBoundary(handler);
        }
        assert Answers(v, handler, Step(p, boundary));
        if v.Return? {
          return v.ok;
        }
      }
      return true;
    }
  }

  datatype Verdict = Continue | Return(ok: bool)

  lemma PreambleTurnIs(p: Parser, boundary: string)
    ensures
      var d := DashBoundaryCrlf(boundary);
      var rest := p.pending[Seek(p.pending, d)..];
      && (|d| > |rest| ==> PreambleTurn(p, boundary) == Stop(p.(pending := rest), true))
      && (|d| <= |rest| && !(d <= rest) ==> PreambleTurn(p, boundary) == Stop(p.(pending := rest), false))
      && (d <= rest ==> PreambleTurn(p, boundary) == More(p.(pending := rest[|d|..], state := NewEntry)))
  {
    hide Seek, DashBoundaryCrlf;
  }

  lemma HeadersTurnIs(p: Parser)
    ensures HeadersTurn(p) == if Seek(p.pending, CRLF) > HEADER_MAX_LENGTH then Stop(p, false) else HeaderTurn(p)
  {
    hide Seek, HeaderTurn;
  }

  predicate NoneBefore(t: string, s: string, n: nat) { forall i: nat | i < n :: !Occurs(t, s, i) }

  lemma NoneBeforeStart(t: string, s: string)
    ensures NoneBefore(t, s, 0)
  {
  }

  lemma NoneBeforeNext(t: string, s: string, n: nat)
    requires NoneBefore(t, s, n) && !Occurs(t, s, n)
    ensures NoneBefore(t, s, n + 1)
  {
    hide Occurs;
  }

  lemma NoneInRest(t: string, s: string, n: nat)
    requires s != [] && NoneBefore(t, s, n) && |t| < n + |s|
    ensures Seek(t, s) == |t|
  {
    hide Seek;
    SeekFails(t, s);
  }

  lemma FoundAt(t: string, s: string, n: nat)
    requires s != [] && NoneBefore(t, s, n) && Occurs(t, s, n)
    ensures Seek(t, s) == n
  {
    hide Occurs;
    SeekIs(t, s, n);
  }

  lemma OccursStarts(t: string, s: string, i: nat)
    requires i < |t| && s != [] && t[i] != s[0]
    ensures !Occurs(t, s, i)
  {
  }

  lemma OccursAt(t: string, s: string, i: nat)
    requires i <= |t|
    ensures Occurs(t, s, i) <==> s <= t[i..]
  {
  }
}
