/** The incremental multipart/form-data parser of httplib.h as a state machine over its unconsumed bytes. */
module MultipartModel {
  import opened HeaderFields
  import opened LineReader

  const DASH := "--"

  function DashBoundaryCrlf(boundary: string): (d: string)
    ensures |d| >= 4
  {
    DASH + boundary + CRLF
  }

  function CrlfDashBoundary(boundary: string): (d: string)
    ensures |d| >= 4 && d[0] == '\r' && d[1] == '\n'
  {
    CRLF + DASH + boundary
  }

  // ---------------------------------------------------------------- searching

  predicate Occurs(t: string, s: string, i: nat) { i + |s| <= |t| && t[i..i + |s|] == s }

  /** buf_find: where s occurs first in t, the length of t if it does not occur. */
  function Seek(t: string, s: string): (k: nat)
    requires s != []
    ensures k <= |t| && (k < |t| ==> Occurs(t, s, k))
  {
    if |t| < |s| then |t|
    else if t[..|s|] == s then 0
    else
      var k := 1 + Seek(t[1..], s);
      OccursInTail(t, s, k);
      k
  }

  lemma OccursInTail(t: string, s: string, k: nat)
    requires t != [] && k > 0
    ensures Occurs(t, s, k) <==> Occurs(t[1..], s, k - 1)
  {
    if k + |s| <= |t| {
      assert t[1..][k - 1..k - 1 + |s|] == t[k..k + |s|];
    }
  }

  lemma {:induction false} SeekIsFirst(t: string, s: string)
    requires s != []
    ensures forall i: nat | i < Seek(t, s) :: !Occurs(t, s, i)
    ensures Seek(t, s) == |t| ==> forall i: nat :: !Occurs(t, s, i)
  {
    if |t| >= |s| && t[..|s|] != s {
      SeekIsFirst(t[1..], s);
      forall i: nat | i > 0 && Occurs(t, s, i) ensures Occurs(t[1..], s, i - 1) {
        OccursInTail(t, s, i);
      }
      assert t[0..|s|] == t[..|s|];
    }
  }

  lemma SeekIs(t: string, s: string, k: nat)
    requires s != [] && Occurs(t, s, k) && forall i: nat | i < k :: !Occurs(t, s, i)
    ensures Seek(t, s) == k
  {
    hide Seek;
    SeekIsFirst(t, s);
    var f := Seek(t, s);
    assert f == |t| || Occurs(t, s, f);
  }

  lemma SeekFails(t: string, s: string)
    requires s != [] && forall i: nat | i < |t| :: !Occurs(t, s, i)
    ensures Seek(t, s) == |t|
  {
  }

  // ---------------------------------------------------------------- the state machine

  /** The states 0 to 4. */
  datatype State = Preamble | NewEntry | Headers | Body | Boundary

  /** pending: the bytes in the buffer; items: the parts handed over by the callbacks so far. */
  datatype Parser = Parser(state: State, valid: bool, file: FormItem, pending: string, items: seq<FormItem>)

  /** One turn of the loop in parse: it goes on, or parse returns. */
  datatype Turn = More(p: Parser) | Stop(p: Parser, ok: bool)

  const INITIAL := Parser(Preamble, false, CLEARED, [], [])

  /** What the content callback does to the parts received so far. */
  function AddContent(items: seq<FormItem>, data: string): (r: seq<FormItem>)
    ensures |r| == |items|
  {
    if items == [] then [] else
      var n := |items| - 1;
      items[n := items[n].(content := items[n].content + data)]
  }

  function PreambleTurn(p: Parser, boundary: string): Turn {
    var d := DashBoundaryCrlf(boundary);
    var rest := p.pending[Seek(p.pending, d)..];
    if |d| > |rest| then Stop(p.(pending := rest), true)
    else if !(d <= rest) then Stop(p.(pending := rest), false)
    else More(p.(pending := rest[|d|..], state := NewEntry))
  }

  function HeaderTurn(p: Parser): (t: Turn)
    ensures t.More? ==> |t.p.pending| < |p.pending|
    decreases |p.pending|
  {
    var pos := Seek(p.pending, CRLF);
    if pos >= |p.pending| then Stop(p, true)
    else if pos == 0 then More(p.(pending := p.pending[|CRLF|..], state := Body, items := p.items + [p.file]))
    else
      var (file, ok) := TakeHeader(p.file, p.pending[..pos]);
      if !ok then Stop(p.(file := file, valid := false), false)
      else HeaderTurn(p.(file := file, pending := p.pending[pos + |CRLF|..]))
  }

  lemma NoLineYet(p: Parser)
    requires Seek(p.pending, CRLF) == |p.pending|
    ensures HeaderTurn(p) == Stop(p, true)
  {
  }

  lemma EmptyLine(p: Parser)
    requires Seek(p.pending, CRLF) == 0 < |p.pending|
    ensures |p.pending| >= 2
    ensures HeaderTurn(p) == More(p.(pending := p.pending[2..], state := Body, items := p.items + [p.file]))
  {
    hide Seek;
  }

  lemma HeaderLine(p: Parser)
    requires 0 < Seek(p.pending, CRLF) < |p.pending|
    ensures
      var pos := Seek(p.pending, CRLF);
      var taken := TakeHeader(p.file, p.pending[..pos]);
      && pos + 2 <= |p.pending|
      && HeaderTurn(p) == if taken.1 then HeaderTurn(p.(file := taken.0, pending := p.pending[pos + 2..]))
                          else Stop(p.(file := taken.0, valid := false), false)
  {
    hide Seek, TakeHeader;
  }

  lemma HeaderTurnIs(p: Parser)
    ensures Seek(p.pending, CRLF) == |p.pending| ==> HeaderTurn(p) == Stop(p, true)
    ensures Seek(p.pending, CRLF) == 0 < |p.pending| ==>
              |p.pending| >= 2
              && HeaderTurn(p) == More(p.(pending := p.pending[2..], state := Body, items := p.items + [p.file]))
    ensures 0 < Seek(p.pending, CRLF) < |p.pending| ==>
              var pos := Seek(p.pending, CRLF);
              var taken := TakeHeader(p.file, p.pending[..pos]);
              && pos + 2 <= |p.pending|
              && HeaderTurn(p) == if taken.1 then HeaderTurn(p.(file := taken.0, pending := p.pending[pos + 2..]))
                                  else Stop(p.(file := taken.0, valid := false), false)
  {
    hide HeaderTurn, Seek, TakeHeader;
    var pos := Seek(p.pending, CRLF);
    if pos == |p.pending| {
      NoLineYet(p);
    } else if pos == 0 {
      EmptyLine(p);
    } else {
      HeaderLine(p);
    }
  }

  function HeadersTurn(p: Parser): (t: Turn)
    ensures t.More? ==> |t.p.pending| < |p.pending|
  {
    if Seek(p.pending, CRLF) > HEADER_MAX_LENGTH then Stop(p, false) else HeaderTurn(p)
  }

  function BodyTurn(p: Parser, boundary: string): Turn {
    var d := CrlfDashBoundary(boundary);
    if |d| > |p.pending| then Stop(p, true) else
      var pos := Seek(p.pending, d);
      if pos < |p.pending| then
        More(p.(items := AddContent(p.items, p.pending[..pos]), pending := p.pending[pos + |d|..], state := Boundary))
      else
        var len := |p.pending| - |d|;
        if len > 0 then Stop(p.(items := AddContent(p.items, p.pending[..len]), pending := p.pending[len..]), true)
        else Stop(p, true)
  }

  function BoundaryTurn(p: Parser): Turn {
    if |CRLF| > |p.pending| then Stop(p, true)
    else if CRLF <= p.pending then More(p.(pending := p.pending[|CRLF|..], state := NewEntry))
    else if |DASH| > |p.pending| then Stop(p, true)
    else if DASH <= p.pending then More(p.(pending := [], valid := true))
    else Stop(p, true)
  }

  function Step(p: Parser, boundary: string): (t: Turn)
    requires p.pending != []
    ensures t.More? ==>
              |t.p.pending| < |p.pending| || (t.p.pending == p.pending && p.state.NewEntry? && !t.p.state.NewEntry?)
  {
    match p.state
    case Preamble => PreambleTurn(p, boundary)
    case NewEntry => More(p.(file := p.file.(name := "", filename := "", contentType := ""), state := Headers))
    case Headers => HeadersTurn(p)
    case Body => BodyTurn(p, boundary)
    case Boundary => BoundaryTurn(p)
  }

  /** The loop of parse. */
  function Loop(p: Parser, boundary: string): (Parser, bool)
    decreases |p.pending|, p.state.NewEntry?
  {
    if p.pending == [] then (p, true)
    else
      match Step(p, boundary)
      case Stop(q, ok) => (q, ok)
      case More(q) => Loop(q, boundary)
  }

  /** One call of parse. */
  function Feed(p: Parser, boundary: string, data: string): (Parser, bool) {
    Loop(p.(pending := p.pending + data), boundary)
  }

  /** The calls of parse for the pieces of a body, up to the first that fails. */
  function FeedAll(p: Parser, boundary: string, pieces: seq<string>): (Parser, bool)
    decreases pieces
  {
    if pieces == [] then (p, true)
    else
      var (q, ok) := Feed(p, boundary, pieces[0]);
      if !ok then (q, false) else FeedAll(q, boundary, pieces[1..])
  }
}
