/** The round trip of a multipart body through the incremental parser, for every split of its bytes. */
module MultipartRoundTrip {
  import opened FormHeaders
  import opened HeaderFields
  import opened LineReader
  import opened Multipart
  import opened MultipartBody
  import opened MultipartModel

  // ---------------------------------------------------------------- what a body must look like

  predicate GoodLine(h: string) { h != [] && '\r' !in h && |h| < HEADER_MAX_LENGTH }

  function HeaderLines(item: FormItem): seq<string> {
    [DispositionLine(item)] + if item.contentType == [] then [] else [TypeLine(item)]
  }

  ghost predicate SafeItem(item: FormItem, boundary: string) {
    && SafeName(item.name) && SafeName(item.filename) && SafeType(item.contentType)
    && (forall i | 0 <= i < |HeaderLines(item)| :: |HeaderLines(item)[i]| < HEADER_MAX_LENGTH)
    && (forall i: nat :: !Occurs(item.content, CrlfDashBoundary(boundary), i))
  }

  ghost predicate SafeItems(items: seq<FormItem>, boundary: string) {
    '\r' !in boundary && forall i | 0 <= i < |items| :: SafeItem(items[i], boundary)
  }

  function JoinLines(hs: seq<string>): string {
    if hs == [] then [] else hs[0] + CRLF + JoinLines(hs[1..])
  }

  /** Reading header lines one after the other. */
  function ReadLines(file: FormItem, hs: seq<string>): (FormItem, bool)
    decreases hs
  {
    if hs == [] then (file, true)
    else
      var (f, ok) := TakeHeader(file, hs[0]);
      if !ok then (f, false) else ReadLines(f, hs[1..])
  }

  lemma HeadIsLines(item: FormItem)
    ensures Head(item) == JoinLines(HeaderLines(item)) + CRLF
  {
    hide DispositionLine, TypeLine;
    var hs := HeaderLines(item);
    JoinOne(DispositionLine(item), hs[1..]);
    assert hs == [DispositionLine(item)] + hs[1..];
    if item.contentType != [] {
      JoinOne(TypeLine(item), []);
      assert hs[1..] == [TypeLine(item)] + [];
    }
  }

  lemma JoinOne(h: string, hs: seq<string>)
    ensures JoinLines([h] + hs) == h + CRLF + JoinLines(hs)
  {
  }

  lemma ReadOne(file: FormItem, h: string, hs: seq<string>)
    ensures
      var (f, ok) := TakeHeader(file, h);
      ReadLines(file, [h] + hs) == if ok then ReadLines(f, hs) else (f, false)
  {
  }

  /** The printed header lines of an item read back as the item without its content. */
  lemma LinesAreRead(item: FormItem, boundary: string)
    requires SafeItem(item, boundary)
    ensures ReadLines(CLEARED, HeaderLines(item)) == (item.(content := ""), true)
    ensures forall i | 0 <= i < |HeaderLines(item)| :: GoodLine(HeaderLines(item)[i])
  {
    hide TakeHeader, DispositionLine, TypeLine;
    var named := CLEARED.(name := item.name, filename := item.filename);
    DispositionLineRead(item);
    DispositionHasNoCr(item);
    if item.contentType == [] {
      ReadOne(CLEARED, DispositionLine(item), []);
      assert [DispositionLine(item)] + [] == HeaderLines(item);
    } else {
      ReadOne(CLEARED, DispositionLine(item), [TypeLine(item)]);
      ReadOne(named, TypeLine(item), []);
      assert [TypeLine(item)] + [] == [TypeLine(item)];
      TypeLineRead(named, item);
    }
  }

  lemma DispositionHasNoCr(item: FormItem)
    requires SafeName(item.name) && SafeName(item.filename) && SafeType(item.contentType)
    ensures '\r' !in DispositionLine(item) && DispositionLine(item) != []
    ensures '\r' !in TypeLine(item) && TypeLine(item) != []
  {
    hide DispositionText;
    TextOfItem(item);
  }

  lemma TakeHeaderKeepsContent(file: FormItem, line: string)
    ensures TakeHeader(file, line).0.content == file.content
  {
    hide FieldOf, DispositionOf, DispositionParams;
  }

  // ---------------------------------------------------------------- what is still to come

  /** What the bytes not consumed yet, in the buffer or still to arrive, must be in each state. */
  datatype Goal =
    | Start(todo: seq<FormItem>)
    | Lines(hs: seq<string>, todo: seq<FormItem>)
    | Content(c: string, todo: seq<FormItem>)
    | Mark(todo: seq<FormItem>)
    | Over(t: string)

  function BodyText(c: string, todo: seq<FormItem>, boundary: string): string {
    c + CrlfDashBoundary(boundary) + if todo == [] then [] else After(todo[1..], boundary)
  }

  function Text(g: Goal, boundary: string): string {
    match g
    case Start(todo) => if todo == [] then [] else Form(todo, boundary)
    case Lines(hs, todo) => JoinLines(hs) + CRLF + if todo == [] then [] else BodyText(todo[0].content, todo, boundary)
    case Content(c, todo) => BodyText(c, todo, boundary)
    case Mark(todo) => After(todo, boundary)
    case Over(t) => t
  }

  /** The parser has handed over, of all the items, exactly what is not to come any more. */
  ghost predicate At(p: Parser, g: Goal, all: seq<FormItem>, boundary: string) {
    && p.file.content == []
    && match g
       case Start(todo) => p.state == NewEntry && todo != [] && p.items + todo == all
       case Lines(hs, todo) =>
         && p.state == Headers && todo != [] && p.items + todo == all
         && ReadLines(p.file, hs) == (todo[0].(content := ""), true)
         && forall i | 0 <= i < |hs| :: GoodLine(hs[i])
       case Content(c, todo) =>
         && p.state == Body && todo != [] && p.items != [] && p.items[..|p.items| - 1] + todo == all
         && AddContent(p.items, c)[|p.items| - 1] == todo[0]
         && forall i: nat :: !Occurs(c, CrlfDashBoundary(boundary), i)
       case Mark(todo) => p.state == Boundary && p.items + todo == all
       case Over(t) =>
         && p.valid && p.items == all
         && ((p.state == Boundary && t in [CRLF, "\n", ""]) || (p.state == NewEntry && t == ""))
  }

  ghost predicate Reached(p: Parser, u: string, g: Goal, all: seq<FormItem>, boundary: string) {
    At(p, g, all, boundary) && p.pending + u == Text(g, boundary)
  }

  /** A turn leads to goal g; if it ends parse with nothing still to arrive, the body is over. */
  ghost predicate Leads(t: Turn, u: string, g: Goal, all: seq<FormItem>, boundary: string) {
    && Reached(t.p, u, g, all, boundary)
    && (t.Stop? ==> t.ok && (u == [] ==> g.Over?))
  }

  // ---------------------------------------------------------------- one turn in each state

  lemma StartLeads(p: Parser, u: string, g: Goal, all: seq<FormItem>, boundary: string) returns (next: Goal)
    requires g.Start? && SafeItems(all, boundary) && p.pending != [] && Reached(p, u, g, all, boundary)
    ensures Leads(Step(p, boundary), u, next, all, boundary)
  {
    hide Head, HeaderLines, ReadLines, After, JoinLines, SafeItem, GoodLine;
    var item := g.todo[0];
    assert item == all[|p.items|];
    LinesAreRead(item, boundary);
    HeadIsLines(item);
    next := Lines(HeaderLines(item), g.todo);
    var join, d, after := JoinLines(HeaderLines(item)), CrlfDashBoundary(boundary), After(g.todo[1..], boundary);
    assert join + CRLF + item.content + d + after == join + CRLF + (item.content + d + after);
  }

  lemma Differs(t: string, s: string, i: nat, k: nat)
    requires k < |s| && i + k < |t| && t[i + k] != s[k]
    ensures !Occurs(t, s, i)
  {
  }

  lemma NoLineEndIn(h: string, t: string)
    requires '\r' !in h && forall i | 0 <= i < |h| && i < |t| :: t[i] == h[i]
    ensures forall i: nat | i < |h| :: !Occurs(t, CRLF, i)
  {
    forall i: nat | i < |h| ensures !Occurs(t, CRLF, i) {
      if i < |t| {
        assert t[i] in h;
        Differs(t, CRLF, i, 0);
      }
    }
  }

  /** Finding the end of a line in the bytes that have arrived. */
  lemma SeekLine(h: string, rest: string, t: string, u: string)
    requires '\r' !in h && t + u == h + CRLF + rest
    ensures |t| >= |h| + 2 ==> Seek(t, CRLF) == |h| && t[..|h|] == h && t[|h| + 2..] + u == rest
    ensures |t| < |h| + 2 ==> Seek(t, CRLF) == |t| && u != []
  {
    hide Seek;
    if |t| >= |h| + 2 {
      LineArrived(h, rest, t, u);
    } else {
      assert |u| > 0 by {
        assert |t + u| >= |h| + 2;
      }
      assert forall i | 0 <= i < |h| && i < |t| :: t[i] == (t + u)[i];
      NoLineEndIn(h, t);
      SeekFails(t, CRLF);
    }
  }

  lemma LineArrived(h: string, rest: string, t: string, u: string)
    requires '\r' !in h && t + u == h + CRLF + rest && |t| >= |h| + 2
    ensures Seek(t, CRLF) == |h| && t[..|h|] == h && t[|h| + 2..] + u == rest
  {
    hide Seek;
    var r := t + u;
    assert t[..|h|] == r[..|h|] == h;
    assert forall i | 0 <= i < |h| :: t[..|h|][i] == t[i];
    NoLineEndIn(h, t);
    assert t[|h|..|h| + 2] == r[|h|..|h| + 2] == CRLF;
    SeekIs(t, CRLF, |h|);
    assert t[|h| + 2..] + u == r[|h| + 2..] == rest;
  }

  lemma {:induction false} HeaderLeads(p: Parser, u: string, g: Goal, all: seq<FormItem>, boundary: string)
    returns (next: Goal)
    requires g.Lines? && SafeItems(all, boundary) && Reached(p, u, g, all, boundary)
    ensures Leads(HeaderTurn(p), u, next, all, boundary)
    ensures Seek(p.pending, CRLF) <= HEADER_MAX_LENGTH
    decreases |g.hs|
  {
    hide Seek, TakeHeader, AddContent, SafeItem, JoinLines, BodyText, HeaderTurn, Occurs, ReadLines, At, Text;
    var todo, hs := g.todo, g.hs;
    next := g;
    LinesGoal(p, g, all, boundary);
    var body := BodyText(todo[0].content, todo, boundary);
    if hs == [] {
      SeekLine([], body, p.pending, u);
      if |p.pending| < 2 {
        NoLineYet(p);
      } else {
        next := Content(todo[0].content, todo);
        assert todo[0] == all[|p.items|];
        ContentIsFree(todo[0], boundary);
        HeaderDone(p, u, todo, all, boundary);
      }
    } else {
      SeekLine(hs[0], JoinLines(hs[1..]) + CRLF + body, p.pending, u);
      if |p.pending| < |hs[0]| + 2 {
        NoLineYet(p);
      } else {
        HeaderLine(p);
        var q := p.(file := TakeHeader(p.file, hs[0]).0, pending := p.pending[|hs[0]| + 2..]);
        LinesNext(p, u, g, all, boundary);
        next := HeaderLeads(q, u, Lines(hs[1..], todo), all, boundary);
      }
    }
  }

  lemma LinesGoal(p: Parser, g: Goal, all: seq<FormItem>, boundary: string)
    requires g.Lines? && At(p, g, all, boundary)
    ensures
      var todo, hs := g.todo, g.hs;
      && todo != [] && p.items + todo == all
      && (hs == [] ==> p.file == todo[0].(content := ""))
      && (hs != [] ==> GoodLine(hs[0]) && TakeHeader(p.file, hs[0]).1)
    ensures
      var hs, body := g.hs, BodyText(g.todo[0].content, g.todo, boundary);
      Text(g, boundary) == if hs == [] then [] + CRLF + body else hs[0] + CRLF + (JoinLines(hs[1..]) + CRLF + body)
  {
    hide TakeHeader, BodyText, Occurs;
    LinesText(g.hs, BodyText(g.todo[0].content, g.todo, boundary));
  }

  lemma LinesNext(p: Parser, u: string, g: Goal, all: seq<FormItem>, boundary: string)
    requires g.Lines? && g.hs != [] && At(p, g, all, boundary) && |g.hs[0]| + 2 <= |p.pending| && g.todo != []
    requires p.pending[|g.hs[0]| + 2..] + u
             == JoinLines(g.hs[1..]) + CRLF + BodyText(g.todo[0].content, g.todo, boundary)
    ensures
      var q := p.(file := TakeHeader(p.file, g.hs[0]).0, pending := p.pending[|g.hs[0]| + 2..]);
      Reached(q, u, Lines(g.hs[1..], g.todo), all, boundary)
  {
    hide TakeHeader, BodyText, Occurs, JoinLines;
    TakeHeaderKeepsContent(p.file, g.hs[0]);
  }

  lemma LinesText(hs: seq<string>, body: string)
    ensures hs == [] ==> JoinLines(hs) + CRLF + body == [] + CRLF + body
    ensures hs != [] ==> JoinLines(hs) + CRLF + body == hs[0] + CRLF + (JoinLines(hs[1..]) + CRLF + body)
  {
  }

  lemma ContentIsFree(item: FormItem, boundary: string)
    requires SafeItem(item, boundary)
    ensures forall i: nat :: !Occurs(item.content, CrlfDashBoundary(boundary), i)
  {
  }

  lemma HeaderDone(p: Parser, u: string, todo: seq<FormItem>, all: seq<FormItem>, boundary: string)
    requires todo != [] && p.items + todo == all && p.file == todo[0].(content := "")
    requires |p.pending| >= 2 && Seek(p.pending, CRLF) == 0
    requires p.pending[2..] + u == BodyText(todo[0].content, todo, boundary)
    requires forall i: nat :: !Occurs(todo[0].content, CrlfDashBoundary(boundary), i)
    ensures Leads(HeaderTurn(p), u, Content(todo[0].content, todo), all, boundary)
  {
    hide Seek, BodyText, HeaderTurn, CrlfDashBoundary, Occurs, AddContent;
    EmptyLine(p);
    NewPart(p.items, p.file, todo[0]);
  }

  lemma NewPart(items: seq<FormItem>, file: FormItem, item: FormItem)
    requires file == item.(content := "")
    ensures (items + [file])[..|items|] == items
    ensures AddContent(items + [file], item.content)[|items|] == item
  {
  }

  /** The first delimiter behind content that holds none: no delimiter can begin in the content. */
  lemma SeekContent(c: string, rest: string, boundary: string)
    requires '\r' !in boundary && forall i: nat :: !Occurs(c, CrlfDashBoundary(boundary), i)
    ensures
      var d := CrlfDashBoundary(boundary);
      Seek(c + d + rest, d) == |c| && Occurs(c + d + rest, d, |c|)
  {
    hide Seek;
    var d := CrlfDashBoundary(boundary);
    var r := c + d + rest;
    assert forall k | 1 <= k < |d| :: d[k] != '\r';
    forall i: nat | i < |c| ensures !Occurs(r, d, i) {
      if i + |d| <= |c| {
        OccursWithin(c, d + rest, d, i);
        assert c + (d + rest) == r;
      } else {
        assert r[|c|] == d[0];
        Differs(r, d, i, |c| - i);
      }
    }
    assert r[|c|..|c| + |d|] == d;
    SeekIs(r, d, |c|);
  }

  lemma ContentLeads(p: Parser, u: string, g: Goal, all: seq<FormItem>, boundary: string) returns (next: Goal)
    requires g.Content? && SafeItems(all, boundary) && p.pending != [] && Reached(p, u, g, all, boundary)
    ensures Leads(BodyTurn(p, boundary), u, next, all, boundary)
  {
    hide Seek, After, BodyTurn, SafeItem, CrlfDashBoundary, AddContent, Occurs;
    var c, d, after := g.c, CrlfDashBoundary(boundary), After(g.todo[1..], boundary);
    SeekContent(c, after, boundary);
    BodyTurnExtracts(p, u, boundary);
    var turn := BodyTurn(p, boundary);
    if turn.More? {
      next := Mark(g.todo[1..]);
      Around(c, d, after, |c|);
      ContentComplete(p.items, c, g.todo, all);
    } else {
      var j := Released(p.pending, d);
      assert j <= |c|;
      next := Content(c[j..], g.todo);
      Around(c, d, after, j);
      ContentPart(p.items, c, j, g.todo, all);
      FreeSuffix(c, d, j);
      NotOver(turn.p, u, c[j..], after, boundary);
    }
  }

  lemma Around(c: string, d: string, after: string, j: nat)
    requires j <= |c|
    ensures (c + d + after)[..j] == c[..j] && (c + d + after)[j..] == c[j..] + d + after
    ensures (c + d + after)[|c| + |d|..] == after && c[..|c|] == c
  {
  }

  /** What state 3 holds back is not all that is left of a content and its delimiter. */
  lemma NotOver(q: Parser, u: string, c: string, rest: string, boundary: string)
    requires '\r' !in boundary && forall i: nat :: !Occurs(c, CrlfDashBoundary(boundary), i)
    requires q.pending + u == c + CrlfDashBoundary(boundary) + rest
    requires Seek(q.pending, CrlfDashBoundary(boundary)) == |q.pending|
    ensures u != []
  {
    hide Seek, CrlfDashBoundary;
    SeekContent(c, rest, boundary);
    assert q.pending + [] == q.pending;
  }

  lemma ContentComplete(items: seq<FormItem>, c: string, todo: seq<FormItem>, all: seq<FormItem>)
    requires items != [] && todo != [] && items[..|items| - 1] + todo == all
    requires AddContent(items, c)[|items| - 1] == todo[0]
    ensures AddContent(items, c) + todo[1..] == all
  {
  }

  lemma ContentPart(items: seq<FormItem>, c: string, j: nat, todo: seq<FormItem>, all: seq<FormItem>)
    requires items != [] && todo != [] && items[..|items| - 1] + todo == all && j <= |c|
    requires AddContent(items, c)[|items| - 1] == todo[0]
    ensures
      var more := AddContent(items, c[..j]);
      more[..|more| - 1] + todo == all && AddContent(more, c[j..])[|more| - 1] == todo[0]
  {
  }

  lemma FreeSuffix(c: string, d: string, j: nat)
    requires j <= |c| && forall i: nat :: !Occurs(c, d, i)
    ensures forall i: nat :: !Occurs(c[j..], d, i)
  {
    forall i: nat ensures !Occurs(c[j..], d, i) {
      assert !Occurs(c, d, j + i);
      if j + i + |d| <= |c| {
        assert c[j..][i..i + |d|] == c[j + i..j + i + |d|];
      }
    }
  }

  lemma MarkLeads(p: Parser, u: string, g: Goal, all: seq<FormItem>, boundary: string) returns (next: Goal)
    requires g.Mark? && p.pending != [] && Reached(p, u, g, all, boundary)
    ensures Leads(BoundaryTurn(p), u, next, all, boundary)
  {
    hide Form;
    if g.todo == [] {
      next := FinishLeads(p, u, all, boundary);
    } else if |p.pending| >= 2 {
      next := Start(g.todo);
      TwoBytes(p.pending, u, CRLF, Form(g.todo, boundary));
    } else {
      next := g;
      OneByte(p.pending, u, CRLF, Form(g.todo, boundary));
    }
  }

  lemma TwoBytes(t: string, u: string, mark: string, rest: string)
    requires |t| >= 2 == |mark| && t + u == mark + rest
    ensures mark <= t && t[2..] + u == rest
  {
    assert t[..2] == (t + u)[..2] == mark;
    assert t[2..] + u == (t + u)[2..];
  }

  lemma OneByte(t: string, u: string, mark: string, rest: string)
    requires |t| < 2 == |mark| && t + u == mark + rest
    ensures u != []
  {
  }

  lemma FinishLeads(p: Parser, u: string, all: seq<FormItem>, boundary: string) returns (next: Goal)
    requires p.pending != [] && Reached(p, u, Mark([]), all, boundary)
    ensures Leads(BoundaryTurn(p), u, next, all, boundary)
  {
    assert p.items + [] == p.items;
    if |p.pending| >= 2 {
      next := Over(u);
      TwoBytes(p.pending, u, DASH, CRLF);
      assert p.pending[0] == DASH[0];
      assert [] + u == u;
      var left := |p.pending| - 2;
      assert u == CRLF[left..];
      assert CRLF[0..] == CRLF && CRLF[1..] == "\n" && CRLF[2..] == "";
    } else {
      next := Mark([]);
      OneByte(p.pending, u, DASH, CRLF);
    }
  }

  lemma OverLeads(p: Parser, u: string, g: Goal, all: seq<FormItem>, boundary: string) returns (next: Goal)
    requires g.Over? && p.pending != [] && Reached(p, u, g, all, boundary)
    ensures p.state == Boundary && Leads(BoundaryTurn(p), u, next, all, boundary)
  {
    next := g;
    if |p.pending| >= 2 {
      next := Over("");
    }
  }

  // ---------------------------------------------------------------- a call of parse, and all calls

  /** A call of parse keeps what has been handed over and what is still to come in step. */
  lemma {:induction false} LoopLeads(p: Parser, u: string, g: Goal, all: seq<FormItem>, boundary: string)
    returns (next: Goal)
    requires SafeItems(all, boundary) && Reached(p, u, g, all, boundary)
    ensures
      var (q, ok) := Loop(p, boundary);
      ok && Reached(q, u, next, all, boundary) && (u == [] ==> next.Over?)
    decreases |p.pending|, p.state.NewEntry?
  {
    hide Form, After, JoinLines, HeaderTurn, BodyTurn, BoundaryTurn, SafeItems, ReadLines, AddContent, Seek;
    next := g;
    if p.pending == [] {
      if !g.Over? {
        TextIsLong(g, boundary);
      }
    } else {
      match g {
        case Start(_) => next := StartLeads(p, u, g, all, boundary);
        case Lines(_, _) => next := HeaderLeads(p, u, g, all, boundary);
        case Content(_, _) => next := ContentLeads(p, u, g, all, boundary);
        case Mark(_) => next := MarkLeads(p, u, g, all, boundary);
        case Over(_) => next := OverLeads(p, u, g, all, boundary);
      }
      var t := Step(p, boundary);
      assert Leads(t, u, next, all, boundary);
      if t.More? {
        next := LoopLeads(t.p, u, next, all, boundary);
      }
    }
  }

  lemma TextIsLong(g: Goal, boundary: string)
    requires !g.Over? && (g.Start? ==> g.todo != [])
    ensures Text(g, boundary) != []
  {
  }

  lemma {:induction false} FeedAllLeads(p: Parser, pieces: seq<string>, g: Goal, all: seq<FormItem>, boundary: string)
    requires SafeItems(all, boundary) && Reached(p, Join(pieces), g, all, boundary)
    requires pieces == [] ==> g.Over?
    ensures
      var (q, ok) := FeedAll(p, boundary, pieces);
      ok && q.valid && q.items == all
    decreases |pieces|
  {
    hide Loop, Text, SafeItems;
    if pieces != [] {
      var u := Join(pieces[1..]);
      var fed := p.(pending := p.pending + pieces[0]);
      assert fed.pending + u == p.pending + Join(pieces);
      var next := LoopLeads(fed, u, g, all, boundary);
      FeedAllLeads(Loop(fed, boundary).0, pieces[1..], next, all, boundary);
    }
  }

  lemma PrefixOfSum(first: string, u: string, d: string, rest: string)
    requires first + u == d + rest && |first| >= |d|
    ensures d <= first && first[|d|..] + u == rest
  {
    assert first[..|d|] == (d + rest)[..|d|] == d;
    assert first[|d|..] + u == (d + rest)[|d|..] == rest;
  }

  /** Parsing a serialized body gives its items and ends valid, however the bytes behind the first delimiter
      line are split over the calls. */
  lemma RoundTrip(items: seq<FormItem>, boundary: string, pieces: seq<string>)
    requires items != [] && SafeItems(items, boundary)
    requires Join(pieces) == Serialized(items, boundary) + Finish(boundary)
    requires pieces != [] && |pieces[0]| >= |DashBoundaryCrlf(boundary)|
    ensures
      var (q, ok) := FeedAll(INITIAL, boundary, pieces);
      ok && q.valid && q.items == items
  {
    hide Loop, SafeItems, Form, Serialized, Finish, Seek, DashBoundaryCrlf;
    var d, form, u := DashBoundaryCrlf(boundary), Form(items, boundary), Join(pieces[1..]);
    SerializedIs(items, boundary);
    var first := pieces[0];
    PrefixOfSum(first, u, d, form);
    var p := INITIAL.(pending := first[|d|..], state := NewEntry);
    DelimiterPasses(first, boundary);
    assert [] + items == items && [] + first == first;
    var next := LoopLeads(p, u, Start(items), items, boundary);
    FeedAllLeads(Loop(p, boundary).0, pieces[1..], next, items, boundary);
  }

  lemma DelimiterPasses(first: string, boundary: string)
    requires DashBoundaryCrlf(boundary) <= first
    ensures
      var d := DashBoundaryCrlf(boundary);
      Loop(INITIAL.(pending := first), boundary) == Loop(INITIAL.(pending := first[|d|..], state := NewEntry), boundary)
  {
  }

  /** The first delimiter must arrive whole: a shorter first piece is dropped. */
  lemma ShortFirstPieceIsLost(boundary: string, first: string, pieces: seq<string>)
    requires |first| < |DashBoundaryCrlf(boundary)|
    ensures FeedAll(INITIAL, boundary, [first] + pieces) == FeedAll(INITIAL, boundary, pieces)
  {
  }

  /** A header line of exactly the limit passes if its line end arrives with it, but not if only its CR does. */
  lemma LimitDependsOnSplit(p: Parser, h: string)
    requires |h| == HEADER_MAX_LENGTH && '\r' !in h && TakeHeader(p.file, h).1
    ensures HeadersTurn(p.(pending := h + "\r")) == Stop(p.(pending := h + "\r"), false)
    ensures HeadersTurn(p.(pending := h + CRLF)) == Stop(p.(file := TakeHeader(p.file, h).0, pending := []), true)
  {
    hide Seek, TakeHeader;
    SeekLine(h, [], h + "\r", "\n");
    SeekLine(h, [], h + CRLF, []);
    SeekFails([], CRLF);
    assert (h + CRLF)[|h| + 2..] == [];
    var done := p.(file := TakeHeader(p.file, h).0, pending := []);
    assert HeaderTurn(done) == Stop(done, true);
  }
}
