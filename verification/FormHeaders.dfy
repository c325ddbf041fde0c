/** The header lines the serializer prints for a form part are read back as the part's name, file name and type. */
module FormHeaders {
  import opened ChunkSize
  import opened HeaderFields
  import opened Query
  import opened UrlCoding

  /** A name or file name: the serializer quotes it without escaping. */
  predicate SafeName(s: string) { FieldText(s) && '%' !in s && ';' !in s && '=' !in s }

  predicate SafeType(s: string) {
    FieldText(s) && '%' !in s && (s != [] ==> !Blank(s[0]) && !Blank(s[|s| - 1]))
  }

  function Quoted(s: string): string { "\"" + s + "\"" }

  function DispositionText(item: FormItem): string {
    "name=" + Quoted(item.name) + if item.filename == [] then [] else "; filename=" + Quoted(item.filename)
  }

  function DispositionLine(item: FormItem): string {
    "Content-Disposition: form-data; " + DispositionText(item)
  }

  function TypeLine(item: FormItem): string { "Content-Type: " + item.contentType }

  // ---------------------------------------------------------------- parse_header lets the lines pass

  lemma {:induction false} DropBlanksSuffix(s: string)
    ensures forall c :: c in DropBlanks(s) ==> c in s
  {
    if s != [] && Blank(s[0]) {
      DropBlanksSuffix(s[1..]);
    }
  }

  /** A line whose key is not Location and whose value has no percent sign and no line end is a field. */
  lemma PlainField(key: string, value: string)
    requires key != [] && ':' !in key && !EqualIgnoringCase(key, "Location")
    requires '%' !in value && FieldText(value) && value != [] && !Blank(value[|value| - 1])
    ensures FieldOf(key + ":" + value).Some?
  {
    hide Decode, Find, DropBlanks, DropBlanksBack, EqualIgnoringCase;
    var line := key + ":" + value;
    DropBlanksBehind(line, []);
    assert line + [] == line;
    assert line[..|key|] == key && line[|key| + 1..] == value;
    FindIs(line, ':', |key|);
    var raw := DropBlanks(value);
    DropBlanksSuffix(value);
    DecodePlainText(raw, false, 0);
    assert raw[0..] == raw;
  }

  lemma TypeLineRead(file: FormItem, item: FormItem)
    requires SafeType(item.contentType) && item.contentType != []
    ensures TakeHeader(file, TypeLine(item)) == (file.(contentType := item.contentType), true)
  {
    hide FieldOf, Strip, DispositionOf, EqualIgnoringCase;
    var t := item.contentType;
    var line := TypeLine(item);
    var value := " " + t;
    assert line == "Content-Type" + ":" + value;
    assert |"Content-Type"| == 12 && |"Location"| == 8;
    NoColon("Content-Type");
    assert !EqualIgnoringCase("Content-Type", "Location") by { DifferentLengths("Content-Type", "Location"); }
    PlainField("Content-Type", value);
    assert line[|CONTENT_TYPE|..] == value;
    assert value == " " + t + [];
    StripBetween(" ", t, []);
    assert forall i | 0 <= i < |CONTENT_TYPE| :: line[i] == CONTENT_TYPE[i];
  }

  lemma DifferentLengths(a: string, b: string)
    requires |a| != |b|
    ensures !EqualIgnoringCase(a, b)
  {
  }

  lemma NoColon(key: string)
    requires key in ["Content-Type", "Content-Disposition"]
    ensures ':' !in key
  {
  }

  // ---------------------------------------------------------------- the parameters of Content-Disposition

  lemma PieceIs(p: string, t: string)
    requires AllBlank(p) && t != [] && !Blank(t[0]) && !Blank(t[|t| - 1])
    ensures Piece(p + t) == [t]
  {
    assert p + t == p + t + [];
    StripBetween(p, t, []);
  }

  lemma TwoFields(a: string, c: char, b: string)
    requires c !in a && c !in b
    ensures Pieces(a + [c] + b, c) == Piece(a) + Piece(b)
  {
    hide Pieces, Piece;
    var s := a + [c] + b;
    assert s[..|a|] == a && s[|a|] == c && s[|a| + 1..] == b;
    FirstField(s, c, |a|);
    LastField(b, c, 0);
    assert b[0..] == b;
  }

  lemma QuotedEnds(value: string)
    requires '=' !in value
    ensures var q := Quoted(value); |q| >= 2 && '=' !in q && !Blank(q[0]) && !Blank(q[|q| - 1])
  {
  }

  /** One parameter key="value", with or without blanks before it. */
  lemma OneParam(key: string, value: string)
    requires key != [] && '=' !in key && !Blank(key[0]) && !Blank(key[|key| - 1]) && '=' !in value
    ensures Pieces(key + "=" + Quoted(value), '=') == [key, Quoted(value)]
  {
    hide Pieces, Piece, Quoted, Blank;
    var q := Quoted(value);
    QuotedEnds(value);
    TwoFields(key, '=', q);
    assert [] + key == key && [] + q == q;
    PieceIs([], key);
    PieceIs([], q);
  }

  lemma UnquoteQuoted(value: string)
    ensures Unquote(Quoted(value)) == value
  {
  }

  lemma TakeQuoted(st: Parsed, key: string, value: string)
    requires key in ["name", "filename"] && '=' !in value && key + "=" + Quoted(value) !in st.cache
    ensures
      var kv := key + "=" + Quoted(value);
      TakeParam(st, kv) == Parsed(st.cache + {kv}, Emplace(st.params, Param(key, value)))
  {
    hide Pieces, Quoted, Emplace;
    OneParam(key, value);
    UnquoteQuoted(value);
  }

  /** The text between the semicolons of a printed disposition. */
  lemma TextPieces(item: FormItem)
    requires SafeName(item.name) && SafeName(item.filename)
    ensures
      var first := "name=" + Quoted(item.name);
      Pieces(DispositionText(item), ';') ==
      if item.filename == [] then [first] else [first, "filename=" + Quoted(item.filename)]
  {
    hide Pieces, Piece, Quoted;
    var first := "name=" + Quoted(item.name);
    PrintedPiece("name=", item.name);
    assert [] + first == first;
    PieceIs([], first);
    if item.filename == [] {
      assert DispositionText(item) == first && first[0..] == first;
      LastField(first, ';', 0);
    } else {
      var second := "filename=" + Quoted(item.filename);
      PrintedPiece("filename=", item.filename);
      TextParts("name=" + Quoted(item.name), Quoted(item.filename));
      TwoFields(first, ';', " " + second);
      PieceIs(" ", second);
    }
  }

  lemma TextParts(first: string, q: string)
    ensures first + ("; filename=" + q) == first + [';'] + (" " + ("filename=" + q))
  {
    assert "; filename=" == [';'] + (" " + "filename=");
  }

  lemma PrintedPiece(key: string, value: string)
    requires key in ["name=", "filename="] && ';' !in value
    ensures var p := key + Quoted(value); ';' !in p && p != [] && !Blank(p[0]) && !Blank(p[|p| - 1])
  {
  }

  lemma TakeParamsNext(st: Parsed, pieces: seq<string>, kv: string)
    ensures TakeParams(st, []) == st
    ensures TakeParams(st, pieces + [kv]) == TakeParam(TakeParams(st, pieces), kv)
  {
  }

  lemma LookupOne(p: Param, key: string)
    ensures Lookup([p], key) == if p.key == key then Some(p.value) else None
  {
  }

  lemma LookupTwo(p: Param, q: Param, key: string)
    ensures Lookup([p, q], key) == if p.key == key then Some(p.value) else Lookup([q], key)
  {
  }

  /** The parameters read from a printed disposition, sorted by key. */
  lemma ParamsRead(item: FormItem)
    requires SafeName(item.name) && SafeName(item.filename)
    ensures
      DispositionParams(DispositionText(item)) ==
      if item.filename == [] then [Param("name", item.name)]
      else [Param("filename", item.filename), Param("name", item.name)]
  {
    hide Pieces, Quoted, TakeParam, DispositionText;
    var st := Parsed({}, []);
    var first := "name=" + Quoted(item.name);
    assert "name" + "=" == "name=" && "filename" + "=" == "filename=";
    TextPieces(item);
    TakeQuoted(st, "name", item.name);
    TakeParamsNext(st, [], first);
    assert [] + [first] == [first];
    var one := TakeParams(st, [first]);
    assert one == Parsed({first}, [Param("name", item.name)]);
    if item.filename != [] {
      var second := "filename=" + Quoted(item.filename);
      assert first[0] != second[0];
      TakeParamsNext(st, [first], second);
      assert [first] + [second] == [first, second];
      TakeQuoted(one, "filename", item.filename);
      assert Less("filename", "name");
    }
  }

  lemma SkipOneSpace(s: string)
    requires s != [] && !Space(s[0])
    ensures SkipSpaces(" " + s) == s
  {
  }

  lemma StartsWithItself(prefix: string, rest: string)
    ensures StartsWith(prefix + rest, prefix) && (prefix + rest)[|prefix|..] == rest
  {
  }

  lemma GroupOfLine(item: FormItem)
    requires SafeName(item.name) && SafeName(item.filename)
    ensures DispositionOf(DispositionLine(item)) == Some(DispositionText(item))
  {
    hide StartsWith, SkipSpaces, DispositionText;
    var text := DispositionText(item);
    TextOfItem(item);
    var tail := FORM_DATA + (" " + text);
    assert DispositionLine(item) == DISPOSITION + (" " + tail);
    StartsWithItself(DISPOSITION, " " + tail);
    SkipOneSpace(tail);
    StartsWithItself(FORM_DATA, " " + text);
    SkipOneSpace(text);
  }

  lemma LinePasses(item: FormItem)
    requires SafeName(item.name) && SafeName(item.filename)
    ensures FieldOf(DispositionLine(item)).Some? && !StartsWith(DispositionLine(item), CONTENT_TYPE)
  {
    hide FieldOf, EqualIgnoringCase, DispositionText, Quoted;
    var text := DispositionText(item);
    TextOfItem(item);
    var value := " form-data; " + text;
    assert DispositionLine(item) == "Content-Disposition" + ":" + value;
    NoColon("Content-Disposition");
    assert !EqualIgnoringCase("Content-Disposition", "Location") by {
      DifferentLengths("Content-Disposition", "Location");
    }
    PlainField("Content-Disposition", value);
    assert DispositionLine(item)[8] == 'D' && CONTENT_TYPE[8] == 'T';
  }

  lemma TextOfItem(item: FormItem)
    requires SafeName(item.name) && SafeName(item.filename)
    ensures
      var text := DispositionText(item);
      FieldText(text) && '%' !in text && |text| > 0 && text[0] == 'n' && text[|text| - 1] == '"'
  {
    hide Quoted;
    QuotedText(item.name);
    QuotedText(item.filename);
  }

  lemma QuotedText(s: string)
    requires FieldText(s) && '%' !in s
    ensures FieldText(Quoted(s)) && '%' !in Quoted(s) && |Quoted(s)| > 0 && Quoted(s)[|Quoted(s)| - 1] == '"'
  {
  }

  /** The printed Content-Disposition line sets the name and the file name of a cleared part. */
  lemma DispositionLineRead(item: FormItem)
    requires SafeName(item.name) && SafeName(item.filename)
    ensures TakeHeader(CLEARED, DispositionLine(item)) == (CLEARED.(name := item.name, filename := item.filename), true)
  {
    hide FieldOf, DispositionOf, DispositionLine, DispositionText, DispositionParams, StartsWith;
    LinePasses(item);
    GroupOfLine(item);
    ParamsRead(item);
    var name, filename := Param("name", item.name), Param("filename", item.filename);
    assert |"name"| == 4 && |"filename"| == 8 && |"filename*"| == 9;
    forall key | key in ["name", "filename", "filename*"]
      ensures Lookup([name], key) == if key == "name" then Some(item.name) else None
      ensures Lookup([filename, name], key) == if key == "filename" then Some(item.filename) else Lookup([name], key)
    {
      LookupOne(name, key);
      LookupTwo(filename, name, key);
    }
  }
}
