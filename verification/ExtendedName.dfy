/** A file name that a form part carries in `filename*`, percent-encoded UTF-8 as section 3.2 of RFC 5987 has it. */
module ExtendedName {
  import opened ChunkSize
  import opened FormHeaders
  import opened HeaderFields
  import opened Query
  import opened UrlCoding

  function ExtendedText(file: string): string
    requires Bytes(file)
  {
    "UTF-8''" + Encode(file)
  }

  function ExtendedLine(name: string, file: string): string
    requires Bytes(file)
  {
    "Content-Disposition: form-data; " + ("name=" + Quoted(name) + "; filename*=" + ExtendedText(file))
  }

  lemma PlainIsHarmless(c: char)
    requires c == '%' || Plain(c)
    ensures !Blank(c) && c !in [';', '=', '\r', '\n', '\0', '"']
  {
  }

  lemma EncodedIsHarmless(file: string)
    requires Bytes(file)
    ensures forall i | 0 <= i < |Encode(file)| ::
              !Blank(Encode(file)[i]) && Encode(file)[i] !in [';', '=', '\r', '\n', '\0', '"']
  {
    hide Encode, Plain, Blank;
    EncodedCharacters(file);
    forall i | 0 <= i < |Encode(file)|
      ensures !Blank(Encode(file)[i]) && Encode(file)[i] !in [';', '=', '\r', '\n', '\0', '"']
    {
      PlainIsHarmless(Encode(file)[i]);
    }
  }

  lemma TextIsHarmless(file: string)
    requires Bytes(file)
    ensures
      var t := ExtendedText(file);
      && |t| >= 7 && t[0] == 'U' && !Blank(t[|t| - 1])
      && ';' !in t && '=' !in t && FieldText(t) && t[7..] == Encode(file)
  {
    hide Encode;
    EncodedIsHarmless(file);
    var t := ExtendedText(file);
    assert t[7..] == Encode(file);
    assert forall i | 7 <= i < |t| :: t[i] == Encode(file)[i - 7];
  }

  /** What the callback makes of the extended parameter. */
  lemma TakeExtended(st: Parsed, file: string)
    requires Bytes(file) && "filename*=" + ExtendedText(file) !in st.cache
    ensures
      var kv := "filename*=" + ExtendedText(file);
      TakeParam(st, kv) == Parsed(st.cache + {kv}, Emplace(st.params, Param("filename*", ExtendedText(file))))
  {
    hide Pieces, Piece, Emplace, ExtendedText, Blank;
    var key, t := "filename*", ExtendedText(file);
    TextIsHarmless(file);
    assert !Blank('f') && !Blank('*') && !Blank('U') by { NotBlank(); }
    assert key + ['='] + t == "filename*=" + t;
    TwoFields(key, '=', t);
    assert [] + key == key && [] + t == t;
    PieceIs([], key);
    PieceIs([], t);
  }

  lemma NotBlank()
    ensures !Blank('f') && !Blank('*') && !Blank('U')
  {
  }

  lemma ExtendedPieces(name: string, file: string)
    requires SafeName(name) && Bytes(file)
    ensures
      var first, second := "name=" + Quoted(name), "filename*=" + ExtendedText(file);
      Pieces(first + "; filename*=" + ExtendedText(file), ';') == [first, second]
  {
    hide Pieces, Piece, Quoted, ExtendedText, Blank;
    var first, second := "name=" + Quoted(name), "filename*=" + ExtendedText(file);
    TextIsHarmless(file);
    NotBlank();
    PrintedPiece("name=", name);
    assert [] + first == first;
    PieceIs([], first);
    PartsOfText(first, ExtendedText(file));
    TwoFields(first, ';', " " + second);
    assert AllBlank(" ") by { BlankSpace(); }
    PieceIs(" ", second);
  }

  lemma PartsOfText(first: string, t: string)
    ensures first + "; filename*=" + t == first + [';'] + (" " + ("filename*=" + t))
  {
    assert "; filename*=" == [';'] + (" " + "filename*=");
  }

  lemma BlankSpace()
    ensures AllBlank(" ")
  {
  }

  lemma ExtendedParams(name: string, file: string)
    requires SafeName(name) && Bytes(file)
    ensures DispositionParams("name=" + Quoted(name) + "; filename*=" + ExtendedText(file))
            == [Param("filename*", ExtendedText(file)), Param("name", name)]
  {
    hide Pieces, Quoted, TakeParam, ExtendedText;
    var st := Parsed({}, []);
    var first, second := "name=" + Quoted(name), "filename*=" + ExtendedText(file);
    assert "name" + "=" == "name=";
    ExtendedPieces(name, file);
    TakeQuoted(st, "name", name);
    TakeParamsNext(st, [], first);
    assert [] + [first] == [first];
    var one := TakeParams(st, [first]);
    assert one == Parsed({first}, [Param("name", name)]);
    assert first[0] != second[0];
    TakeParamsNext(st, [first], second);
    assert [first] + [second] == [first, second];
    TakeExtended(one, file);
    assert Less("filename*", "name");
  }

  // ---------------------------------------------------------------- the whole line

  lemma {:induction false} DecodePlainPrefix(a: string, b: string, i: nat)
    requires '%' !in a && i <= |a|
    ensures Decode(a + b, false, i) == a[i..] + Decode(a + b, false, |a|)
    decreases |a| - i
  {
    if i < |a| {
      DecodePlainPrefix(a, b, i + 1);
      assert a[i] in a;
      assert a[i..] == [a[i]] + a[i + 1..];
      DecodeFrom(a + b, false, i);
    }
  }

  /** No line end, zero byte or percent sign. */
  predicate Clean(s: string) { FieldText(s) && '%' !in s }

  lemma DecodedValue(a: string, file: string)
    requires Clean(a) && Bytes(file)
    ensures FieldText(Decode(a + Encode(file), false, 0)) == FieldText(file)
  {
    hide Decode, Encode;
    DecodePlainPrefix(a, Encode(file), 0);
    DecodeEncoded(a, file, false);
    assert a[0..] == a;
  }

  /** What parse_header makes of a line whose key is not Location. */
  lemma FieldIs(key: string, rest: string)
    requires key != [] && ':' !in key && !EqualIgnoringCase(key, "Location")
    requires rest != [] && !Blank(rest[|rest| - 1])
    ensures FieldOf(key + ":" + rest).Some? <==> FieldText(Decode(DropBlanks(rest), false, 0))
  {
    hide Decode, Find, DropBlanksBack, DropBlanks, EqualIgnoringCase, FieldText, Blank;
    var line := key + ":" + rest;
    NoBlanksBehind(line);
    assert line[..|key|] == key && line[|key| + 1..] == rest;
    FindIs(line, ':', |key|);
  }

  lemma NoBlanksBehind(line: string)
    requires line != [] && !Blank(line[|line| - 1])
    ensures DropBlanksBack(line) == line
  {
    assert line + [] == line;
    DropBlanksBehind(line, []);
  }

  /** It is a field if its decoded value holds no line end and no zero byte. */
  lemma DecodedField(key: string, value: string)
    requires key != [] && ':' !in key && !EqualIgnoringCase(key, "Location")
    requires value != [] && !Blank(value[0]) && !Blank(value[|value| - 1])
    ensures FieldOf(key + ":" + (" " + value)).Some? <==> FieldText(Decode(value, false, 0))
  {
    hide Decode, FieldOf, DropBlanks, EqualIgnoringCase, FieldText, Blank;
    OneBlank(value);
    FieldIs(key, " " + value);
  }

  lemma OneBlank(value: string)
    requires value != [] && !Blank(value[0])
    ensures DropBlanks(" " + value) == value
  {
    assert (" " + value)[1..] == value;
  }

  lemma CleanJoin(a: string, b: string)
    requires Clean(a) && Clean(b)
    ensures Clean(a + b)
  {
  }

  lemma CleanFront()
    ensures Clean("form-data; name=")
  {
    assert Clean("form-data");
    assert Clean("; name=");
    CleanJoin("form-data", "; name=");
  }

  lemma CleanMiddle()
    ensures Clean("; filename*=UTF-8''")
  {
    assert Clean("; filename");
    assert Clean("*=UTF-8''");
    CleanJoin("; filename", "*=UTF-8''");
  }

  lemma LineParts(name: string, file: string)
    requires SafeName(name) && Bytes(file)
    ensures
      var a := "form-data; name=" + Quoted(name) + "; filename*=UTF-8''";
      && ExtendedLine(name, file) == "Content-Disposition" + ":" + (" " + (a + Encode(file)))
      && Clean(a) && a[0] == 'f' && !Blank(a[|a| - 1])
  {
    hide Encode, Quoted, Plain, Clean, FieldText, Bytes;
    QuotedIsClean(name);
    CleanFront();
    CleanMiddle();
    CleanJoin("form-data; name=", Quoted(name));
    CleanJoin("form-data; name=" + Quoted(name), "; filename*=UTF-8''");
    LineJoined(Quoted(name), Encode(file));
  }

  lemma QuotedIsClean(name: string)
    requires SafeName(name)
    ensures Clean(Quoted(name))
  {
    QuotedText(name);
  }

  lemma LineJoined(q: string, e: string)
    ensures "Content-Disposition: form-data; " + ("name=" + q + "; filename*=" + ("UTF-8''" + e))
            == "Content-Disposition" + ":" + (" " + (("form-data; name=" + q + "; filename*=UTF-8''") + e))
  {
    assert "Content-Disposition: form-data; " == "Content-Disposition" + ":" + " " + "form-data; ";
    assert "form-data; " + "name=" == "form-data; name=" && "; filename*=" + "UTF-8''" == "; filename*=UTF-8''";
    LongJoin("Content-Disposition", ":", " ", "form-data; ", "name=", q, "; filename*=", "UTF-8''", e);
  }

  lemma LongJoin(a: string, b: string, c: string, d: string, n: string, q: string, f: string, u: string, e: string)
    ensures (a + b + c + d) + (n + q + f + (u + e)) == a + b + (c + (((d + n) + q + (f + u)) + e))
  {
    var tail := n + q + f + (u + e);
    assert (a + b + c + d) + tail == a + b + (c + (d + tail));
    assert d + tail == ((d + n) + q + (f + u)) + e;
  }

  lemma OtherHeader(line: string, rest: string)
    requires line == "Content-Disposition" + rest
    ensures !StartsWith(line, CONTENT_TYPE)
  {
    assert line[8] == 'D' && CONTENT_TYPE[8] == 'T';
  }

  lemma LineIsField(name: string, file: string)
    requires SafeName(name) && Bytes(file)
    ensures FieldOf(ExtendedLine(name, file)).Some? <==> FieldText(file)
    ensures !StartsWith(ExtendedLine(name, file), CONTENT_TYPE)
  {
    hide FieldOf, EqualIgnoringCase, Encode, Quoted, Decode, FieldText, Blank, ExtendedLine, StartsWith;
    var a := "form-data; name=" + Quoted(name) + "; filename*=UTF-8''";
    LineParts(name, file);
    EncodedIsHarmless(file);
    NoColon("Content-Disposition");
    assert !EqualIgnoringCase("Content-Disposition", "Location") by {
      DifferentLengths("Content-Disposition", "Location");
    }
    NotBlank();
    DecodedField("Content-Disposition", a + Encode(file));
    DecodedValue(a, file);
    OtherHeader(ExtendedLine(name, file), ":" + (" " + (a + Encode(file))));
  }

  lemma ExtendedGroup(name: string, file: string)
    requires SafeName(name) && Bytes(file)
    ensures DispositionOf(ExtendedLine(name, file))
            == Some("name=" + Quoted(name) + "; filename*=" + ExtendedText(file))
  {
    hide StartsWith, SkipSpaces, Quoted, ExtendedText, FieldText;
    var text := "name=" + Quoted(name) + "; filename*=" + ExtendedText(file);
    TextIsOneLine(name, file);
    var tail := FORM_DATA + (" " + text);
    GroupJoined(text);
    StartsWithItself(DISPOSITION, " " + tail);
    SkipOneSpace(tail);
    StartsWithItself(FORM_DATA, " " + text);
    SkipOneSpace(text);
  }

  lemma GroupJoined(text: string)
    ensures "Content-Disposition: form-data; " + text == DISPOSITION + (" " + (FORM_DATA + (" " + text)))
  {
    assert "Content-Disposition: form-data; " == DISPOSITION + " " + FORM_DATA + " ";
  }

  lemma FieldJoin(a: string, b: string)
    requires FieldText(a) && FieldText(b)
    ensures FieldText(a + b)
  {
  }

  lemma TextIsOneLine(name: string, file: string)
    requires SafeName(name) && Bytes(file)
    ensures
      var text := "name=" + Quoted(name) + "; filename*=" + ExtendedText(file);
      text != [] && !Space(text[0]) && '\r' !in text && '\n' !in text
  {
    hide Quoted, ExtendedText, FieldText;
    TextIsHarmless(file);
    QuotedText(name);
    LiteralsAreFieldText();
    FieldJoin("name=", Quoted(name));
    FieldJoin("name=" + Quoted(name), "; filename*=");
    FieldJoin("name=" + Quoted(name) + "; filename*=", ExtendedText(file));
    var text := "name=" + Quoted(name) + "; filename*=" + ExtendedText(file);
    assert text[0] == 'n';
    NoBreaks(text);
  }

  lemma NoBreaks(text: string)
    requires FieldText(text)
    ensures '\r' !in text && '\n' !in text
  {
  }

  lemma LiteralsAreFieldText()
    ensures FieldText("name=") && FieldText("; filename*=")
  {
  }

  /** The extended file name is the one that was encoded; the line is refused if and only if that is empty or holds a
      line end or a zero byte. */
  lemma ExtendedLineRead(name: string, file: string)
    requires SafeName(name) && Bytes(file)
    ensures
      var read := TakeHeader(CLEARED, ExtendedLine(name, file));
      && (read.1 <==> file != [] && FieldText(file))
      && (read.1 ==> read.0 == CLEARED.(name := name, filename := file))
  {
    hide FieldOf, DispositionOf, ExtendedLine, DispositionParams, StartsWith, Encode, Decode, Quoted, FieldText;
    LineIsField(name, file);
    ExtendedGroup(name, file);
    ExtendedParams(name, file);
    TextIsHarmless(file);
    StartsWithItself(UTF_8, Encode(file));
    EncodedLength(file);
    DecodeEncoded([], file, false);
    assert [] + Encode(file) == Encode(file);
    EncodedIsHarmless(file);
    TwoParams(Param("filename*", ExtendedText(file)), Param("name", name));
  }

  lemma EncodedLength(file: string)
    requires Bytes(file)
    ensures Encode(file) == [] <==> file == []
  {
  }

  lemma TwoParams(p: Param, q: Param)
    requires p.key == "filename*" && q.key == "name"
    ensures Lookup([p, q], "name") == Some(q.value) && Lookup([p, q], "filename").None?
    ensures Lookup([p, q], "filename*") == Some(p.value)
  {
    assert |"name"| == 4 && |"filename"| == 8 && |"filename*"| == 9;
    LookupTwo(p, q, "name");
    LookupTwo(p, q, "filename");
    LookupTwo(p, q, "filename*");
    LookupOne(q, "name");
    LookupOne(q, "filename");
  }
}
