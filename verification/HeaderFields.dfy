/** Single header lines as httplib.h reads them: parse_header, and the header lines of a form part. */
module HeaderFields {
  import opened ChunkSize
  import opened Query
  import opened UrlCoding

  datatype Option<T> = None | Some(value: T)

  /** case_ignore::to_lower: a table for Latin-1. */
  function ToLower(c: char): char {
    if 'A' <= c <= 'Z' || (192 <= c as int <= 222 && c as int != 215) then (c as int + 32) as char else c
  }

  /** start_with_case_ignore. */
  predicate StartsWith(a: string, b: string) {
    |b| <= |a| && forall i | 0 <= i < |b| :: ToLower(a[i]) == ToLower(b[i])
  }

  predicate EqualIgnoringCase(a: string, b: string) { |a| == |b| && StartsWith(a, b) }

  /** No byte that a field value must not hold. */
  predicate FieldText(s: string) { '\r' !in s && '\n' !in s && '\0' !in s }

  datatype Field = Field(key: string, value: string)

  function FieldOf(line: string): Option<Field> {
    var t := DropBlanksBack(line);
    var k := Find(t, ':');
    if k == |t| || k == 0 then None else
      var raw := DropBlanks(t[k + 1..]);
      var value := if EqualIgnoringCase(t[..k], "Location") then raw else Decode(raw, false, 0);
      if FieldText(value) then Some(Field(t[..k], value)) else None
  }

  /** parse_header: loops find the end of the value, the end of the key and the start of the value. */
  method ParseHeader(line: string) returns (r: Option<Field>)
    ensures r == FieldOf(line)
  {
    hide Decode, Find, DropBlanksBack, DropBlanks;
    var end := EndWithoutBlanks(line);
    ghost var t := line[..end];
    var p := 0;
    while p < end && line[p] != ':'
      invariant 0 <= p <= end && ':' !in line[..p]
    {
      p := p + 1;
    }
    assert line[..p] == t[..p];
    FindIs(t, ':', p);
    if p == end {
      return None;
    }
    var keyEnd := p;
    p := StartWithoutBlanks(line, p + 1, end);
    assert t[keyEnd + 1..] == line[keyEnd + 1..end];
    if keyEnd == 0 {
      return None;
    }
    var key, value := line[..keyEnd], line[p..end];
    if !EqualIgnoringCase(key, "Location") {
      value := DecodeUrl(value, false);
    }
    if !FieldText(value) {
      return None;
    }
    return Some(Field(key, value));
  }

  method EndWithoutBlanks(line: string) returns (end: nat)
    ensures end <= |line| && line[..end] == DropBlanksBack(line)
  {
    end := |line|;
    assert line[..end] == line;
    while 0 < end && Blank(line[end - 1])
      invariant end <= |line| && DropBlanksBack(line) == DropBlanksBack(line[..end])
    {
      assert line[..end][..end - 1] == line[..end - 1];
      end := end - 1;
    }
  }

  method StartWithoutBlanks(line: string, from: nat, end: nat) returns (p: nat)
    requires from <= end <= |line|
    ensures from <= p <= end && line[p..end] == DropBlanks(line[from..end])
  {
    p := from;
    while p < end && Blank(line[p])
      invariant from <= p <= end && DropBlanks(line[from..end]) == DropBlanks(line[p..end])
    {
      assert line[p..end][1..] == line[p + 1..end];
      p := p + 1;
    }
  }

  // ---------------------------------------------------------------- the header lines of a form part

  /** MultipartFormData. */
  datatype FormItem = FormItem(name: string, content: string, filename: string, contentType: string)

  const CLEARED := FormItem("", "", "", "")

  const CONTENT_TYPE := "Content-Type:"
  const DISPOSITION := "Content-Disposition:"
  const FORM_DATA := "form-data;"
  const UTF_8 := "UTF-8''"

  /** trim_double_quotes_copy. */
  function Unquote(s: string): string {
    if |s| >= 2 && s[0] == '"' && s[|s| - 1] == '"' then s[1..|s| - 1] else s
  }

  /** The regular expression for Content-Disposition: its group, or no match. A dot matches no line end. */
  function DispositionOf(line: string): Option<string> {
    if !StartsWith(line, DISPOSITION) then None else
      var t := SkipSpaces(line[|DISPOSITION|..]);
      if !StartsWith(t, FORM_DATA) then None else
        var group := SkipSpaces(t[|FORM_DATA|..]);
        if '\r' in group || '\n' in group then None else Some(group)
  }

  /** The callback of parse_disposition_params on one piece: the first part is the key, the last the value. */
  function TakeParam(st: Parsed, kv: string): Parsed {
    if kv in st.cache then st else
      var parts := Pieces(kv, '=');
      var params :=
        if parts == [] then st.params
        else Emplace(st.params, Param(Unquote(parts[0]), Unquote(if |parts| > 1 then parts[|parts| - 1] else "")));
      Parsed(st.cache + {kv}, params)
  }

  function TakeParams(st: Parsed, pieces: seq<string>): Parsed {
    if pieces == [] then st
    else TakeParam(TakeParams(st, pieces[..|pieces| - 1]), pieces[|pieces| - 1])
  }

  /** parse_disposition_params. */
  function DispositionParams(s: string): seq<Param> {
    TakeParams(Parsed({}, []), Pieces(s, ';')).params
  }

  method ParseDispositionParams(s: string) returns (params: seq<Param>)
    ensures params == DispositionParams(s)
  {
    hide Pieces, Emplace;
    params := [];
    var cache: set<string> := {};
    var pieces := Split(s, ';');
    for i := 0 to |pieces|
      invariant Parsed(cache, params) == TakeParams(Parsed({}, []), pieces[..i])
    {
      assert pieces[..i + 1][..i] == pieces[..i];
      var kv := pieces[i];
      if kv !in cache {
        cache := cache + {kv};
        var key, val := "", "";
        var parts := Split(kv, '=');
        PiecesNotEmpty(kv, '=');
        for j := 0 to |parts|
          invariant key == if j == 0 then "" else parts[0]
          invariant val == if j <= 1 then "" else parts[j - 1]
        {
          if key == "" {
            key := parts[j];
          } else {
            val := parts[j];
          }
        }
        if key != "" {
          params := Emplace(params, Param(Unquote(key), Unquote(val)));
        }
      }
    }
    assert pieces[..|pieces|] == pieces;
  }

  lemma {:induction false} PiecesNotEmpty(s: string, d: char)
    ensures forall i | 0 <= i < |Pieces(s, d)| :: Pieces(s, d)[i] != []
    decreases |s|
  {
    hide Strip;
    var k := Find(s, d);
    if k < |s| {
      PiecesNotEmpty(s[k + 1..], d);
    }
  }

  /** multimap::find. */
  function Lookup(params: seq<Param>, key: string): Option<string> {
    if params == [] then None
    else if params[0].key == key then Some(params[0].value)
    else Lookup(params[1..], key)
  }

  /** What the loop of state 2 makes of one header line. */
  function TakeHeader(file: FormItem, line: string): (FormItem, bool) {
    if FieldOf(line).None? then (file, false)
    else if StartsWith(line, CONTENT_TYPE) then (file.(contentType := Strip(line[|CONTENT_TYPE|..])), true)
    else
      var group := DispositionOf(line);
      if group.None? then (file, true) else TakeDisposition(file, DispositionParams(group.value))
  }

  function TakeDisposition(file: FormItem, params: seq<Param>): (FormItem, bool) {
    var name, filename, extended := Lookup(params, "name"), Lookup(params, "filename"), Lookup(params, "filename*");
    if name.None? then (file, false) else
      var f := file.(name := name.value, filename := if filename.Some? then filename.value else file.filename);
      if extended.None? then (f, true)
      else if StartsWith(extended.value, UTF_8) && |extended.value| > |UTF_8|
              && '\r' !in extended.value[|UTF_8|..] && '\n' !in extended.value[|UTF_8|..]
      then (f.(filename := Decode(extended.value[|UTF_8|..], false, 0)), true)
      else (f, false)
  }

  method HandleHeader(file0: FormItem, line: string) returns (file: FormItem, ok: bool)
    ensures (file, ok) == TakeHeader(file0, line)
  {
    hide FieldOf, Strip, DispositionOf, DispositionParams, Decode, Lookup;
    file := file0;
    var field := ParseHeader(line);
    if field.None? {
      return file, false;
    }
    if StartsWith(line, CONTENT_TYPE) {
      file := file.(contentType := Strip(line[|CONTENT_TYPE|..]));
    } else {
      var group := DispositionOf(line);
      if group.Some? {
        var params := ParseDispositionParams(group.value);
        var it := Lookup(params, "name");
        if it.None? {
          return file, false;
        }
        file := file.(name := it.value);
        it := Lookup(params, "filename");
        if it.Some? {
          file := file.(filename := it.value);
        }
        it := Lookup(params, "filename*");
        if it.Some? {
          if !StartsWith(it.value, UTF_8) || |it.value| <= |UTF_8| {
            return file, false;
          }
          var text := it.value[|UTF_8|..];
          if '\r' in text || '\n' in text {
            return file, false;
          }
          var decoded := DecodeUrl(text, false);
          file := file.(filename := decoded);
        }
      }
    }
    return file, true;
  }
}
