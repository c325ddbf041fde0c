/** multipart/form-data (RFC 7578) in httplib.h: what the serializer prints, the incremental parser reads back,
    however the bytes behind the first delimiter line are split over the calls of parse. */
module Multipart {
  import opened FormHeaders
  import opened HeaderFields
  import opened LineReader
  import opened MultipartBody
  import opened MultipartModel
  import opened UrlCoding

  // ---------------------------------------------------------------- the serializer

  /** serialize_multipart_formdata_item_begin, behind its delimiter line. */
  function Head(item: FormItem): string {
    DispositionLine(item) + CRLF + (if item.contentType == [] then [] else TypeLine(item) + CRLF) + CRLF
  }

  function ItemBegin(item: FormItem, boundary: string): string {
    DASH + boundary + CRLF + Head(item)
  }

  method SerializeItemBegin(item: FormItem, boundary: string) returns (body: string)
    ensures body == ItemBegin(item, boundary)
  {
    hide DispositionLine;
    body := "--" + boundary + "\r\n";
    ghost var start := body;
    body := body + "Content-Disposition: form-data; name=\"" + item.name + "\"";
    if item.filename != [] {
      body := body + "; filename=\"" + item.filename + "\"";
    }
    DispositionPrinted(item, start);
    body := body + "\r\n";
    if item.contentType != [] {
      body := body + "Content-Type: " + item.contentType + "\r\n";
    }
    body := body + "\r\n";
  }

  lemma DispositionPrinted(item: FormItem, start: string)
    ensures
      var named := start + "Content-Disposition: form-data; name=\"" + item.name + "\"";
      start + DispositionLine(item)
      == if item.filename == [] then named else named + "; filename=\"" + item.filename + "\""
  {
  }

  function Finish(boundary: string): string { DASH + boundary + DASH + CRLF }

  function Serialized(items: seq<FormItem>, boundary: string): string {
    if items == [] then []
    else
      var n := |items| - 1;
      Serialized(items[..n], boundary) + ItemBegin(items[n], boundary) + items[n].content + CRLF
  }

  /** serialize_multipart_formdata. */
  method SerializeMultipartFormdata(items: seq<FormItem>, boundary: string, finish: bool) returns (body: string)
    ensures body == Serialized(items, boundary) + if finish then Finish(boundary) else []
  {
    hide ItemBegin, Finish;
    body := "";
    for i := 0 to |items|
      invariant body == Serialized(items[..i], boundary)
    {
      assert items[..i + 1][..i] == items[..i];
      var begin := SerializeItemBegin(items[i], boundary);
      body := body + begin;
      body := body + items[i].content + "\r\n";
    }
    assert items[..|items|] == items;
    if finish {
      body := body + Finish(boundary);
    }
  }

  /** The body from behind a delimiter on: the items to come. */
  function After(items: seq<FormItem>, boundary: string): string
    decreases |items|, 1
  {
    if items == [] then DASH + CRLF else CRLF + Form(items, boundary)
  }

  /** The body from behind a delimiter line on. */
  function Form(items: seq<FormItem>, boundary: string): string
    requires items != []
    decreases |items|, 0
  {
    Head(items[0]) + items[0].content + CrlfDashBoundary(boundary) + After(items[1..], boundary)
  }

  lemma Regroup(mark: string, head: string, content: string, rest: string)
    ensures mark + (CRLF + (head + content + (CRLF + mark) + rest))
            == (mark + CRLF + head) + content + CRLF + (mark + rest)
  {
  }

  lemma {:induction false} SerializedBefore(items: seq<FormItem>, more: seq<FormItem>, boundary: string)
    ensures Serialized(items, boundary) + (DASH + boundary + After(more, boundary))
            == DASH + boundary + After(items + more, boundary)
    decreases |items|
  {
    hide Head, After;
    if items == [] {
      assert items + more == more;
    } else {
      var n := |items| - 1;
      var last := items[n];
      var mark, rest := DASH + boundary, After(more, boundary);
      var all := [last] + more;
      assert mark + After(all, boundary) == ItemBegin(last, boundary) + last.content + CRLF + (mark + rest) by {
        AfterNext(last, more, boundary);
        Regroup(mark, Head(last), last.content, rest);
      }
      var before := Serialized(items[..n], boundary);
      assert before + (ItemBegin(last, boundary) + last.content + CRLF + (mark + rest))
          == (before + ItemBegin(last, boundary) + last.content + CRLF) + (mark + rest);
      SerializedBefore(items[..n], all, boundary);
      assert items[..n] + all == items + more;
    }
  }

  lemma AfterNext(last: FormItem, more: seq<FormItem>, boundary: string)
    ensures After([last] + more, boundary)
         == CRLF + (Head(last) + last.content + (CRLF + (DASH + boundary)) + After(more, boundary))
  {
    hide Head;
    assert ([last] + more)[1..] == more;
    assert CRLF + (DASH + boundary) == CrlfDashBoundary(boundary);
  }

  /** A whole body is a delimiter line and what the parser expects behind it. */
  lemma SerializedIs(items: seq<FormItem>, boundary: string)
    requires items != []
    ensures Serialized(items, boundary) + Finish(boundary) == DashBoundaryCrlf(boundary) + Form(items, boundary)
  {
    hide After, Form, Serialized;
    SerializedBefore(items, [], boundary);
    assert items + [] == items;
    AfterIs(items, boundary);
    var f := Form(items, boundary);
    assert DASH + boundary + (DASH + CRLF) == Finish(boundary);
    assert DASH + boundary + (CRLF + f) == DashBoundaryCrlf(boundary) + f;
  }

  lemma AfterIs(items: seq<FormItem>, boundary: string)
    requires items != []
    ensures After([], boundary) == DASH + CRLF && After(items, boundary) == CRLF + Form(items, boundary)
  {
  }
}
