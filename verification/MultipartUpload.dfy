/** The server's side of a multipart upload (read_content_core of httplib.h): every piece of the body that arrives is
    fed to one parser, and the request is good if no call failed and the parser ends valid. */
module MultipartUpload {
  import opened HeaderFields
  import opened LineReader
  import opened Multipart
  import opened MultipartModel
  import opened MultipartParser
  import opened MultipartRoundTrip

  /** The pieces are a serialized body, cut anywhere behind its first delimiter line. */
  ghost predicate Carries(pieces: seq<string>, items: seq<FormItem>, boundary: string) {
    && items != [] && SafeItems(items, boundary)
    && Join(pieces) == Serialized(items, boundary) + Finish(boundary)
    && pieces != [] && |pieces[0]| >= |DashBoundaryCrlf(boundary)|
  }

  method ReadContentCore(pieces: seq<string>, boundary: string, receiver: PartReceiver) returns (ok: bool)
    requires receiver.items == []
    modifies receiver
    ensures ok || receiver.patient ==>
            var (q, fed) := FeedAll(INITIAL, boundary, pieces);
            ok == (fed && q.valid) && receiver.items == q.items
    ensures forall items | Carries(pieces, items, boundary) :: receiver.patient ==> ok && receiver.items == items
  {
    hide Feed, SafeItems, Serialized, Finish, DashBoundaryCrlf;
    forall items | Carries(pieces, items, boundary)
      ensures var (q, fed) := FeedAll(INITIAL, boundary, pieces); fed && q.valid && q.items == items
    {
      RoundTrip(items, boundary, pieces);
    }
    var parser := new MultipartFormDataParser(boundary);
    for i := 0 to |pieces|
      invariant parser.Valid() && parser.boundary == boundary && fresh(parser)
      invariant FeedAll(INITIAL, boundary, pieces) == FeedAll(parser.Abs(receiver), boundary, pieces[i..])
    {
      assert pieces[i..][1..] == pieces[i + 1..];
      var fed := parser.Parse(pieces[i], receiver);
      if !fed {
        return false;
      }
    }
    return parser.isValid;
  }
}
