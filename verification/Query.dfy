/** The query strings of httplib.h: params_to_query_str against parse_query_text, split, trim and divide. */
module Query {
  import opened UrlCoding

  // ---------------------------------------------------------------- the multimap of parameters

  datatype Param = Param(key: string, value: string)

  /** std::string's order: bytes compared from the left, a prefix first. */
  predicate Less(a: string, b: string) {
    b != [] && (a == [] || a[0] < b[0] || (a[0] == b[0] && Less(a[1..], b[1..])))
  }

  lemma {:induction false} LessTotal(a: string, b: string)
    ensures !(Less(a, b) && Less(b, a))
    ensures Less(a, b) || Less(b, a) || a == b
  {
    if a != [] && b != [] && a[0] == b[0] {
      LessTotal(a[1..], b[1..]);
      assert a == [a[0]] + a[1..] && b == [b[0]] + b[1..];
    }
  }

  lemma {:induction false} LessTransitive(a: string, b: string, c: string)
    requires Less(a, b) && Less(b, c)
    ensures Less(a, c)
  {
    if a != [] && a[0] == b[0] && b[0] == c[0] {
      LessTransitive(a[1..], b[1..], c[1..]);
    }
  }

  /** The pairs of a std::multimap, in the order it iterates over them. */
  predicate Sorted(params: seq<Param>) {
    forall i, j | 0 <= i < j < |params| :: !Less(params[j].key, params[i].key)
  }

  /** multimap::emplace: behind every pair whose key is not greater. */
  function Emplace(params: seq<Param>, p: Param): (r: seq<Param>)
    ensures multiset(r) == multiset(params) + multiset{p}
  {
    if params == [] then [p]
    else if Less(p.key, params[0].key) then [p] + params
    else
      assert params == [params[0]] + params[1..];
      [params[0]] + Emplace(params[1..], p)
  }

  lemma {:induction false} EmplaceLast(params: seq<Param>, p: Param)
    requires forall i | 0 <= i < |params| :: !Less(p.key, params[i].key)
    ensures Emplace(params, p) == params + [p]
  {
    if params != [] {
      EmplaceLast(params[1..], p);
      assert params == [params[0]] + params[1..];
    }
  }

  lemma {:induction false} EmplaceKeepsSorted(params: seq<Param>, p: Param)
    requires Sorted(params)
    ensures Sorted(Emplace(params, p))
  {
    if params == [] {
    } else if Less(p.key, params[0].key) {
      forall i | 0 <= i < |params| ensures !Less(params[i].key, p.key) {
        LessTotal(p.key, params[0].key);
        LessTotal(p.key, params[i].key);
        LessTotal(params[0].key, params[i].key);
        if Less(params[0].key, params[i].key) {
          LessTransitive(p.key, params[0].key, params[i].key);
        }
      }
    } else {
      EmplaceKeepsSorted(params[1..], p);
      var r := Emplace(params[1..], p);
      forall i | 0 <= i < |r| ensures !Less(r[i].key, params[0].key) {
        assert r[i] in multiset(r);
        assert r[i] == p || r[i] in params[1..];
      }
    }
  }

  // ---------------------------------------------------------------- split, trim, divide

  /** std::find: the first place of d, the length if there is none. */
  function Find(s: string, d: char): (k: nat)
    ensures k <= |s| && (k < |s| ==> s[k] == d)
    ensures forall j | 0 <= j < k :: s[j] != d
  {
    if s == [] || s[0] == d then 0 else 1 + Find(s[1..], d)
  }

  lemma {:induction false} FindIs(s: string, d: char, k: nat)
    requires k <= |s| && d !in s[..k] && (k < |s| ==> s[k] == d)
    ensures Find(s, d) == k
  {
  }

  predicate Blank(c: char) { c == ' ' || c == '\t' }

  predicate AllBlank(s: string) { forall i | 0 <= i < |s| :: Blank(s[i]) }

  function DropBlanks(s: string): (r: string)
    ensures |r| <= |s|
  {
    if s != [] && Blank(s[0]) then DropBlanks(s[1..]) else s
  }

  function DropBlanksBack(s: string): (r: string)
    ensures |r| <= |s|
  {
    if s != [] && Blank(s[|s| - 1]) then DropBlanksBack(s[..|s| - 1]) else s
  }

  function Strip(s: string): (r: string)
    ensures |r| <= |s|
  {
    DropBlanksBack(DropBlanks(s))
  }

  lemma {:induction false} DropBlanksBefore(p: string, t: string)
    requires AllBlank(p) && (t != [] ==> !Blank(t[0]))
    ensures DropBlanks(p + t) == t
  {
    if p == [] {
      assert p + t == t;
    } else {
      assert (p + t)[1..] == p[1..] + t;
      DropBlanksBefore(p[1..], t);
    }
  }

  lemma {:induction false} DropBlanksBehind(t: string, q: string)
    requires AllBlank(q) && (t != [] ==> !Blank(t[|t| - 1]))
    ensures DropBlanksBack(t + q) == t
  {
    if q == [] {
      assert t + q == t;
    } else {
      assert (t + q)[..|t + q| - 1] == t + q[..|q| - 1];
      DropBlanksBehind(t, q[..|q| - 1]);
    }
  }

  /** Strip removes exactly the blanks at both ends. */
  lemma StripBetween(p: string, t: string, q: string)
    requires AllBlank(p) && AllBlank(q) && t != [] && !Blank(t[0]) && !Blank(t[|t| - 1])
    ensures Strip(p + t + q) == t
  {
    assert p + t + q == p + (t + q);
    DropBlanksBefore(p, t + q);
    DropBlanksBehind(t, q);
  }

  lemma StripAllBlank(p: string)
    requires AllBlank(p)
    ensures Strip(p) == []
  {
    assert p + [] == p;
    DropBlanksBefore(p, []);
  }

  /** trim: the field from..to of s. The first loop is bounded by the text, not by the field. */
  method Trim(s: string, from: nat, to: nat) returns (left: nat, right: nat)
    requires from <= to <= |s|
    ensures left < right <==> Strip(s[from..to]) != []
    ensures left < right ==> right <= |s| && s[left..right] == Strip(s[from..to])
  {
    left, right := from, to;
    while left < |s| && Blank(s[left])
      invariant from <= left <= |s|
      invariant forall j | from <= j < left :: Blank(s[j])
    {
      left := left + 1;
    }
    while right > 0 && Blank(s[right - 1])
      invariant right <= to
      invariant forall j | right <= j < to :: Blank(s[j])
    {
      right := right - 1;
    }
    if left < to {
      assert left < right by {
        assert !Blank(s[left]);
      }
      assert s[from..to] == s[from..left] + s[left..right] + s[right..to];
      StripBetween(s[from..left], s[left..right], s[right..to]);
    } else {
      assert right <= from;
      StripAllBlank(s[from..to]);
    }
  }

  function Piece(field: string): seq<string> {
    var p := Strip(field);
    if p == [] then [] else [p]
  }

  /** What split hands to its callback: the fields between separators, stripped, the empty ones left out. */
  function Pieces(s: string, d: char): seq<string> {
    var k := Find(s, d);
    Piece(s[..k]) + if k < |s| then Pieces(s[k + 1..], d) else []
  }

  method Split(s: string, d: char) returns (pieces: seq<string>)
    ensures pieces == Pieces(s, d)
  {
    hide Pieces, Strip, Find;
    pieces := [];
    var i, beg := 0, 0;
    assert s[0..] == s;
    while i < |s|
      invariant 0 <= beg <= i <= |s| && d !in s[beg..i]
      invariant pieces + Pieces(s[beg..], d) == Pieces(s, d)
    {
      if s[i] == d {
        NextField(s, d, beg, i);
        var l, r := Trim(s, beg, i);
        assert pieces + (Piece(s[beg..i]) + Pieces(s[i + 1..], d))
            == (pieces + Piece(s[beg..i])) + Pieces(s[i + 1..], d);
        if l < r {
          pieces := pieces + [s[l..r]];
        } else {
          assert pieces + [] == pieces;
        }
        beg := i + 1;
      }
      i := i + 1;
    }
    LastField(s, d, beg);
    assert s[beg..i] == s[beg..];
    assert pieces + [] == pieces;
    if i != 0 {
      var l, r := Trim(s, beg, i);
      if l < r {
        pieces := pieces + [s[l..r]];
      }
    } else {
      StripAllBlank(s);
    }
  }

  lemma FirstField(s: string, d: char, k: nat)
    requires k < |s| && d !in s[..k] && s[k] == d
    ensures Pieces(s, d) == Piece(s[..k]) + Pieces(s[k + 1..], d)
  {
    hide Piece, Find;
    FindIs(s, d, k);
  }

  lemma NextField(s: string, d: char, beg: nat, i: nat)
    requires beg <= i < |s| && d !in s[beg..i] && s[i] == d
    ensures Pieces(s[beg..], d) == Piece(s[beg..i]) + Pieces(s[i + 1..], d)
  {
    hide Piece, Pieces;
    assert s[beg..][..i - beg] == s[beg..i];
    assert s[beg..][i - beg + 1..] == s[i + 1..];
    FirstField(s[beg..], d, i - beg);
  }

  lemma LastField(s: string, d: char, beg: nat)
    requires beg <= |s| && d !in s[beg..]
    ensures Pieces(s[beg..], d) == Piece(s[beg..])
  {
    hide Piece, Find;
    assert s[beg..][..|s| - beg] == s[beg..];
    FindIs(s[beg..], d, |s| - beg);
  }

  function Divide(s: string, d: char): (string, string) {
    var k := Find(s, d);
    (s[..k], if k < |s| then s[k + 1..] else [])
  }

  // ---------------------------------------------------------------- parsing

  datatype Parsed = Parsed(cache: set<string>, params: seq<Param>)

  /** The callback of parse_query_text on one piece. */
  function TakePiece(st: Parsed, kv: string): Parsed {
    if kv in st.cache then st else
      var (key, val) := Divide(kv, '=');
      Parsed(st.cache + {kv},
             if key == [] then st.params
             else Emplace(st.params, Param(Decode(key, true, 0), Decode(val, true, 0))))
  }

  function TakePieces(st: Parsed, pieces: seq<string>): Parsed {
    if pieces == [] then st
    else TakePiece(TakePieces(st, pieces[..|pieces| - 1]), pieces[|pieces| - 1])
  }

  /** parse_query_text, adding to the parameters already there. */
  function Parse(text: string, params: seq<Param>): seq<Param> {
    TakePieces(Parsed({}, params), Pieces(text, '&')).params
  }

  method ParseQueryText(text: string, params0: seq<Param>) returns (params: seq<Param>)
    ensures params == Parse(text, params0)
  {
    hide Decode, Emplace, Pieces, Divide;
    var cache: set<string> := {};
    params := params0;
    var pieces := Split(text, '&');
    for i := 0 to |pieces|
      invariant Parsed(cache, params) == TakePieces(Parsed({}, params0), pieces[..i])
    {
      TakeNext(Parsed({}, params0), pieces, i);
      var kv := pieces[i];
      if kv !in cache {
        var (k, v) := Divide(kv, '=');
        if k != [] {
          var key := DecodeUrl(k, true);
          var val := DecodeUrl(v, true);
          params := Emplace(params, Param(key, val));
        }
        cache := cache + {kv};
      }
    }
    assert pieces[..|pieces|] == pieces;
  }

  lemma TakeNext(st: Parsed, pieces: seq<string>, i: nat)
    requires i < |pieces|
    ensures TakePieces(st, pieces[..0]) == st
    ensures TakePieces(st, pieces[..i + 1]) == TakePiece(TakePieces(st, pieces[..i]), pieces[i])
  {
    assert pieces[..i + 1][..i] == pieces[..i];
  }

  // ---------------------------------------------------------------- printing

  predicate AllBytes(params: seq<Param>) { forall i | 0 <= i < |params| :: Bytes(params[i].value) }

  function Item(p: Param): string
    requires Bytes(p.value)
  {
    p.key + "=" + Encode(p.value)
  }

  function Items(params: seq<Param>): (r: seq<string>)
    requires AllBytes(params)
    ensures |r| == |params| && forall i | 0 <= i < |r| :: r[i] == Item(params[i])
  {
    if params == [] then []
    else Items(params[..|params| - 1]) + [Item(params[|params| - 1])]
  }

  /** params_to_query_str. */
  function Print(params: seq<Param>): string
    requires AllBytes(params)
  {
    if params == [] then []
    else
      var n := |params| - 1;
      Print(params[..n]) + (if n == 0 then [] else "&") + Item(params[n])
  }

  method ParamsToQueryStr(params: seq<Param>) returns (query: string)
    requires AllBytes(params)
    ensures query == Print(params)
  {
    query := "";
    for i := 0 to |params|
      invariant query == Print(params[..i])
    {
      if i != 0 {
        query := query + "&";
      }
      query := query + params[i].key;
      query := query + "=";
      var value := EncodeQueryParam(params[i].value);
      query := query + value;
      PrintNext(params, i);
    }
    assert params[..|params|] == params;
  }

  lemma PrintNext(params: seq<Param>, i: nat)
    requires AllBytes(params) && i < |params|
    ensures Print(params[..i + 1])
            == Print(params[..i]) + (if i == 0 then [] else "&") + params[i].key + "=" + Encode(params[i].value)
  {
    hide Encode;
    assert params[..i + 1][..i] == params[..i];
  }

  // ---------------------------------------------------------------- the round trip of a whole query

  /** Position i of a key is a plus sign or starts a percent code, so decode_url would rewrite it. */
  predicate CodeAt(k: string, i: nat)
    requires i < |k|
  {
    || k[i] == '+'
    || (k[i] == '%' && i + 1 < |k|
        && (if k[i + 1] == 'u' then FromHex(k, i + 2, 4) >= 0 else FromHex(k, i + 1, 2) >= 0))
  }

  /** The keys a query can carry: they are printed as they stand, but split, divided and decoded when read. */
  predicate CleanKey(k: string) {
    && k != [] && !Blank(k[0]) && '&' !in k && '=' !in k
    && forall i | 0 <= i < |k| :: !CodeAt(k, i)
  }

  lemma UnitShrinks(s: string, i: nat)
    requires i < |s|
    ensures |Unit(s, true, i).0| <= Unit(s, true, i).1 - i
    ensures CodeAt(s, i) && s[i] != '+' ==> |Unit(s, true, i).0| < Unit(s, true, i).1 - i
    ensures s[i] == '+' ==> Unit(s, true, i) == ([' '], i + 1)
    ensures !CodeAt(s, i) ==> Unit(s, true, i) == ([s[i]], i + 1)
  {
  }

  lemma {:induction false} DecodeWithoutCodes(k: string, i: nat)
    requires i <= |k| && forall j | i <= j < |k| :: !CodeAt(k, j)
    ensures Decode(k, true, i) == k[i..]
    decreases |k| - i
  {
    if i < |k| {
      DecodeWithoutCodes(k, i + 1);
      UnitShrinks(k, i);
      DecodeFrom(k, true, i);
      assert k[i..] == [k[i]] + k[i + 1..];
    }
  }

  lemma {:induction false} DecodeShrinks(s: string, i: nat)
    requires i <= |s|
    ensures |Decode(s, true, i)| <= |s| - i
    decreases |s| - i
  {
    hide Unit;
    if i < |s| {
      UnitShrinks(s, i);
      DecodeFrom(s, true, i);
      DecodeShrinks(s, Unit(s, true, i).1);
    }
  }

  /** An item is one stripped field of the query. */
  lemma ItemIsField(p: Param)
    requires Bytes(p.value) && p.key != [] && !Blank(p.key[0]) && '&' !in p.key
    ensures '&' !in Item(p) && Strip(Item(p)) == Item(p) && Pieces(Item(p), '&') == [Item(p)]
  {
    hide Encode, Find, DropBlanks, DropBlanksBack;
    var e := Encode(p.value);
    var t := Item(p);
    EncodedCharacters(p.value);
    assert '&' !in e;
    assert t[0] == p.key[0];
    assert !Blank(t[|t| - 1]) by {
      assert t[|t| - 1] == if e == [] then '=' else e[|e| - 1];
    }
    assert [] + t + [] == t;
    StripBetween([], t, []);
    FindIs(t, '&', |t|);
    assert t[..|t|] == t;
  }

  /** A separator splits the pieces. */
  lemma {:induction false} PiecesAppend(a: string, b: string)
    ensures Pieces(a + "&" + b, '&') == Pieces(a, '&') + Pieces(b, '&')
    decreases |a|
  {
    hide Piece, Pieces;
    var s := a + "&" + b;
    var k := Find(a, '&');
    if k < |a| {
      assert s[..k] == a[..k] && s[k] == '&';
      FirstField(s, '&', k);
      FirstField(a, '&', k);
      PiecesAppend(a[k + 1..], b);
      assert s[k + 1..] == a[k + 1..] + "&" + b;
      var rest := Pieces(a[k + 1..], '&');
      assert Piece(a[..k]) + (rest + Pieces(b, '&')) == (Piece(a[..k]) + rest) + Pieces(b, '&');
    } else {
      assert s[..|a|] == a && s[|a|] == '&';
      FirstField(s, '&', |a|);
      LastField(a, '&', 0);
      assert a[0..] == a && s[|a| + 1..] == b;
    }
  }

  predicate CleanKeys(params: seq<Param>) { forall i | 0 <= i < |params| :: CleanKey(params[i].key) }

  lemma {:induction false} PiecesOfPrint(params: seq<Param>)
    requires AllBytes(params) && CleanKeys(params)
    ensures Pieces(Print(params), '&') == Items(params)
  {
    hide Strip, CodeAt, Item, Encode;
    if params == [] {
      assert Print(params) == [] && Strip([]) == [] by { StripAllBlank([]); }
    } else {
      var n := |params| - 1;
      PiecesOfPrint(params[..n]);
      assert CleanKey(params[n].key);
      ItemIsField(params[n]);
      if n == 0 {
        assert Print(params) == Item(params[0]);
      } else {
        PiecesAppend(Print(params[..n]), Item(params[n]));
      }
    }
  }

  lemma DivideItem(p: Param)
    requires Bytes(p.value) && '=' !in p.key
    ensures Divide(Item(p), '=') == (p.key, Encode(p.value))
  {
    var t := Item(p);
    assert t[..|p.key|] == p.key;
    assert t[|p.key| + 1..] == Encode(p.value);
    FindIs(t, '=', |p.key|);
  }

  lemma TakeItem(st: Parsed, p: Param)
    requires Bytes(p.value) && CleanKey(p.key)
    ensures TakePiece(st, Item(p)) ==
            if Item(p) in st.cache then st else Parsed(st.cache + {Item(p)}, Emplace(st.params, p))
  {
    hide Unit, CodeAt, Encode;
    DivideItem(p);
    DecodeWithoutCodes(p.key, 0);
    DecodeEncoded([], p.value, true);
    assert [] + Encode(p.value) == Encode(p.value);
  }

  lemma ItemInjective(p: Param, q: Param)
    requires Bytes(p.value) && Bytes(q.value) && '=' !in p.key && '=' !in q.key && Item(p) == Item(q)
    ensures p == q
  {
    hide Decode, Unit, Encode;
    DivideItem(p);
    DivideItem(q);
    DecodeEncoded([], p.value, true);
    DecodeEncoded([], q.value, true);
  }

  /** The pairs without those that occurred before. */
  function Dedup(params: seq<Param>): (r: seq<Param>)
    ensures forall p :: p in r <==> p in params
    ensures forall i, j | 0 <= i < j < |r| :: r[i] != r[j]
    ensures (forall i, j | 0 <= i < j < |params| :: params[i] != params[j]) ==> r == params
  {
    if params == [] then []
    else
      var n := |params| - 1;
      assert params == params[..n] + [params[n]];
      var r := Dedup(params[..n]);
      if params[n] in params[..n] then r else r + [params[n]]
  }

  lemma ItemKnown(params: seq<Param>, p: Param)
    requires AllBytes(params) && CleanKeys(params) && Bytes(p.value) && CleanKey(p.key)
    ensures Item(p) in Items(params) <==> p in params
  {
    hide Item, CodeAt;
    forall i | 0 <= i < |params| && Item(params[i]) == Item(p) ensures params[i] == p {
      assert CleanKey(params[i].key);
      ItemInjective(params[i], p);
    }
    if p in params {
      var i :| 0 <= i < |params| && params[i] == p;
      assert Items(params)[i] == Item(p);
    }
  }

  lemma DedupNext(params: seq<Param>, p: Param)
    requires forall i | 0 <= i < |params| :: !Less(p.key, params[i].key)
    ensures p !in params ==> Emplace(Dedup(params), p) == Dedup(params) + [p]
    ensures Dedup(params + [p]) == if p in params then Dedup(params) else Dedup(params) + [p]
  {
    hide Less, Emplace;
    forall i | 0 <= i < |Dedup(params)| ensures !Less(p.key, Dedup(params)[i].key) {
      assert Dedup(params)[i] in params;
    }
    EmplaceLast(Dedup(params), p);
    assert (params + [p])[..|params|] == params;
  }

  lemma ItemsNext(params: seq<Param>)
    requires AllBytes(params) && params != []
    ensures Items(params) == Items(params[..|params| - 1]) + [Item(params[|params| - 1])]
  {
  }

  lemma TakeItemsNext(st: Parsed, items: seq<string>, t: string)
    ensures TakePieces(st, items + [t]) == TakePiece(TakePieces(st, items), t)
  {
  }

  lemma LastOfSorted(params: seq<Param>)
    requires AllBytes(params) && CleanKeys(params) && Sorted(params) && params != []
    ensures
      var init, p := params[..|params| - 1], params[|params| - 1];
      && AllBytes(init) && CleanKeys(init) && Sorted(init) && Bytes(p.value) && CleanKey(p.key)
      && forall i | 0 <= i < |init| :: !Less(p.key, init[i].key)
  {
    hide Less, CleanKey;
    assert CleanKey(params[|params| - 1].key);
  }

  /** Having taken the items of a sorted list, the cache holds the items and the parameters are the distinct pairs. */
  lemma {:induction false} TakeItems(params: seq<Param>)
    requires AllBytes(params) && CleanKeys(params) && Sorted(params)
    ensures
      var st := TakePieces(Parsed({}, []), Items(params));
      st.params == Dedup(params) && forall t :: t in st.cache <==> t in Items(params)
  {
    hide Item, Less, CleanKey, Emplace, Dedup, TakePiece, Items, Encode, Sorted, AllBytes, CleanKeys, Bytes;
    if params == [] {
      NoItems();
    } else {
      var n := |params| - 1;
      var init, p := params[..n], params[n];
      LastOfSorted(params);
      TakeItems(init);
      ItemsNext(params);
      TakeItemsNext(Parsed({}, []), Items(init), Item(p));
      var st := TakePieces(Parsed({}, []), Items(init));
      TakeItem(st, p);
      ItemKnown(init, p);
      assert params == init + [p];
      DedupNext(init, p);
    }
  }

  lemma NoItems()
    ensures Items([]) == [] && Dedup([]) == []
  {
  }

  /** Parsing a printed multimap gives it back without duplicate pairs. */
  lemma RoundTrip(params: seq<Param>)
    requires AllBytes(params) && CleanKeys(params) && Sorted(params)
    ensures Parse(Print(params), []) == Dedup(params)
  {
    hide CleanKey, Less, Item;
    PiecesOfPrint(params);
    TakeItems(params);
  }

  /** Parsing never breaks the order of the multimap, whatever the text. */
  lemma {:induction false} TakePiecesKeepsSorted(st: Parsed, pieces: seq<string>)
    requires Sorted(st.params)
    ensures Sorted(TakePieces(st, pieces).params)
  {
    hide Less, Decode, Find;
    if pieces != [] {
      var n := |pieces| - 1;
      TakePiecesKeepsSorted(st, pieces[..n]);
      var before := TakePieces(st, pieces[..n]);
      var (key, val) := Divide(pieces[n], '=');
      EmplaceKeepsSorted(before.params, Param(Decode(key, true, 0), Decode(val, true, 0)));
    }
  }

  // ---------------------------------------------------------------- exactly which keys survive

  lemma {:induction false} DropBlanksKey(k: string, t: string)
    requires t != [] && !Blank(t[0])
    ensures DropBlanks(k + t) == DropBlanks(k) + t
  {
    if k == [] {
      assert k + t == t;
    } else {
      assert (k + t)[1..] == k[1..] + t;
      DropBlanksKey(k[1..], t);
    }
  }

  lemma {:induction false} DropBlanksValue(t: string, w: string)
    requires t != [] && !Blank(t[|t| - 1])
    ensures DropBlanksBack(t + w) == t + DropBlanksBack(w)
  {
    if w == [] {
      assert t + w == t;
    } else {
      assert (t + w)[..|t + w| - 1] == t + w[..|w| - 1];
      DropBlanksValue(t, w[..|w| - 1]);
    }
  }

  lemma FieldStripped(k: string, w: string)
    ensures Strip(k + "=" + w) == DropBlanks(k) + "=" + DropBlanksBack(w)
    ensures if k == [] || !Blank(k[0]) then DropBlanks(k) == k else |DropBlanks(k)| < |k|
  {
    hide DropBlanksBack;
    var a := DropBlanks(k);
    assert k + "=" + w == k + ("=" + w);
    DropBlanksKey(k, "=" + w);
    assert a + ("=" + w) == (a + "=") + w;
    DropBlanksValue(a + "=", w);
  }

  /** The key read from a field k=w: k without leading blanks, cut at its first equals sign. */
  lemma KeyOfField(k: string, w: string)
    ensures
      var t := Strip(k + "=" + w);
      var key := Divide(t, '=').0;
      && t != []
      && |key| <= |DropBlanks(k)|
      && ('=' !in k && k != [] && !Blank(k[0]) ==> key == k)
      && ('=' in k || (k != [] && Blank(k[0])) ==> |key| < |k|)
  {
    hide Strip, DropBlanks, DropBlanksBack, Find;
    FieldStripped(k, w);
    var a := DropBlanks(k);
    var t := Strip(k + "=" + w);
    assert t[|a|] == '=';
    if a == k && '=' in k {
      var j :| 0 <= j < |k| && k[j] == '=';
      assert t[j] == '=';
    } else if a == k {
      assert t[..|k|] == k;
      FindIs(t, '=', |k|);
    }
  }

  lemma {:induction false} SpilledKeys(k: string, w: string)
    requires '&' in k && '&' !in w
    ensures forall i | 0 <= i < |Pieces(k + "=" + w, '&')| :: |Divide(Pieces(k + "=" + w, '&')[i], '=').0| < |k|
  {
    hide Strip, Pieces;
    var s := k + "=" + w;
    var a := Find(k, '&');
    var k2 := k[a + 1..];
    assert k[a] == '&';
    assert s[..a] == k[..a] && s[a + 1..] == k2 + "=" + w;
    FirstField(s, '&', a);
    if '&' in k2 {
      SpilledKeys(k2, w);
    } else {
      var t := k2 + "=" + w;
      LastField(t, '&', 0);
      assert t[0..] == t;
      KeyOfField(k2, w);
    }
  }

  /** What can be read from a piece of a pair printed with key k. */
  predicate FromKey(key: string, k: string) {
    && |key| <= |k|
    && (|key| == |k| && k != [] ==> key == k && Whole(k))
    && (Whole(k) ==> key == k)
  }

  /** A key that is not taken apart, whatever decoding makes of it. */
  predicate Whole(k: string) { k != [] && !Blank(k[0]) && '&' !in k && '=' !in k }

  lemma PieceOfItem(p: Param)
    requires Bytes(p.value)
    ensures forall t | t in Pieces(Item(p), '&') :: FromKey(Divide(t, '=').0, p.key)
  {
    hide Strip, Pieces, Encode;
    EncodedCharacters(p.value);
    assert '&' !in Encode(p.value);
    if '&' in p.key {
      SpilledKeys(p.key, Encode(p.value));
    } else {
      var s := Item(p);
      LastField(s, '&', 0);
      assert s[0..] == s;
      KeyOfField(p.key, Encode(p.value));
    }
  }

  ghost predicate ReadFrom(key: string, params: seq<Param>) {
    exists i :: 0 <= i < |params| && FromKey(key, params[i].key)
  }

  lemma {:induction false} PiecesOfAny(params: seq<Param>)
    requires AllBytes(params)
    ensures forall t | t in Pieces(Print(params), '&') :: ReadFrom(Divide(t, '=').0, params)
  {
    hide Strip, Pieces, Item, FromKey, Divide;
    if params == [] {
      NothingPrinted();
    } else {
      var n := |params| - 1;
      var init := params[..n];
      PiecesOfAny(init);
      PieceOfItem(params[n]);
      forall key | ReadFrom(key, init) ensures ReadFrom(key, params) {
        var i :| 0 <= i < |init| && FromKey(key, init[i].key);
        assert params[i] == init[i];
      }
      if n > 0 {
        PiecesAppend(Print(init), Item(params[n]));
      } else {
        assert Print(params) == Item(params[0]);
      }
    }
  }

  lemma NothingPrinted()
    ensures Pieces(Print([]), '&') == []
  {
    assert Strip([]) == [] by { StripAllBlank([]); }
  }

  /** Every pair read has its key from some piece. */
  lemma {:induction false} KeysReadFrom(pieces: seq<string>, params: seq<Param>)
    requires forall t | t in pieces :: ReadFrom(Divide(t, '=').0, params)
    ensures forall q | q in TakePieces(Parsed({}, []), pieces).params ::
              exists key :: key != [] && ReadFrom(key, params) && q.key == Decode(key, true, 0)
  {
    hide Less, Unit, Find, ReadFrom, Divide;
    if pieces != [] {
      var m := |pieces| - 1;
      KeysReadFrom(pieces[..m], params);
      var st := TakePieces(Parsed({}, []), pieces[..m]);
      var (key, val) := Divide(pieces[m], '=');
      assert pieces[m] in pieces;
      var q := Param(Decode(key, true, 0), Decode(val, true, 0));
      forall p | p in Emplace(st.params, q) ensures p in st.params || p == q {
        assert p in multiset(Emplace(st.params, q));
      }
    }
  }

  /** A percent code makes the text shorter. */
  lemma {:induction false} CodeShortens(s: string, i: nat, j: nat)
    requires i <= j < |s| && CodeAt(s, j) && s[j] != '+'
    ensures |Decode(s, true, i)| < |s| - i
    decreases |s| - i
  {
    hide Unit, FromHex;
    UnitShrinks(s, i);
    DecodeFrom(s, true, i);
    DecodeShrinks(s, Unit(s, true, i).1);
    if !CodeAt(s, i) || s[i] == '+' {
      CodeShortens(s, i + 1, j);
    }
  }

  /** A text that keeps its length in decoding has lost its plus signs. */
  lemma {:induction false} NoPlusLeft(s: string, i: nat)
    requires i <= |s| && |Decode(s, true, i)| == |s| - i
    ensures '+' !in Decode(s, true, i)
    decreases |s| - i
  {
    hide Unit, FromHex;
    if i < |s| {
      UnitShrinks(s, i);
      DecodeFrom(s, true, i);
      DecodeShrinks(s, Unit(s, true, i).1);
      if s[i] == '+' || !CodeAt(s, i) {
        NoPlusLeft(s, i + 1);
      }
    }
  }

  /** No key longer than this one is unclean. */
  predicate LongestUnclean(params: seq<Param>, m: nat) {
    && m < |params| && !CleanKey(params[m].key)
    && forall i | 0 <= i < |params| && !CleanKey(params[i].key) :: |params[i].key| <= |params[m].key|
  }

  /** A longest unclean key can only be read from another one, kept whole, by turning plus signs into spaces. */
  lemma LongestIsRead(params: seq<Param>, m: nat) returns (i: nat)
    requires AllBytes(params) && Parse(Print(params), []) == Dedup(params) && LongestUnclean(params, m)
    ensures LongestUnclean(params, i) && Whole(params[i].key)
    ensures |Decode(params[i].key, true, 0)| == |params[i].key| && '+' !in params[m].key
  {
    hide CleanKey, Print, Pieces, TakePieces, Decode, FromKey;
    var k := params[m].key;
    PiecesOfAny(params);
    KeysReadFrom(Pieces(Print(params), '&'), params);
    assert params[m] in Dedup(params);
    var key :| key != [] && ReadFrom(key, params) && k == Decode(key, true, 0);
    i :| 0 <= i < |params| && FromKey(key, params[i].key);
    var other := params[i].key;
    DecodeShrinks(key, 0);
    KeyKept(key, other);
    if |key| == |k| {
      NoPlusLeft(key, 0);
    }
  }

  lemma KeyKept(key: string, k: string)
    requires FromKey(key, k) && key != []
    ensures |key| <= |k| && (|key| == |k| ==> key == k && Whole(k))
    ensures CleanKey(k) ==> key == k && Decode(key, true, 0) == key
  {
    hide CodeAt, Decode;
    if CleanKey(k) {
      DecodeWithoutCodes(k, 0);
      assert k[0..] == k;
    }
  }

  lemma {:induction false} SomeLongest(params: seq<Param>, n: nat) returns (m: nat)
    requires n <= |params| && !CleanKeys(params[..n])
    ensures m < n && LongestUnclean(params[..n], m)
  {
    hide CleanKey;
    var init := params[..n];
    var last := n - 1;
    assert init[..last] == params[..last];
    if CleanKeys(params[..last]) {
      m := last;
    } else {
      m := SomeLongest(params, last);
      if !CleanKey(init[last].key) && |init[last].key| > |init[m].key| {
        m := last;
      }
    }
  }

  /** The condition is exact: a multimap survives printing and parsing, up to duplicate pairs, if and only if all
      its keys are clean. */
  lemma RoundTripIsExact(params: seq<Param>)
    requires AllBytes(params) && Sorted(params)
    ensures Parse(Print(params), []) == Dedup(params) <==> CleanKeys(params)
  {
    hide CleanKey, Less, Parse, Print, Dedup, Decode;
    if CleanKeys(params) {
      RoundTrip(params);
    } else if Parse(Print(params), []) == Dedup(params) {
      assert params[..|params|] == params;
      var m := SomeLongest(params, |params|);
      var i := LongestIsRead(params, m);
      var j := LongestIsRead(params, i);
      CodeInWhole(params[i].key);
    }
  }

  /** A whole key without plus signs that keeps its length in decoding is clean. */
  lemma CodeInWhole(k: string)
    requires Whole(k) && '+' !in k && |Decode(k, true, 0)| == |k|
    ensures CleanKey(k)
  {
    hide Decode, FromHex;
    forall j | 0 <= j < |k| ensures !CodeAt(k, j) {
      assert k[j] in k;
      if CodeAt(k, j) {
        CodeShortens(k, 0, j);
      }
    }
  }
}
