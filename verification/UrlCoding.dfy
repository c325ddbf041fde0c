/** The URL coding of httplib.h: encode_query_param and decode_url. A byte is a `char` below 256. */
module UrlCoding {
  import FixedPoint

  predicate Bytes(s: string) { forall i | 0 <= i < |s| :: s[i] as int < 256 }

  // ---------------------------------------------------------------- hexadecimal

  const HEX_UPPER := "0123456789ABCDEF"

  /** is_hex: the value of a hexadecimal digit, -1 for any other byte. */
  function HexValue(c: char): (v: int)
    ensures -1 <= v < 16
  {
    if '0' <= c <= '9' then c as int - '0' as int
    else if 'A' <= c <= 'F' then c as int - 'A' as int + 10
    else if 'a' <= c <= 'f' then c as int - 'a' as int + 10
    else -1
  }

  lemma HexUpperInverse(d: nat)
    requires d < 16
    ensures HexValue(HEX_UPPER[d]) == d && HEX_UPPER[d] != 'u'
  {
  }

  /** The value of the first cnt digits of s, -1 if one of them is missing or is no digit. */
  function HexPrefix(s: string, cnt: nat, val: nat): (r: int)
    ensures r >= -1
    ensures r >= 0 ==> cnt <= |s|
  {
    if cnt == 0 then val
    else if s == [] || HexValue(s[0]) < 0 then -1
    else HexPrefix(s[1..], cnt - 1, val * 16 + HexValue(s[0]))
  }

  /** from_hex_to_i at position i: -1 when it fails. The NUL behind the string stops the digits. */
  function FromHex(s: string, i: nat, cnt: nat): (r: int)
    ensures r >= -1
    ensures r >= 0 ==> i + cnt <= |s|
  {
    if i >= |s| then -1 else HexPrefix(s[i..], cnt, 0)
  }

  method FromHexToI(s: string, i: nat, cnt: nat) returns (val: int)
    ensures val == FromHex(s, i, cnt)
  {
    if i >= |s| {
      return -1;
    }
    var acc: nat := 0;
    var j, left := i, cnt;
    while left > 0
      invariant 0 <= left <= cnt && i <= j <= |s|
      invariant HexPrefix(s[i..], cnt, 0) == HexPrefix(s[j..], left, acc)
    {
      if j == |s| {
        return -1;
      }
      var v := HexValue(s[j]);
      if v < 0 {
        return -1;
      }
      assert s[j..][1..] == s[j + 1..];
      acc := acc * 16 + v;
      j, left := j + 1, left - 1;
    }
    val := acc;
  }

  function Pow16(n: nat): nat { if n == 0 then 1 else 16 * Pow16(n - 1) }

  lemma {:induction false} HexPrefixBelow(s: string, cnt: nat, val: nat, bound: nat)
    requires val < bound
    ensures HexPrefix(s, cnt, val) < bound * Pow16(cnt)
  {
    if cnt == 0 {
    } else if s == [] || HexValue(s[0]) < 0 {
      assert bound * Pow16(cnt) >= 0 by { FixedPoint.NonNegativeProduct(bound, Pow16(cnt)); }
    } else {
      HexPrefixBelow(s[1..], cnt - 1, val * 16 + HexValue(s[0]), bound * 16);
      assert (bound * 16) * Pow16(cnt - 1) == bound * (16 * Pow16(cnt - 1));
    }
  }

  // ---------------------------------------------------------------- encoding a value

  predicate Plain(c: char) {
    || '0' <= c <= '9' || 'A' <= c <= 'Z' || 'a' <= c <= 'z'
    || c in ['-', '_', '.', '!', '~', '*', '\'', '(', ')']
  }

  function EncodeChar(c: char): string
    requires c as int < 256
  {
    if Plain(c) then [c] else ['%', HEX_UPPER[c as int / 16], HEX_UPPER[c as int % 16]]
  }

  function Encode(s: string): string
    requires Bytes(s)
  {
    if s == [] then [] else EncodeChar(s[0]) + Encode(s[1..])
  }

  lemma {:induction false} EncodeAppend(s: string, c: char)
    requires Bytes(s) && c as int < 256
    ensures Bytes(s + [c]) && Encode(s + [c]) == Encode(s) + EncodeChar(c)
  {
    hide EncodeChar;
    if s == [] {
      assert [] + [c] == [c];
      assert Encode([c]) == EncodeChar(c) + Encode([]);
    } else {
      assert (s + [c])[1..] == s[1..] + [c];
      EncodeAppend(s[1..], c);
    }
  }

  method EncodeQueryParam(value: string) returns (escaped: string)
    requires Bytes(value)
    ensures escaped == Encode(value)
  {
    escaped := "";
    for i := 0 to |value|
      invariant escaped == Encode(value[..i])
    {
      var c := value[i];
      if Plain(c) {
        escaped := escaped + [c];
      } else {
        escaped := escaped + ['%', HEX_UPPER[c as int / 16], HEX_UPPER[c as int % 16]];
      }
      EncodeAppend(value[..i], c);
      assert value[..i + 1] == value[..i] + [c];
    }
    assert value[..|value|] == value;
  }

  /** An encoded value consists of plain characters, percent signs and digits. */
  lemma {:induction false} EncodedCharacters(s: string)
    requires Bytes(s)
    ensures forall i | 0 <= i < |Encode(s)| :: Encode(s)[i] == '%' || Plain(Encode(s)[i])
  {
    if s != [] {
      EncodedCharacters(s[1..]);
      assert HEX_UPPER == ['0', '1', '2', '3', '4', '5', '6', '7', '8', '9', 'A', 'B', 'C', 'D', 'E', 'F'];
      assert forall d | 0 <= d < 16 :: Plain(HEX_UPPER[d]);
    }
  }

  // ---------------------------------------------------------------- decoding

  /** to_utf8, for the codes that four digits can name. */
  function ToUtf8(code: nat): string
    requires code < 0x10000
  {
    if code < 0x80 then [code as char]
    else if code < 0x800 then [(0xC0 + code / 64) as char, (0x80 + code % 64) as char]
    else if 0xD800 <= code < 0xE000 then []
    else [(0xE0 + code / 4096) as char, (0x80 + code / 64 % 64) as char, (0x80 + code % 64) as char]
  }

  lemma FromHexBound(s: string, i: nat)
    ensures FromHex(s, i, 2) < 256 && FromHex(s, i, 4) < 0x10000
  {
    if i < |s| {
      HexPrefixBelow(s[i..], 2, 0, 1);
      HexPrefixBelow(s[i..], 4, 0, 1);
      assert Pow16(2) == 256 && Pow16(4) == 0x10000;
    }
  }

  /** What the unit at position i stands for, and where the next unit begins. */
  function Unit(s: string, plusToSpace: bool, i: nat): (u: (string, nat))
    requires i < |s|
    ensures i < u.1 <= |s|
  {
    FromHexBound(s, i + 1);
    FromHexBound(s, i + 2);
    if s[i] == '%' && i + 1 < |s| then
      if s[i + 1] == 'u' then
        var val := FromHex(s, i + 2, 4);
        if val >= 0 then (ToUtf8(val), i + 6) else ([s[i]], i + 1)
      else
        var val := FromHex(s, i + 1, 2);
        if val >= 0 then ([val as char], i + 3) else ([s[i]], i + 1)
    else if plusToSpace && s[i] == '+' then ([' '], i + 1)
    else ([s[i]], i + 1)
  }

  /** decode_url from position i on. */
  function Decode(s: string, plusToSpace: bool, i: nat): string
    requires i <= |s|
    decreases |s| - i
  {
    if i == |s| then [] else
      var (piece, next) := Unit(s, plusToSpace, i);
      piece + Decode(s, plusToSpace, next)
  }

  method DecodeUrl(s: string, plusToSpace: bool) returns (result: string)
    ensures result == Decode(s, plusToSpace, 0)
  {
    hide *;
    result := "";
    var i := 0;
    while i < |s|
      invariant 0 <= i <= |s|
      invariant Decode(s, plusToSpace, 0) == result + Decode(s, plusToSpace, i)
    {
      var piece, next := DecodeUnit(s, plusToSpace, i);
      DecodeFrom(s, plusToSpace, i);
      assert result + (piece + Decode(s, plusToSpace, next)) == (result + piece) + Decode(s, plusToSpace, next);
      result := result + piece;
      i := next;
    }
    DecodeEnd(s, plusToSpace);
    assert result + [] == result;
  }

  lemma DecodeFrom(s: string, plusToSpace: bool, i: nat)
    requires i < |s|
    ensures Decode(s, plusToSpace, i) == Unit(s, plusToSpace, i).0 + Decode(s, plusToSpace, Unit(s, plusToSpace, i).1)
  {
  }

  lemma DecodeEnd(s: string, plusToSpace: bool)
    ensures Decode(s, plusToSpace, |s|) == []
  {
  }

  method DecodeUnit(s: string, plusToSpace: bool, i: nat) returns (piece: string, next: nat)
    requires i < |s|
    ensures (piece, next) == Unit(s, plusToSpace, i)
  {
    hide FromHex, ToUtf8;
    FromHexBound(s, i + 1);
    FromHexBound(s, i + 2);
    piece, next := [s[i]], i + 1;
    if s[i] == '%' && i + 1 < |s| {
      if s[i + 1] == 'u' {
        var val := FromHexToI(s, i + 2, 4);
        if val >= 0 {
          piece, next := ToUtf8(val), i + 6;
        }
      } else {
        var val := FromHexToI(s, i + 1, 2);
        if val >= 0 {
          piece, next := [val as char], i + 3;
        }
      }
    } else if plusToSpace && s[i] == '+' {
      piece := [' '];
    }
  }

  // ---------------------------------------------------------------- the round trip of a value

  /** Decoding an encoded byte string, wherever it ends a text, gives the byte string back. */
  lemma {:induction false} DecodeEncoded(before: string, v: string, plusToSpace: bool)
    requires Bytes(v)
    ensures Decode(before + Encode(v), plusToSpace, |before|) == v
    decreases |v|
  {
    hide EncodeChar, Unit;
    var s, i := before + Encode(v), |before|;
    if v != [] {
      var e, later := EncodeChar(v[0]), Encode(v[1..]);
      Standing(before, e, later);
      DecodeEncoded(before + e, v[1..], plusToSpace);
      DecodeFirst(s, i, v[0], plusToSpace);
    }
  }

  lemma Standing(a: string, b: string, c: string)
    ensures a + (b + c) == (a + b) + c && (a + (b + c))[|a|..|a| + |b|] == b
  {
  }

  lemma DecodeFirst(s: string, i: nat, c: char, plusToSpace: bool)
    requires c as int < 256 && i + |EncodeChar(c)| <= |s| && s[i..i + |EncodeChar(c)|] == EncodeChar(c)
    ensures Decode(s, plusToSpace, i) == [c] + Decode(s, plusToSpace, i + |EncodeChar(c)|)
  {
    var e := EncodeChar(c);
    var t := s[i..i + |e|];
    assert s[i] == t[0];
    if !Plain(c) {
      var h, l := c as int / 16, c as int % 16;
      HexUpperInverse(h);
      HexUpperInverse(l);
      assert s[i + 1] == t[1] && s[i + 2] == t[2];
      TwoDigits(s, i + 1);
      assert FromHex(s, i + 1, 2) == c as int;
    }
  }

  lemma TwoDigits(s: string, i: nat)
    requires i + 2 <= |s| && HexValue(s[i]) >= 0 && HexValue(s[i + 1]) >= 0
    ensures FromHex(s, i, 2) == HexValue(s[i]) * 16 + HexValue(s[i + 1])
  {
    var t := s[i..];
    assert t[1..][0] == s[i + 1];
    assert HexPrefix(t, 2, 0) == HexPrefix(t[1..], 1, HexValue(t[0]));
    assert HexPrefix(t[1..], 1, HexValue(t[0])) == HexPrefix(t[1..][1..], 0, HexValue(t[0]) * 16 + HexValue(t[1..][0]));
  }

  /** A text without percent and plus signs decodes to itself. */
  lemma {:induction false} DecodePlainText(s: string, plusToSpace: bool, i: nat)
    requires i <= |s| && '%' !in s && (plusToSpace ==> '+' !in s)
    ensures Decode(s, plusToSpace, i) == s[i..]
    decreases |s| - i
  {
    if i < |s| {
      DecodePlainText(s, plusToSpace, i + 1);
      assert s[i] in s;
      assert s[i..] == [s[i]] + s[i + 1..];
    }
  }
}
