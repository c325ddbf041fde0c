/** The size line of a chunk: printed by from_i_to_hex, read back by C's strtoul in base 16. */
module ChunkSize {
  import opened UrlCoding

  const ULONG_MAX := 0xFFFF_FFFF_FFFF_FFFF

  const HEX_LOWER := "0123456789abcdef"

  function ToHex(n: nat): string {
    (if n < 16 then [] else ToHex(n / 16)) + [HEX_LOWER[n % 16]]
  }

  method FromIToHex(n: nat) returns (ret: string)
    ensures ret == ToHex(n)
  {
    ret := [HEX_LOWER[n % 16]];
    var left := n / 16;
    while left > 0
      invariant left >= 0
      invariant (if left == 0 then [] else ToHex(left)) + ret == ToHex(n)
    {
      ToHexStep(left, ret);
      ret := [HEX_LOWER[left % 16]] + ret;
      left := left / 16;
    }
  }

  lemma ToHexStep(left: nat, ret: string)
    requires left > 0
    ensures ToHex(left) + ret == (if left / 16 == 0 then [] else ToHex(left / 16)) + ([HEX_LOWER[left % 16]] + ret)
  {
  }

  /** The value of the hexadecimal digits s starts with, behind digits worth val. */
  function HexRun(s: string, val: nat): nat {
    if s == [] || HexValue(s[0]) < 0 then val else HexRun(s[1..], val * 16 + HexValue(s[0]))
  }

  predicate Space(c: char) { c == ' ' || '\t' <= c <= '\r' }

  function SkipSpaces(s: string): string {
    if s != [] && Space(s[0]) then SkipSpaces(s[1..]) else s
  }

  datatype Conversion = NoDigits | Value(n: nat)

  predicate StartsWithDigit(s: string) { s != [] && HexValue(s[0]) >= 0 }

  /** strtoul in base 16: spaces, a sign, an optional 0x, digits. Too large a number gives ULONG_MAX,
      a minus sign negates in unsigned arithmetic. A NUL ends the text since it is no digit. */
  function StrToUl(s: string): Conversion {
    var t := SkipSpaces(s);
    var negative := t != [] && t[0] == '-';
    var u := if t != [] && (t[0] == '-' || t[0] == '+') then t[1..] else t;
    var digits := if |u| > 2 && u[0] == '0' && u[1] in ['x', 'X'] && StartsWithDigit(u[2..]) then u[2..] else u;
    if !StartsWithDigit(digits) then NoDigits else
      var v := HexRun(digits, 0);
      if v > ULONG_MAX then Value(ULONG_MAX)
      else if negative && v > 0 then Value(ULONG_MAX + 1 - v)
      else Value(v)
  }

  lemma HexDigit(d: nat)
    requires d < 16
    ensures HexValue(HEX_LOWER[d]) == d && !Space(HEX_LOWER[d]) && HEX_LOWER[d] !in ['+', '-', 'x', 'X', '\0', '\r']
  {
  }

  /** A printed number is a run of digits worth that number. */
  lemma {:induction false} ToHexDigits(n: nat)
    ensures |ToHex(n)| > 0
    ensures forall i | 0 <= i < |ToHex(n)| :: ToHex(n)[i] in HEX_LOWER
  {
    if n >= 16 {
      ToHexDigits(n / 16);
    }
  }

  lemma {:induction false} HexRunAppend(s: string, t: string, val: nat)
    requires forall i | 0 <= i < |s| :: HexValue(s[i]) >= 0
    ensures HexRun(s + t, val) == HexRun(t, HexRun(s, val))
  {
    if s == [] {
      assert s + t == t;
    } else {
      assert (s + t)[1..] == s[1..] + t;
      HexRunAppend(s[1..], t, val * 16 + HexValue(s[0]));
    }
  }

  lemma LowerDigits(s: string)
    requires forall i | 0 <= i < |s| :: s[i] in HEX_LOWER
    ensures forall i | 0 <= i < |s| :: HexValue(s[i]) >= 0 && !Space(s[i]) && s[i] !in ['+', '-', 'x', 'X', '\0', '\r']
  {
    forall i | 0 <= i < |s| ensures HexValue(s[i]) >= 0 && !Space(s[i]) && s[i] !in ['+', '-', 'x', 'X', '\0', '\r'] {
      var d :| 0 <= d < 16 && HEX_LOWER[d] == s[i];
      HexDigit(d);
    }
  }

  lemma {:induction false} HexRunOfToHex(n: nat)
    ensures HexRun(ToHex(n), 0) == n
  {
    HexDigit(n % 16);
    var last := [HEX_LOWER[n % 16]];
    if n < 16 {
      assert ToHex(n) == last;
      assert HexRun(last, 0) == HexRun(last[1..], n);
    } else {
      HexRunOfToHex(n / 16);
      ToHexDigits(n / 16);
      LowerDigits(ToHex(n / 16));
      HexRunAppend(ToHex(n / 16), last, 0);
      assert HexRun(last, n / 16) == HexRun(last[1..], n / 16 * 16 + n % 16);
    }
  }

  /** Reading a printed size, whatever non-digit follows it, gives the size. */
  lemma SizeRoundTrip(n: nat, tail: string)
    requires n <= ULONG_MAX && !StartsWithDigit(tail) && (tail != [] ==> tail[0] !in ['x', 'X'])
    ensures StrToUl(ToHex(n) + tail) == Value(n)
  {
    hide ToHex, HexRun, HexValue;
    var h := ToHex(n);
    ToHexDigits(n);
    LowerDigits(h);
    HexRunOfToHex(n);
    HexRunAppend(h, tail, 0);
    EndOfRun(tail, n);
    var s := h + tail;
    assert s[0] == h[0];
    assert SkipSpaces(s) == s;
    assert |s| > 1 ==> s[1] == if |h| > 1 then h[1] else tail[0];
  }

  lemma EndOfRun(tail: string, val: nat)
    requires !StartsWithDigit(tail)
    ensures HexRun(tail, val) == val
  {
  }
}
