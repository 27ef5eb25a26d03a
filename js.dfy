/** The slice of JavaScript's string and number semantics the editor relies on:
    the whitespace that String.prototype.trim and parseInt skip, parseInt with
    radix 16, String.prototype.slice, the store conversion of a
    Uint8ClampedArray, and the 32-bit view that the shift operators take. */
module Js {

  /** One element of a Uint8ClampedArray, such as ImageData.data. */
  type Byte = b: int | 0 <= b < 256

  datatype Option<T> = None | Some(value: T)

  /** The JavaScript numbers met here: NaN, or an integer. */
  datatype Num = NaN | Int(v: int)

  /** ECMAScript WhiteSpace or LineTerminator code points. */
  predicate IsWhitespace(c: char) {
    var n := c as int;
    if n <= 0x20 then n == 0x20 || 0x09 <= n <= 0x0D
    else if n < 0xA0 then false
    else
      || n == 0xA0 || n == 0x1680 || (0x2000 <= n <= 0x200A)
      || n == 0x2028 || n == 0x2029 || n == 0x202F || n == 0x205F
      || n == 0x3000 || n == 0xFEFF
  }

  predicate AllWhitespace(s: string) {
    forall i | 0 <= i < |s| :: IsWhitespace(s[i])
  }

  /** Drops leading whitespace. */
  function TrimStart(s: string): (r: string)
    ensures |r| <= |s| && r == s[|s| - |r|..]
    ensures AllWhitespace(s[..|s| - |r|])
    ensures r == [] || !IsWhitespace(r[0])
  {
    if s != [] && IsWhitespace(s[0]) then TrimStart(s[1..]) else s
  }

  /** Drops trailing whitespace. */
  function TrimEnd(s: string): (r: string)
    ensures |r| <= |s| && r == s[..|r|]
    ensures AllWhitespace(s[|r|..])
    ensures r == [] || !IsWhitespace(r[|r| - 1])
  {
    if s != [] && IsWhitespace(s[|s| - 1]) then TrimEnd(s[..|s| - 1]) else s
  }

  /** String.prototype.trim: the input with its whitespace margins removed. */
  function Trim(s: string): (r: string)
    ensures |r| <= |s|
    ensures r == [] || (!IsWhitespace(r[0]) && !IsWhitespace(r[|r| - 1]))
  {
    TrimEnd(TrimStart(s))
  }

  /** Trim removes only whitespace: the input is a whitespace margin, the
      trimmed string, and another whitespace margin. */
  lemma TrimMargins(s: string)
    ensures exists pre, post :: AllWhitespace(pre) && AllWhitespace(post) && s == pre + Trim(s) + post
  {
    var t := TrimStart(s);
    var r := TrimEnd(t);
    assert Trim(s) == r;
    var pre, post := Margins(s, t, r);
    assert AllWhitespace(pre) && AllWhitespace(post) && s == pre + Trim(s) + post;
  }

  /** Two margins cut off one after the other make one split of s. */
  lemma Margins(s: string, t: string, r: string) returns (pre: string, post: string)
    requires |t| <= |s| && t == s[|s| - |t|..] && AllWhitespace(s[..|s| - |t|])
    requires |r| <= |t| && r == t[..|r|] && AllWhitespace(t[|r|..])
    ensures AllWhitespace(pre) && AllWhitespace(post) && s == pre + r + post
  {
    pre, post := s[..|s| - |t|], t[|r|..];
    assert s == pre + t;
    assert t == r + post;
  }

  predicate IsHexDigit(c: char) {
    ('0' <= c <= '9') || ('a' <= c <= 'f') || ('A' <= c <= 'F')
  }

  predicate AllHex(s: string) {
    forall i | 0 <= i < |s| :: IsHexDigit(s[i])
  }

  function HexDigitValue(c: char): (d: nat)
    requires IsHexDigit(c)
    ensures d < 16
  {
    if '0' <= c <= '9' then c as int - '0' as int
    else if 'a' <= c <= 'f' then c as int - 'a' as int + 10
    else c as int - 'A' as int + 10
  }

  function Pow16(n: nat): (p: nat)
    ensures p >= 1
  {
    if n == 0 then 1 else 16 * Pow16(n - 1)
  }

  /** The value of a string of hexadecimal digits, most significant first. */
  function HexValue(s: string): (n: nat)
    requires AllHex(s)
    ensures n < Pow16(|s|)
  {
    if s == [] then 0 else HexValue(s[..|s| - 1]) * 16 + HexDigitValue(s[|s| - 1])
  }

  /** The length of the longest prefix made of hexadecimal digits. */
  function HexPrefixLength(s: string): (k: nat)
    ensures k <= |s| && AllHex(s[..k])
    ensures k < |s| ==> !IsHexDigit(s[k])
  {
    if s != [] && IsHexDigit(s[0]) then
      var k := 1 + HexPrefixLength(s[1..]);
      assert s[..k] == [s[0]] + s[1..][..k - 1];
      k
    else 0
  }

  /** The text after an optional '+' or '-' sign. */
  function Unsigned(t: string): (u: string)
    ensures u == t || (|t| > 0 && u == t[1..])
  {
    if |t| > 0 && (t[0] == '-' || t[0] == '+') then t[1..] else t
  }

  /** The text after an optional 0x or 0X prefix. */
  function WithoutHexPrefix(u: string): (d: string)
    ensures d == u || (|u| >= 2 && d == u[2..])
  {
    if |u| >= 2 && u[0] == '0' && (u[1] == 'x' || u[1] == 'X') then u[2..] else u
  }

  /** parseInt(s, 16): skip whitespace, take an optional sign and an optional
      0x prefix, then the longest run of hex digits; NaN when that run is empty. */
  function ParseIntHex(s: string): Num {
    var t := TrimStart(s);
    var negative := |t| > 0 && t[0] == '-';
    var d := WithoutHexPrefix(Unsigned(t));
    var k := HexPrefixLength(d);
    if k == 0 then NaN
    else
      var magnitude: int := HexValue(d[..k]);
      Int(if negative then -magnitude else magnitude)
  }

  /** On a non-empty string of hex digits parseInt returns exactly its value. */
  lemma ParseIntHexDigits(s: string)
    requires s != [] && AllHex(s)
    ensures ParseIntHex(s) == Int(HexValue(s))
  {
    assert IsHexDigit(s[0]) && !IsWhitespace(s[0]);
    assert TrimStart(s) == s;
    assert Unsigned(s) == s;
    assert |s| >= 2 ==> IsHexDigit(s[1]);
    assert WithoutHexPrefix(s) == s;
    assert HexPrefixLength(s) == |s|;
    assert s[..|s|] == s;
  }

  /** String.prototype.slice(start, end) for non-negative indices. */
  function Slice(s: string, start: nat, end: nat): (r: string)
    ensures |r| <= |s|
    ensures start <= end <= |s| ==> r == s[start..end]
  {
    var from := if start < |s| then start else |s|;
    var to := if end < |s| then end else |s|;
    if from < to then s[from..to] else ""
  }

  /** The conversion a Uint8ClampedArray applies on store: NaN becomes 0 and
      everything else is clamped into [0, 255]. */
  function ToUint8Clamp(n: Num): (b: Byte)
    ensures n.Int? && 0 <= n.v < 256 ==> b == n.v
  {
    match n
    case NaN => 0
    case Int(v) => if v < 0 then 0 else if v > 255 then 255 else v
  }

  /** The 32-bit pattern of ToInt32(n), read as an unsigned number; the
      operators >> and & act on this pattern. */
  function Int32Bits(n: Num): (u: nat)
    ensures u < 0x1_0000_0000
  {
    match n
    case NaN => 0
    case Int(v) => v % 0x1_0000_0000
  }
}
