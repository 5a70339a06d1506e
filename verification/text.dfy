/** The java.lang.String and Character behaviour the core relies on, for strings of
    Basic Multilingual Plane characters (one Dafny char per Java char). */
module Text {

  /** Character.isWhitespace: the Unicode space, line and paragraph separators except the
      three no-break spaces, plus the ASCII and information-separator controls. */
  predicate IsWhitespace(c: char) {
    || c == ' ' || c == '\t' || c == '\n' || c == '\U{000B}' || c == '\U{000C}' || c == '\r'
    || ('\U{001C}' <= c <= '\U{001F}')
    || c == '\U{1680}' || ('\U{2000}' <= c <= '\U{2006}') || ('\U{2008}' <= c <= '\U{200A}')
    || c == '\U{2028}' || c == '\U{2029}' || c == '\U{205F}' || c == '\U{3000}'
  }

  /** String.isBlank: every character is whitespace (so "" is blank). */
  predicate IsBlank(s: string) {
    forall i :: 0 <= i < |s| ==> IsWhitespace(s[i])
  }

  /** The regular-expression class \s: [ \t\n\x0B\f\r]. */
  predicate IsRegexSpace(c: char) {
    c == ' ' || c == '\t' || c == '\n' || c == '\U{000B}' || c == '\U{000C}' || c == '\r'
  }

  lemma RegexSpaceIsWhitespace(c: char)
    requires IsRegexSpace(c)
    ensures IsWhitespace(c) && c <= ' '
  {
  }

  /** Characters String.trim removes from both ends. */
  predicate IsTrimmable(c: char) {
    c <= ' '
  }

  function TrimStart(s: string): (r: string)
    ensures |r| <= |s| && r == s[|s| - |r|..]
    ensures forall i :: 0 <= i < |s| - |r| ==> IsTrimmable(s[i])
    ensures r == [] || !IsTrimmable(r[0])
    decreases |s|
  {
    if s != [] && IsTrimmable(s[0]) then TrimStart(s[1..]) else s
  }

  function TrimEnd(s: string): (r: string)
    ensures |r| <= |s| && r == s[..|r|]
    ensures forall i :: |r| <= i < |s| ==> IsTrimmable(s[i])
    ensures r == [] || !IsTrimmable(r[|r| - 1])
    decreases |s|
  {
    if s != [] && IsTrimmable(s[|s| - 1]) then TrimEnd(s[..|s| - 1]) else s
  }

  /** String.trim */
  function Trim(s: string): string {
    TrimEnd(TrimStart(s))
  }

  /** Character.toUpperCase and toLowerCase restricted to the ASCII letters. */
  function UpperAscii(c: char): char {
    if 'a' <= c <= 'z' then (c as int - 32) as char else c
  }

  function LowerAscii(c: char): char {
    if 'A' <= c <= 'Z' then (c as int + 32) as char else c
  }

  function ToUpper(s: string): (r: string)
    ensures |r| == |s|
    ensures forall i :: 0 <= i < |s| ==> r[i] == UpperAscii(s[i])
  {
    seq(|s|, i requires 0 <= i < |s| => UpperAscii(s[i]))
  }

  /** A string without lower-case ASCII letters is its own upper-case form. */
  lemma ToUpperFixesUpper(s: string)
    requires forall i :: 0 <= i < |s| ==> !('a' <= s[i] <= 'z')
    ensures ToUpper(s) == s
  {
  }

  function ToLower(s: string): (r: string)
    ensures |r| == |s|
    ensures forall i :: 0 <= i < |s| ==> r[i] == LowerAscii(s[i])
  {
    seq(|s|, i requires 0 <= i < |s| => LowerAscii(s[i]))
  }

  /** String.equalsIgnoreCase on a non-null argument. */
  predicate EqualsIgnoreCase(a: string, b: string) {
    ToUpper(a) == ToUpper(b)
  }

  /** String.startsWith */
  predicate StartsWith(s: string, prefix: string) {
    |prefix| <= |s| && s[..|prefix|] == prefix
  }

  /** String.repeat for a non-negative count. */
  function Repeat(c: char, n: nat): (r: string)
    ensures |r| == n
    ensures forall i :: 0 <= i < n ==> r[i] == c
  {
    seq(n, _ => c)
  }

  predicate IsAsciiDigit(c: char) {
    '0' <= c <= '9'
  }

  predicate IsAsciiUpper(c: char) {
    'A' <= c <= 'Z'
  }

  predicate IsAsciiLetter(c: char) {
    'A' <= c <= 'Z' || 'a' <= c <= 'z'
  }

  function DigitChar(d: int): (c: char)
    requires 0 <= d < 10
    ensures IsAsciiDigit(c)
  {
    ('0' as int + d) as char
  }

  /** Decimal digits of a natural number, without leading zeros. */
  function NatToString(n: nat): (r: string)
    ensures 1 <= |r|
    ensures forall i :: 0 <= i < |r| ==> IsAsciiDigit(r[i])
    decreases n
  {
    if n < 10 then [DigitChar(n)] else NatToString(n / 10) + [DigitChar(n % 10)]
  }

  /** The value of a decimal digit (0 for any other character). */
  function DigitValue(c: char): (d: nat)
    ensures d < 10
  {
    if IsAsciiDigit(c) then c as int - '0' as int else 0
  }

  /** Reads a string of decimal digits back as a number. */
  function DecimalValue(s: string): nat
    decreases |s|
  {
    if s == [] then 0 else 10 * DecimalValue(s[..|s| - 1]) + DigitValue(s[|s| - 1])
  }

  /** Reading back the printed digits gives the number. */
  lemma {:induction false} NatToStringRoundTrip(n: nat)
    ensures DecimalValue(NatToString(n)) == n
    decreases n
  {
    var r := NatToString(n);
    if n < 10 {
      assert r[..0] == [];
    } else {
      NatToStringRoundTrip(n / 10);
      assert r[..|r| - 1] == NatToString(n / 10);
    }
  }

  /** Long.toString, the %d conversion. */
  function IntToString(i: int): string {
    if i < 0 then "-" + NatToString(-i) else NatToString(i)
  }

  /** The %02d conversion of a non-negative number. */
  function TwoDigits(n: nat): (r: string)
    ensures 2 <= |r|
  {
    if n < 10 then "0" + NatToString(n) else NatToString(n)
  }

  const TwoTo31: int := 0x8000_0000
  const TwoTo32: int := 0x1_0000_0000

  /** Java int overflow: the 32-bit two's-complement value congruent to x. */
  function WrapInt32(x: int): (r: int)
    ensures -TwoTo31 <= r < TwoTo31
    ensures (x - r) % TwoTo32 == 0
  {
    var m := x % TwoTo32;
    if m >= TwoTo31 then m - TwoTo32 else m
  }

  /** String.hashCode: h = 31 * h + c over the characters, in int arithmetic. */
  function StringHash(s: string): (h: int)
    ensures -TwoTo31 <= h < TwoTo31
    decreases |s|
  {
    if s == [] then 0 else WrapInt32(31 * StringHash(s[..|s| - 1]) + s[|s| - 1] as int)
  }

  /** A value already in int range is left alone. */
  lemma WrapInt32InRange(x: int)
    requires -TwoTo31 <= x < TwoTo31
    ensures WrapInt32(x) == x
  {
  }

  /** One character hashes to its code. */
  lemma HashOfOneChar(c: char)
    ensures StringHash([c]) == c as int
  {
    assert [c][..0] == [];
    WrapInt32InRange(c as int);
  }

  /** Two characters hash to 31 times the first code plus the second, with no overflow. */
  lemma HashOfTwoChars(c: char, d: char)
    ensures StringHash([c, d]) == 31 * (c as int) + d as int
  {
    assert [c, d][..1] == [c];
    HashOfOneChar(c);
    WrapInt32InRange(31 * (c as int) + d as int);
  }

  function HexDigit(d: int): char
    requires 0 <= d < 16
  {
    "0123456789abcdef"[d]
  }

  function HexDigits(u: nat): (r: string)
    ensures 1 <= |r|
    decreases u
  {
    if u < 16 then [HexDigit(u)] else HexDigits(u / 16) + [HexDigit(u % 16)]
  }

  /** Integer.toHexString: the unsigned 32-bit value in lower-case hexadecimal. */
  function ToHexString(i: int): string
    requires -TwoTo31 <= i < TwoTo31
  {
    HexDigits(if i < 0 then i + TwoTo32 else i)
  }

  /** The value of a lower-case hexadecimal digit (0 for any other character). */
  function HexDigitValue(c: char): (d: nat)
    ensures d < 16
  {
    if '0' <= c <= '9' then c as int - '0' as int
    else if 'a' <= c <= 'f' then c as int - 'a' as int + 10
    else 0
  }

  /** Reads a string of hexadecimal digits back as a number. */
  function HexValue(s: string): nat
    decreases |s|
  {
    if s == [] then 0 else 16 * HexValue(s[..|s| - 1]) + HexDigitValue(s[|s| - 1])
  }

  /** Reading back the digits gives the number: HexDigits loses nothing. */
  lemma {:induction false} HexDigitsRoundTrip(u: nat)
    ensures HexValue(HexDigits(u)) == u
    decreases u
  {
    var r := HexDigits(u);
    if u < 16 {
      assert r[..0] == [];
      assert HexDigitValue(HexDigit(u)) == u;
    } else {
      HexDigitsRoundTrip(u / 16);
      assert r[..|r| - 1] == HexDigits(u / 16);
      assert HexDigitValue(HexDigit(u % 16)) == u % 16;
    }
  }

  /** Distinct int values print as distinct hexadecimal strings. */
  lemma ToHexStringInjective(i: int, j: int)
    requires -TwoTo31 <= i < TwoTo31 && -TwoTo31 <= j < TwoTo31
    ensures ToHexString(i) == ToHexString(j) <==> i == j
  {
    var u := if i < 0 then i + TwoTo32 else i;
    var v := if j < 0 then j + TwoTo32 else j;
    HexDigitsRoundTrip(u);
    HexDigitsRoundTrip(v);
  }
}
