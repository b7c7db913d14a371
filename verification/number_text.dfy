/** Decimal text of integral Numbers and the `parseInt` prefix parser, as
    ECMA-262 defines them: Number::toString (section 6.1.6.1.20) restricted to
    integers below 10^21 in magnitude, and the global `parseInt` (section
    19.2.5) called without a radix. */
module NumberText {
  import opened Wrappers

  /** 10^21: from this magnitude on, Number::toString writes an exponent. */
  const ExponentThreshold: int := 1_000_000_000_000_000_000_000

  predicate IsDecimalDigit(c: char) {
    '0' <= c <= '9'
  }

  /** The value of `c` as a digit of radix up to 36 (`0`-`9`, then `a`-`z`
      or `A`-`Z` for 10 to 35), or None when `c` is no digit at all. */
  function CharDigit(c: char): Option<nat> {
    if '0' <= c <= '9' then Some(c as int - '0' as int)
    else if 'a' <= c <= 'z' then Some(c as int - 'a' as int + 10)
    else if 'A' <= c <= 'Z' then Some(c as int - 'A' as int + 10)
    else None
  }

  predicate IsRadixDigit(c: char, radix: nat) {
    CharDigit(c).Some? && CharDigit(c).value < radix
  }

  predicate AllRadixDigits(s: string, radix: nat) {
    forall i :: 0 <= i < |s| ==> IsRadixDigit(s[i], radix)
  }

  function DigitChar(d: nat): (c: char)
    requires d < 10
    ensures IsDecimalDigit(c) && CharDigit(c) == Some(d)
  {
    ('0' as int + d) as char
  }

  /** Canonical decimal text: an optional `-`, then digits without a
      superfluous leading zero, and no `-0`. */
  predicate IsCanonicalDecimal(s: string) {
    var digits := if |s| > 0 && s[0] == '-' then s[1..] else s;
    && |digits| >= 1
    && (forall i :: 0 <= i < |digits| ==> IsDecimalDigit(digits[i]))
    && (digits[0] == '0' ==> digits == "0")
    && (|s| > 0 && s[0] == '-' ==> digits != "0")
  }

  /** The decimal digits of a natural number, most significant first. */
  function NatToString(n: nat): (s: string)
    ensures |s| >= 1
    ensures forall i :: 0 <= i < |s| ==> IsDecimalDigit(s[i])
    ensures s[0] == '0' <==> n == 0
    decreases n
  {
    if n < 10 then [DigitChar(n)] else NatToString(n / 10) + [DigitChar(n % 10)]
  }

  /** Number::toString(10) of an integral Number: plain digits, with a
      leading `-` for a negative value, below the exponent threshold. */
  function IntegerToString(i: int): (s: string)
    requires -ExponentThreshold < i < ExponentThreshold
    ensures IsCanonicalDecimal(s)
    ensures s[0] == '-' <==> i < 0
  {
    if i < 0 then "-" + NatToString(-i) else NatToString(i)
  }

  /** WhiteSpace and LineTerminator code points, the set that
      TrimString strips (sections 12.2 and 12.3 of ECMA-262; the Zs
      category is listed out). */
  predicate IsStrWhiteSpaceChar(c: char) {
    || c == '\t' || c == '\n' || c == '\r' || c == ' '
    || c == '\U{000B}' || c == '\U{000C}' || c == '\U{00A0}' || c == '\U{FEFF}'
    || c == '\U{1680}' || ('\U{2000}' <= c <= '\U{200A}')
    || c == '\U{2028}' || c == '\U{2029}'
    || c == '\U{202F}' || c == '\U{205F}' || c == '\U{3000}'
  }

  predicate AllWhiteSpace(ws: string) {
    forall i :: 0 <= i < |ws| ==> IsStrWhiteSpaceChar(ws[i])
  }

  /** `s` without its leading white space. */
  function TrimStart(s: string): (t: string)
    ensures |t| <= |s| && t == s[|s| - |t|..]
    ensures |t| > 0 ==> !IsStrWhiteSpaceChar(t[0])
    ensures forall i :: 0 <= i < |s| - |t| ==> IsStrWhiteSpaceChar(s[i])
    decreases |s|
  {
    if |s| > 0 && IsStrWhiteSpaceChar(s[0]) then TrimStart(s[1..]) else s
  }

  /** The longest prefix of `s` made of digits of `radix`. */
  function DigitPrefix(s: string, radix: nat): (z: string)
    ensures |z| <= |s| && z == s[..|z|]
    ensures AllRadixDigits(z, radix)
    ensures |z| < |s| ==> !IsRadixDigit(s[|z|], radix)
    decreases |s|
  {
    if |s| > 0 && IsRadixDigit(s[0], radix) then [s[0]] + DigitPrefix(s[1..], radix) else ""
  }

  /** The number a run of digits of `radix` denotes. */
  function DigitsValue(z: string, radix: nat): nat
    requires AllRadixDigits(z, radix)
    decreases |z|
  {
    if z == [] then 0 else DigitsValue(z[..|z| - 1], radix) * radix + CharDigit(z[|z| - 1]).value
  }

  /** `parseInt(input)` with no radix: skip leading white space one
      character at a time, then read an optional sign and the unsigned
      digits. No digit at all gives NaN (None). The mathematical value is
      returned; the rounding to a double that JavaScript applies above 2^53
      is not modelled. ParseIntTrims relates it to TrimStart. */
  function ParseInt(input: string): Option<int>
    decreases |input|
  {
    if |input| > 0 && IsStrWhiteSpaceChar(input[0]) then ParseInt(input[1..]) else ParseSigned(input)
  }

  /** The sign step of `parseInt`: a `-` negates, a `+` is dropped. */
  function ParseSigned(s: string): Option<int> {
    var sign := if |s| > 0 && s[0] == '-' then -1 else 1;
    var unsigned := if |s| > 0 && (s[0] == '+' || s[0] == '-') then s[1..] else s;
    match ParseUnsigned(unsigned)
    case None => None
    case Some(n) => Some(sign * n)
  }

  /** The digit step of `parseInt`: radix 16 after a `0x`/`0X` prefix, radix 10
      otherwise, then the longest run of digits of that radix. */
  function ParseUnsigned(s: string): Option<nat> {
    var hex := |s| >= 2 && s[0] == '0' && (s[1] == 'x' || s[1] == 'X');
    var radix := if hex then 16 else 10;
    var z := DigitPrefix(if hex then s[2..] else s, radix);
    if |z| == 0 then None else Some(DigitsValue(z, radix))
  }

  // ---------------------------------------------------------------------
  // Lemmas

  /** The decimal digits are exactly the digits of radix 10. */
  lemma DecimalDigitIsRadixTen(c: char)
    ensures IsRadixDigit(c, 10) <==> IsDecimalDigit(c)
  {
  }

  /** A run of digits followed by a non-digit is exactly what DigitPrefix reads. */
  lemma DigitPrefixStopsAtNonDigit(z: string, rest: string, radix: nat)
    requires AllRadixDigits(z, radix)
    requires rest == [] || !IsRadixDigit(rest[0], radix)
    ensures DigitPrefix(z + rest, radix) == z
  {
    var p := DigitPrefix(z + rest, radix);
    assert |p| >= |z| by {
      assert forall i :: 0 <= i < |z| ==> (z + rest)[i] == z[i];
    }
    assert p == (z + rest)[..|z|] == z;
  }

  /** Reading the digits NatToString writes gives back the number. */
  lemma {:induction false} DigitsValueOfNatToString(n: nat)
    ensures AllRadixDigits(NatToString(n), 10)
    ensures DigitsValue(NatToString(n), 10) == n
    decreases n
  {
    var s := NatToString(n);
    forall i | 0 <= i < |s| ensures IsRadixDigit(s[i], 10) {
      DecimalDigitIsRadixTen(s[i]);
    }
    if n >= 10 {
      var front := NatToString(n / 10);
      DigitsValueOfNatToString(n / 10);
      assert s == front + [DigitChar(n % 10)];
      assert s[..|s| - 1] == front;
    }
  }

  /** `parseInt` reads the sign and digits of the text TrimString leaves. */
  lemma {:induction false} ParseIntTrims(s: string)
    ensures ParseInt(s) == ParseSigned(TrimStart(s))
    decreases |s|
  {
    if |s| > 0 && IsStrWhiteSpaceChar(s[0]) {
      ParseIntTrims(s[1..]);
    }
  }

  /** Leading white space never changes what `parseInt` reads. */
  lemma {:induction false} ParseIntSkipsWhiteSpace(ws: string, s: string)
    requires AllWhiteSpace(ws)
    ensures ParseInt(ws + s) == ParseInt(s)
    decreases |ws|
  {
    if ws != [] {
      assert (ws + s)[0] == ws[0] && IsStrWhiteSpaceChar(ws[0]);
      assert (ws + s)[1..] == ws[1..] + s;
      ParseIntSkipsWhiteSpace(ws[1..], s);
    } else {
      assert ws + s == s;
    }
  }

  /** TrimString's start absorbs any white space put in front of a text. */
  lemma {:induction false} TrimStartSkips(ws: string, s: string)
    requires AllWhiteSpace(ws)
    ensures TrimStart(ws + s) == TrimStart(s)
    decreases |ws|
  {
    if ws != [] {
      var tail := ws[1..];
      assert (ws + s)[0] == ws[0] && IsStrWhiteSpaceChar(ws[0]);
      assert (ws + s)[1..] == tail + s;
      assert TrimStart(ws + s) == TrimStart(tail + s);
      TrimStartSkips(tail, s);
    } else {
      assert ws + s == s;
    }
  }

  /** The digit step reads back NatToString's digits and stops before `rest`. */
  lemma {:induction false} ParseUnsignedOfNat(n: nat, rest: string)
    requires rest == [] || (!IsDecimalDigit(rest[0]) && (n != 0 || (rest[0] != 'x' && rest[0] != 'X')))
    ensures ParseUnsigned(NatToString(n) + rest) == Some(n)
  {
    var digits := NatToString(n);
    var s := digits + rest;
    if |digits| >= 2 {
      assert s[1] == digits[1];
    } else if |s| >= 2 {
      assert s[0] == digits[0];
      assert s[1] == rest[0];
    }
    DigitsValueOfNatToString(n);
    if rest != [] {
      DecimalDigitIsRadixTen(rest[0]);
    }
    DigitPrefixStopsAtNonDigit(digits, rest, 10);
  }

  /** `parseInt` reads back the decimal text of an integer, and ignores what
      follows it, provided the next character is no digit and a lone `0`
      is not followed by an `x` (which would start a hexadecimal prefix). */
  lemma {:induction false} ParseIntOfIntegerString(i: int, rest: string)
    requires -ExponentThreshold < i < ExponentThreshold
    requires rest == [] || (!IsDecimalDigit(rest[0]) && (i != 0 || (rest[0] != 'x' && rest[0] != 'X')))
    ensures ParseInt(IntegerToString(i) + rest) == Some(i)
  {
    if i < 0 {
      var n: nat := -i;
      assert IntegerToString(i) + rest == "-" + NatToString(n) + rest;
      ParseIntOfNegative(n, rest);
    } else {
      assert IntegerToString(i) == NatToString(i);
      ParseIntOfNatural(i, rest);
    }
  }

  /** The negative case of ParseIntOfIntegerString: `-` then the digits of n. */
  lemma {:induction false} ParseIntOfNegative(n: nat, rest: string)
    requires n > 0
    requires rest == [] || !IsDecimalDigit(rest[0])
    ensures ParseInt("-" + NatToString(n) + rest) == Some(-(n as int))
  {
    var u := NatToString(n) + rest;
    var s := "-" + NatToString(n) + rest;
    assert s == "-" + u;
    assert s[0] == '-' && !IsStrWhiteSpaceChar(s[0]);
    ParseUnsignedOfNat(n, rest);
    ParseSignedNegative(u, n);
  }

  /** The non-negative case of ParseIntOfIntegerString: the digits of n alone. */
  lemma {:induction false} ParseIntOfNatural(n: nat, rest: string)
    requires rest == [] || (!IsDecimalDigit(rest[0]) && (n != 0 || (rest[0] != 'x' && rest[0] != 'X')))
    ensures ParseInt(NatToString(n) + rest) == Some(n)
  {
    var s := NatToString(n) + rest;
    assert s[0] == NatToString(n)[0] && !IsStrWhiteSpaceChar(s[0]);
    ParseUnsignedOfNat(n, rest);
    ParseSignedUnsigned(s, n);
  }

  /** A leading `-` negates what the digit step reads. */
  lemma ParseSignedNegative(u: string, n: nat)
    requires ParseUnsigned(u) == Some(n)
    ensures ParseSigned("-" + u) == Some(-(n as int))
  {
    assert ("-" + u)[0] == '-' && ("-" + u)[1..] == u;
  }

  /** Text that starts with a digit has no sign to read. */
  lemma ParseSignedUnsigned(u: string, n: nat)
    requires |u| > 0 && IsDecimalDigit(u[0])
    requires ParseUnsigned(u) == Some(n)
    ensures ParseSigned(u) == Some(n)
  {
  }

  /** After a `0x` or `0X` prefix `parseInt` switches to radix 16 and reads
      every hexadecimal digit that follows, up to the first non-digit. */
  lemma {:induction false} ParseIntOfHex(x: char, z: string, rest: string)
    requires x == 'x' || x == 'X'
    requires |z| > 0 && AllRadixDigits(z, 16)
    requires rest == [] || !IsRadixDigit(rest[0], 16)
    ensures ParseInt(['0', x] + z + rest) == Some(DigitsValue(z, 16))
  {
    var s := ['0', x] + z + rest;
    assert s[0] == '0' && !IsStrWhiteSpaceChar(s[0]);
    assert s[1] == x;
    assert s[2..] == z + rest;
    DigitPrefixStopsAtNonDigit(z, rest, 16);
    assert ParseUnsigned(s) == Some(DigitsValue(z, 16));
    assert ParseSigned(s) == ParseUnsigned(s);
  }

  /** Round trip: `parseInt` of the decimal text of an integer is that integer. */
  lemma ParseIntRoundTrip(i: int)
    requires -ExponentThreshold < i < ExponentThreshold
    ensures ParseInt(IntegerToString(i)) == Some(i)
  {
    ParseIntOfIntegerString(i, []);
    assert IntegerToString(i) + [] == IntegerToString(i);
  }

  /** Distinct integers have distinct decimal texts. */
  lemma IntegerToStringInjective(i: int, j: int)
    requires -ExponentThreshold < i < ExponentThreshold
    requires -ExponentThreshold < j < ExponentThreshold
    ensures IntegerToString(i) == IntegerToString(j) ==> i == j
  {
    ParseIntRoundTrip(i);
    ParseIntRoundTrip(j);
  }
}
