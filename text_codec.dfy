/** The text operations of Python's runtime that the integration relies on:
    `str.strip()` and `str.lower()` on MQTT payloads, `str(int)` for station
    numbers, `float(payload)` for numeric payloads and `str(value)` for the
    numbers it publishes. */
module TextCodec {
  import opened Wrappers

  // ------------------------------------------------------------ whitespace

  /** The characters for which Python's `str.isspace()` holds. */
  predicate IsSpace(c: char) {
    c == ' ' || ('\t' <= c <= '\r') || ('\U{1c}' <= c <= '\U{1f}')
    || c == '\U{85}' || c == '\U{a0}' || c == '\U{1680}'
    || ('\U{2000}' <= c <= '\U{200a}') || c == '\U{2028}' || c == '\U{2029}'
    || c == '\U{202f}' || c == '\U{205f}' || c == '\U{3000}'
  }

  predicate AllSpace(s: string) {
    forall i :: 0 <= i < |s| ==> IsSpace(s[i])
  }

  /** Number of whitespace characters at the start of `s`. */
  function LeadingSpaces(s: string): (n: nat)
    ensures n <= |s|
    ensures forall i :: 0 <= i < n ==> IsSpace(s[i])
    ensures n < |s| ==> !IsSpace(s[n])
  {
    if s != [] && IsSpace(s[0]) then 1 + LeadingSpaces(s[1..]) else 0
  }

  /** Number of whitespace characters at the end of `s`. */
  function TrailingSpaces(s: string): (n: nat)
    ensures n <= |s|
    ensures forall i :: |s| - n <= i < |s| ==> IsSpace(s[i])
    ensures n < |s| ==> !IsSpace(s[|s| - 1 - n])
  {
    if s != [] && IsSpace(s[|s| - 1]) then 1 + TrailingSpaces(s[..|s| - 1]) else 0
  }

  /** Python's `s.strip()`: `s` without its leading and trailing whitespace. */
  function Strip(s: string): (r: string)
    ensures |r| <= |s|
    ensures r == [] || (!IsSpace(r[0]) && !IsSpace(r[|r| - 1]))
    ensures r == [] <==> AllSpace(s)
  {
    var i := LeadingSpaces(s);
    var t := s[i..];
    var n := TrailingSpaces(t);
    // Trailing spaces fill all of `t` only when leading spaces filled all of `s`.
    assert n == |t| ==> i == |s|;
    t[..|t| - n]
  }

  /** Leading whitespace is counted up to the first non-space character, wherever that is. */
  lemma LeadingSpacesUnique(s: string, n: nat)
    requires n <= |s| && forall i :: 0 <= i < n ==> IsSpace(s[i])
    requires n < |s| ==> !IsSpace(s[n])
    ensures LeadingSpaces(s) == n
  {
  }

  lemma TrailingSpacesUnique(s: string, n: nat)
    requires n <= |s| && forall i :: |s| - n <= i < |s| ==> IsSpace(s[i])
    requires n < |s| ==> !IsSpace(s[|s| - 1 - n])
    ensures TrailingSpaces(s) == n
  {
  }

  /** Stripping removes exactly the whitespace padding around a text that
      neither starts nor ends with whitespace. */
  lemma StripPadded(a: string, q: string, b: string)
    requires AllSpace(a) && AllSpace(b)
    requires q == [] || (!IsSpace(q[0]) && !IsSpace(q[|q| - 1]))
    ensures Strip(a + q + b) == q
  {
    var s := a + q + b;
    if q == [] {
      assert s == a + b;
      LeadingSpacesUnique(s, |s|);
      TrailingSpacesUnique([], 0);
    } else {
      assert s[|a|] == q[0];
      LeadingSpacesUnique(s, |a|);
      var t := s[|a|..];
      assert t == q + b;
      assert t[|t| - 1 - |b|] == q[|q| - 1];
      TrailingSpacesUnique(t, |b|);
      assert t[..|t| - |b|] == q;
    }
  }

  /** The stripped text is a slice of `s` with only whitespace on either side. */
  lemma StripSlice(s: string) returns (i: nat, j: nat)
    ensures i <= j <= |s| && Strip(s) == s[i..j]
    ensures AllSpace(s[..i]) && AllSpace(s[j..])
  {
    i := LeadingSpaces(s);
    var t := s[i..];
    var n := TrailingSpaces(t);
    j := i + |t| - n;
    assert t[..|t| - n] == s[i..j];
    assert AllSpace(s[..i]) by {
      assert forall k :: 0 <= k < i ==> s[..i][k] == s[k];
    }
    assert AllSpace(s[j..]) by {
      assert forall k :: 0 <= k < |s| - j ==> s[j..][k] == t[|t| - n + k];
    }
  }

  // ------------------------------------------------------------ letter case

  /** Python's `str.lower()` on one character, for the ASCII letters. */
  function LowerChar(c: char): char {
    if 'A' <= c <= 'Z' then (c as int + 32) as char else c
  }

  /** Python's `s.lower()`, for the ASCII letters. */
  function Lower(s: string): (r: string)
    ensures |r| == |s|
    ensures forall i :: 0 <= i < |r| ==> !('A' <= r[i] <= 'Z')
  {
    seq(|s|, i requires 0 <= i < |s| => LowerChar(s[i]))
  }

  // ------------------------------------------------------------ digits

  predicate IsDigit(c: char) {
    '0' <= c <= '9'
  }

  predicate AllDigits(s: string) {
    forall i :: 0 <= i < |s| ==> IsDigit(s[i])
  }

  function DigitChar(d: nat): (c: char)
    requires d < 10
    ensures IsDigit(c) && c as int - '0' as int == d
  {
    ('0' as int + d) as char
  }

  function DigitValue(c: char): nat
    requires IsDigit(c)
  {
    c as int - '0' as int
  }

  /** The number a string of decimal digits denotes (leading zeros allowed). */
  function DigitsValue(s: string): nat
    requires AllDigits(s)
  {
    if s == [] then 0 else 10 * DigitsValue(s[..|s| - 1]) + DigitValue(s[|s| - 1])
  }

  function Pow10(e: nat): (p: nat)
    ensures p >= 1
  {
    if e == 0 then 1 else 10 * Pow10(e - 1)
  }

  /** Python's `str(n)` for a non-negative integer. */
  function NatToString(n: nat): (s: string)
    ensures 1 <= |s| && AllDigits(s)
    ensures |s| > 1 ==> s[0] != '0'
  {
    if n < 10 then [DigitChar(n)] else NatToString(n / 10) + [DigitChar(n % 10)]
  }

  /** Reading back the decimal text of `n` gives `n`. */
  lemma {:induction false} NatToStringRoundTrip(n: nat)
    ensures DigitsValue(NatToString(n)) == n
  {
    if n >= 10 {
      NatToStringRoundTrip(n / 10);
      var s := NatToString(n);
      assert s[..|s| - 1] == NatToString(n / 10);
    }
  }

  /** Distinct numbers have distinct decimal texts. */
  lemma NatToStringInjective(m: nat, n: nat)
    ensures NatToString(m) == NatToString(n) <==> m == n
  {
    NatToStringRoundTrip(m);
    NatToStringRoundTrip(n);
  }

  /** The last `w` decimal digits of `n`, zero-padded to exactly `w` characters. */
  function FixedDigits(n: nat, w: nat): (s: string)
    ensures |s| == w && AllDigits(s)
  {
    if w == 0 then [] else FixedDigits(n / 10, w - 1) + [DigitChar(n % 10)]
  }

  /** `n` without its last `w` decimal digits. */
  function DropDigits(n: nat, w: nat): nat {
    if w == 0 then n else DropDigits(n / 10, w - 1)
  }

  /** Cutting the decimal digits of `n` after the `w`-th from the right loses nothing. */
  lemma {:induction false} SplitDigits(n: nat, w: nat)
    ensures n == DropDigits(n, w) * Pow10(w) + DigitsValue(FixedDigits(n, w))
  {
    if w > 0 {
      var s := FixedDigits(n, w);
      assert s[..|s| - 1] == FixedDigits(n / 10, w - 1);
      SplitDigits(n / 10, w - 1);
      var r := DigitsValue(FixedDigits(n / 10, w - 1));
      assert DigitsValue(s) == 10 * r + n % 10;
      ShiftDigit(n, DropDigits(n / 10, w - 1), Pow10(w - 1), r);
    }
  }

  /** One more digit on the right multiplies the rest by ten. */
  lemma ShiftDigit(n: nat, q: nat, p: nat, r: nat)
    requires n / 10 == q * p + r
    ensures n == q * (10 * p) + (10 * r + n % 10)
  {
    assert q * (10 * p) == 10 * (q * p);
  }

  /** Digits never include the separators that topics and identifiers use. */
  lemma DigitsExclude(s: string, c: char)
    requires AllDigits(s) && !IsDigit(c)
    ensures c !in s
  {
  }

  /** Position of the first `c` in `s` (`|s|` when there is none). */
  function FirstIndex(s: string, c: char): nat {
    if s == [] || s[0] == c then 0 else 1 + FirstIndex(s[1..], c)
  }

  lemma {:induction false} FirstIndexAfter(a: string, b: string, c: char)
    requires c !in a
    ensures FirstIndex(a + [c] + b, c) == |a|
    decreases |a|
  {
    var s := a + [c] + b;
    if a == [] {
      assert s[0] == c;
    } else {
      assert s[0] == a[0] && s[1..] == a[1..] + [c] + b;
      FirstIndexAfter(a[1..], b, c);
    }
  }

  /** Two texts that both split as `a + [c] + b`, where `c` does not occur in
      either `a`, split at the same place. */
  lemma SplitAtSeparator(a1: string, b1: string, a2: string, b2: string, c: char)
    requires c !in a1 && c !in a2
    requires a1 + [c] + b1 == a2 + [c] + b2
    ensures a1 == a2 && b1 == b2
  {
    var s := a1 + [c] + b1;
    FirstIndexAfter(a1, b1, c);
    FirstIndexAfter(a2, b2, c);
    assert a1 == s[..|a1|];
    assert a2 == (a2 + [c] + b2)[..|a2|];
    assert b1 == s[|a1| + 1..];
    assert b2 == (a2 + [c] + b2)[|a2| + 1..];
  }

  /** Length of the longest prefix of `s` made of decimal digits. */
  function DigitSpan(s: string): (n: nat)
    ensures n <= |s| && AllDigits(s[..n])
    ensures n < |s| ==> !IsDigit(s[n])
  {
    if s != [] && IsDigit(s[0]) then
      var m := DigitSpan(s[1..]);
      assert forall i :: 1 <= i < 1 + m ==> s[i] == s[1..][..m][i - 1];
      1 + m
    else 0
  }

  lemma DigitSpanUnique(s: string, n: nat)
    requires n <= |s| && AllDigits(s[..n])
    requires n < |s| ==> !IsDigit(s[n])
    ensures DigitSpan(s) == n
  {
    var m := DigitSpan(s);
    assert forall i :: 0 <= i < n ==> IsDigit(s[i]) by { assert forall i :: 0 <= i < n ==> s[..n][i] == s[i]; }
    assert forall i :: 0 <= i < m ==> IsDigit(s[i]) by { assert forall i :: 0 <= i < m ==> s[..m][i] == s[i]; }
  }

  // ------------------------------------------------------------ float(payload)

  /** The ASCII information separators U+001C to U+001F: whitespace to
      `str.isspace()`, but not to `float()`. */
  predicate IsSeparator(c: char) {
    '\U{1c}' <= c <= '\U{1f}'
  }

  predicate SeparatorFree(s: string) {
    forall i :: 0 <= i < |s| ==> !IsSeparator(s[i])
  }

  /** Python's `float(payload)`, for decimal literals: whitespace around an
      optional sign, digits with an optional fraction (at least one digit in
      all) and an optional exponent. None where `float` raises ValueError.
      `float` strips only ASCII space and `\t`..`\r`, and non-ASCII
      whitespace, which it first turns into spaces. An information separator
      is thus never stripped, and it is not part of any literal either, so a
      payload holding one always raises. */
  function ParseFloat(payload: string): (r: Option<real>)
    ensures AllSpace(payload) ==> r == None
    ensures !SeparatorFree(payload) ==> r == None
  {
    if SeparatorFree(payload) then ParseStripped(payload) else None
  }

  /** The literal inside `str.isspace()` padding, read as a number. */
  function ParseStripped(payload: string): (r: Option<real>)
    ensures AllSpace(payload) ==> r == None
  {
    ParseSigned(Strip(payload))
  }

  function ParseSigned(t: string): Option<real> {
    if t != [] && (t[0] == '+' || t[0] == '-') then
      match ParseUnsigned(t[1..])
      case None => None
      case Some(x) => Some(if t[0] == '-' then -x else x)
    else
      ParseUnsigned(t)
  }

  function ParseUnsigned(t: string): Option<real> {
    var w := DigitSpan(t);
    var split := SplitFraction(t[w..]);
    var fraction := split.0;
    if w + |fraction| == 0 then None
    else
      match ParseExponent(split.1)
      case None => None
      case Some(e) =>
        Some(Scale(Mantissa(t[..w], fraction), e))
  }

  /** The number `<whole>.<fraction>` denotes. */
  function Mantissa(whole: string, fraction: string): real
    requires AllDigits(whole) && AllDigits(fraction)
  {
    DigitsValue(whole) as real + DivPow10(DigitsValue(fraction) as real, |fraction|)
  }

  /** Splits a leading `.` and the digits after it off `s`: the fraction
      digits, and the text after them. */
  function SplitFraction(s: string): (r: (string, string))
    ensures AllDigits(r.0)
  {
    if s != [] && s[0] == '.' then
      var f := DigitSpan(s[1..]);
      (s[1..][..f], s[1..][f..])
    else
      ([], s)
  }

  /** The exponent part of a literal: empty, or `e`/`E`, an optional sign and digits. */
  function ParseExponent(s: string): Option<int> {
    if s == [] then Some(0)
    else if s[0] != 'e' && s[0] != 'E' then None
    else
      var u := s[1..];
      var digits := if u != [] && (u[0] == '+' || u[0] == '-') then u[1..] else u;
      if digits == [] || !AllDigits(digits) then None
      else
        var v: int := DigitsValue(digits);
        Some(if u[0] == '-' then -v else v)
  }

  /** `x * 10^e`. */
  function Scale(x: real, e: int): real {
    if e >= 0 then MulPow10(x, e) else DivPow10(x, -e)
  }

  function MulPow10(x: real, e: nat): real {
    if e == 0 then x else 10.0 * MulPow10(x, e - 1)
  }

  /** `x / 10^e`. */
  function DivPow10(x: real, e: nat): real {
    if e == 0 then x else DivPow10(x, e - 1) / 10.0
  }

  lemma {:induction false} DivPow10Add(a: real, b: real, e: nat)
    ensures DivPow10(a + b, e) == DivPow10(a, e) + DivPow10(b, e)
  {
    if e > 0 {
      DivPow10Add(a, b, e - 1);
    }
  }

  lemma {:induction false} DivPow10Negate(a: real, e: nat)
    ensures DivPow10(-a, e) == -DivPow10(a, e)
  {
    if e > 0 {
      DivPow10Negate(a, e - 1);
    }
  }

  lemma DivPow10NegateInt(n: int, e: nat)
    ensures DivPow10((-n) as real, e) == -DivPow10(n as real, e)
  {
    assert (-n) as real == -(n as real);
    DivPow10Negate(n as real, e);
  }

  lemma {:induction false} DivPow10Shift(x: real, e: nat)
    ensures DivPow10(x, e + 1) == DivPow10(x / 10.0, e)
  {
    if e > 0 {
      DivPow10Shift(x, e - 1);
    }
  }

  lemma {:induction false} DivPow10Cancels(n: int, e: nat)
    ensures DivPow10((n * Pow10(e)) as real, e) == n as real
    decreases e
  {
    if e > 0 {
      DivPow10Cancels(n * 10, e - 1);
      assert n * Pow10(e) == (n * 10) * Pow10(e - 1);
      DivPow10Shift((n * Pow10(e)) as real, e - 1);
    }
  }

  // ------------------------------------------------------------ str(value)

  /** A finite decimal number, `units / 10^scale`. */
  datatype Decimal = Decimal(units: int, scale: nat)

  function Value(d: Decimal): real {
    DivPow10(d.units as real, d.scale)
  }

  /** The same number with the trailing zeros of its fraction removed. */
  function Normalize(d: Decimal): (r: Decimal)
    ensures Value(r) == Value(d)
    ensures r.scale == 0 || r.units % 10 != 0
    decreases d.scale
  {
    if d.scale > 0 && d.units % 10 == 0 then
      var e := Decimal(d.units / 10, d.scale - 1);
      DivPow10Shift(d.units as real, e.scale);
      Normalize(e)
    else
      d
  }

  /** Python's `str()` of a float that holds `d`: the digits of the number
      without trailing fraction zeros, and ".0" for a whole number. */
  function Render(d: Decimal): (s: string)
    ensures '.' in s
  {
    SignedTextHasPoint(Normalize(d));
    SignedText(Normalize(d))
  }

  lemma SignedTextHasPoint(d: Decimal)
    ensures '.' in SignedText(d)
  {
    var m: nat := if d.units < 0 then -d.units else d.units;
    var text := MagnitudeText(m, d.scale);
    var point := if d.scale == 0 then |NatToString(m)| else |NatToString(DropDigits(m, d.scale))|;
    assert point < |text| && text[point] == '.';
    if d.units < 0 {
      assert SignedText(d) == "-" + text;
      assert SignedText(d)[point + 1] == '.';
    } else {
      assert SignedText(d) == text;
    }
  }

  /** The digits of `d` as they stand, with a minus sign when it is negative. */
  function SignedText(d: Decimal): string {
    if d.units < 0 then "-" + MagnitudeText(-d.units, d.scale) else MagnitudeText(d.units, d.scale)
  }

  /** The digits of `m / 10^scale` around a decimal point. */
  function MagnitudeText(m: nat, scale: nat): string {
    if scale == 0 then NatToString(m) + ".0"
    else NatToString(DropDigits(m, scale)) + "." + FixedDigits(m, scale)
  }

  /** Text without whitespace at either end is left alone by `strip()`. */
  lemma StripUnpadded(t: string)
    requires t != [] && !IsSpace(t[0]) && !IsSpace(t[|t| - 1])
    ensures Strip(t) == t
  {
    StripPadded("", t, "");
    assert "" + t + "" == t;
  }

  /** A literal that splits into whole digits, a fraction and nothing else
      parses to the number those digits spell. */
  lemma ParseUnsignedParts(t: string, whole: string, fraction: string)
    requires AllDigits(whole) && AllDigits(fraction) && 1 <= |whole| + |fraction|
    requires DigitSpan(t) == |whole| && t[..|whole|] == whole
    requires SplitFraction(t[|whole|..]) == (fraction, [])
    ensures ParseUnsigned(t) == Some(Mantissa(whole, fraction))
  {
  }

  /** `<digits>.<digits>` without a sign. */
  lemma ParseUnsignedPoint(whole: string, fraction: string)
    requires 1 <= |whole| && AllDigits(whole)
    requires 1 <= |fraction| && AllDigits(fraction)
    ensures ParseUnsigned(whole + "." + fraction) == Some(Mantissa(whole, fraction))
  {
    var u := whole + "." + fraction;
    assert u[..|whole|] == whole;
    DigitSpanUnique(u, |whole|);
    var rest := u[|whole|..];
    assert rest == "." + fraction;
    assert rest[1..] == fraction;
    assert fraction[..|fraction|] == fraction;
    DigitSpanUnique(fraction, |fraction|);
    assert fraction[|fraction|..] == [];
    assert SplitFraction(rest) == (fraction, []);
    ParseUnsignedParts(u, whole, fraction);
  }

  lemma ParseUnsignedText(u: string, x: real)
    requires u != [] && IsDigit(u[0]) && IsDigit(u[|u| - 1])
    requires ParseUnsigned(u) == Some(x)
    ensures ParseStripped(u) == Some(x)
  {
    StripUnpadded(u);
  }

  /** The magnitude text starts and ends with a digit and parses back to `m / 10^scale`. */
  lemma MagnitudeRoundTrip(m: nat, scale: nat)
    ensures var t := MagnitudeText(m, scale);
            t != [] && IsDigit(t[0]) && IsDigit(t[|t| - 1])
            && ParseUnsigned(t) == Some(DivPow10(m as real, scale))
  {
    if scale == 0 {
      WholeMagnitude(m);
    } else {
      FractionalMagnitude(m, scale);
    }
  }

  lemma WholeMagnitude(m: nat)
    ensures var t := MagnitudeText(m, 0);
            t != [] && IsDigit(t[0]) && IsDigit(t[|t| - 1])
            && ParseUnsigned(t) == Some(m as real)
  {
    var whole := NatToString(m);
    NatToStringRoundTrip(m);
    assert DigitsValue("0") == 0;
    assert DivPow10(0.0, 1) == 0.0;
    ParseUnsignedPoint(whole, "0");
    var t := whole + "." + "0";
    assert t == MagnitudeText(m, 0);
    assert t[0] == whole[0] && t[|t| - 1] == '0';
  }

  lemma FractionalMagnitude(m: nat, scale: nat)
    requires scale > 0
    ensures var t := MagnitudeText(m, scale);
            t != [] && IsDigit(t[0]) && IsDigit(t[|t| - 1])
            && ParseUnsigned(t) == Some(DivPow10(m as real, scale))
  {
    var q := DropDigits(m, scale);
    var whole, fraction := NatToString(q), FixedDigits(m, scale);
    NatToStringRoundTrip(q);
    SplitDigits(m, scale);
    MantissaOfSplit(m, q, fraction, scale);
    ParseUnsignedPoint(whole, fraction);
    var t := whole + "." + fraction;
    assert t[0] == whole[0] && t[|t| - 1] == fraction[|fraction| - 1];
  }

  lemma MantissaOfSplit(m: nat, q: nat, fraction: string, scale: nat)
    requires AllDigits(fraction)
    requires m == q * Pow10(scale) + DigitsValue(fraction)
    ensures q as real + DivPow10(DigitsValue(fraction) as real, scale) == DivPow10(m as real, scale)
  {
    DivPow10Add((q * Pow10(scale)) as real, DigitsValue(fraction) as real, scale);
    DivPow10Cancels(q, scale);
  }

  lemma SignedTextRoundTrip(d: Decimal)
    ensures ParseStripped(SignedText(d)) == Some(Value(d))
  {
    if d.units < 0 {
      var m: nat := -d.units;
      assert d == Decimal(-(m as int), d.scale);
      NegativeRoundTrip(m, d.scale);
    } else {
      NonNegativeRoundTrip(d);
    }
  }

  lemma NegativeRoundTrip(m: nat, scale: nat)
    requires m > 0
    ensures ParseStripped(SignedText(Decimal(-(m as int), scale))) == Some(Value(Decimal(-(m as int), scale)))
  {
    NegativeText(m, scale);
    NegatedParse(m, scale);
  }

  lemma NegativeText(m: nat, scale: nat)
    requires m > 0
    ensures ParseStripped(SignedText(Decimal(-(m as int), scale))) == Some(-DivPow10(m as real, scale))
  {
    NegativeSign(Decimal(-(m as int), scale));
    NegatedMagnitude(m, scale);
  }

  lemma NegativeSign(d: Decimal)
    requires d.units < 0
    ensures SignedText(d) == "-" + MagnitudeText(-d.units, d.scale)
  {
  }

  /** A minus sign in front of a magnitude text negates the number it spells. */
  lemma NegatedMagnitude(m: nat, scale: nat)
    ensures ParseStripped("-" + MagnitudeText(m, scale)) == Some(-DivPow10(m as real, scale))
  {
    NegatedUnpadded(m, scale);
    NegatedSigned(m, scale);
  }

  lemma NegatedUnpadded(m: nat, scale: nat)
    ensures Strip("-" + MagnitudeText(m, scale)) == "-" + MagnitudeText(m, scale)
  {
    MagnitudeRoundTrip(m, scale);
    var u := MagnitudeText(m, scale);
    var t := "-" + u;
    assert t[|t| - 1] == u[|u| - 1];
    StripUnpadded(t);
  }

  lemma NegatedSigned(m: nat, scale: nat)
    ensures ParseSigned("-" + MagnitudeText(m, scale)) == Some(-DivPow10(m as real, scale))
  {
    MagnitudeRoundTrip(m, scale);
    ParseNegated(MagnitudeText(m, scale), DivPow10(m as real, scale));
  }

  /** A minus sign in front of an unsigned literal negates its value. */
  lemma ParseNegated(u: string, x: real)
    requires ParseUnsigned(u) == Some(x)
    ensures ParseSigned("-" + u) == Some(-x)
  {
    assert ("-" + u)[1..] == u;
  }

  lemma NonNegativeRoundTrip(d: Decimal)
    requires d.units >= 0
    ensures ParseStripped(SignedText(d)) == Some(Value(d))
  {
    var u := MagnitudeText(d.units, d.scale);
    assert SignedText(d) == u;
    MagnitudeRoundTrip(d.units, d.scale);
    ParseUnsignedText(u, DivPow10(d.units as real, d.scale));
  }

  /** The value of a negative decimal is the negated value of its magnitude. */
  lemma NegatedValue(m: nat, scale: nat)
    ensures Value(Decimal(-(m as int), scale)) == -DivPow10(m as real, scale)
  {
    DivPow10NegateInt(m, scale);
  }

  /** `NegatedValue` under `Some`, kept apart so that the round trip above
      never unfolds `Value` beside the parser. */
  lemma NegatedParse(m: nat, scale: nat)
    ensures Some(-DivPow10(m as real, scale)) == Some(Value(Decimal(-(m as int), scale)))
  {
    NegatedValue(m, scale);
  }

  /** `float(str(v)) == v` for the numbers the entities publish. */
  lemma RenderRoundTrip(d: Decimal)
    ensures ParseFloat(Render(d)) == Some(Value(d))
  {
    SignedTextRoundTrip(Normalize(d));
    SignedTextSeparatorFree(Normalize(d));
  }

  /** `float(str(n))` for a whole number `n` written without a point, as in "50". */
  lemma ParseWholeNumber(n: nat)
    ensures ParseFloat(NatToString(n)) == Some(n as real)
  {
    var s := NatToString(n);
    WholeDigits(n);
    ParseUnsignedText(s, n as real);
    DigitsSeparatorFree(s);
  }

  lemma DigitsSeparatorFree(s: string)
    requires AllDigits(s)
    ensures SeparatorFree(s)
  {
  }

  lemma SeparatorFreeConcat(a: string, b: string)
    requires SeparatorFree(a) && SeparatorFree(b)
    ensures SeparatorFree(a + b)
  {
    assert forall i :: |a| <= i < |a + b| ==> (a + b)[i] == b[i - |a|];
  }

  /** Rendered numbers hold only digits, a point and a sign. */
  lemma SignedTextSeparatorFree(d: Decimal)
    ensures SeparatorFree(SignedText(d))
  {
    var m: nat := if d.units < 0 then -d.units else d.units;
    if d.scale == 0 {
      DigitsSeparatorFree(NatToString(m));
      SeparatorFreeConcat(NatToString(m), ".0");
    } else {
      var whole, fraction := NatToString(DropDigits(m, d.scale)), FixedDigits(m, d.scale);
      DigitsSeparatorFree(whole);
      DigitsSeparatorFree(fraction);
      SeparatorFreeConcat(whole, ".");
      SeparatorFreeConcat(whole + ".", fraction);
    }
    SeparatorFreeConcat("-", MagnitudeText(m, d.scale));
  }

  lemma WholeDigits(n: nat)
    ensures ParseUnsigned(NatToString(n)) == Some(n as real)
  {
    var s := NatToString(n);
    assert s[..|s|] == s;
    DigitSpanUnique(s, |s|);
    assert s[|s|..] == [];
    NatToStringRoundTrip(n);
    ParseUnsignedParts(s, s, []);
  }

  // ------------------------------------------------------------ str() is canonical

  lemma {:induction false} DivPow10IsQuotient(x: real, e: nat)
    ensures DivPow10(x, e) == x / Pow10(e) as real
  {
    if e > 0 {
      DivPow10IsQuotient(x, e - 1);
      var p := Pow10(e - 1) as real;
      assert Pow10(e) as real == 10.0 * p;
      assert x / p / 10.0 == x / (10.0 * p);
    }
  }

  lemma {:induction false} Pow10Add(a: nat, b: nat)
    ensures Pow10(a + b) == Pow10(a) * Pow10(b)
    decreases b
  {
    if b > 0 {
      Pow10Add(a, b - 1);
    }
  }

  /** Equal values cross-multiply to equal integers. */
  lemma CrossMultiply(a: Decimal, b: Decimal)
    requires Value(a) == Value(b)
    ensures a.units * Pow10(b.scale) == b.units * Pow10(a.scale)
  {
    var pa, pb := Pow10(a.scale), Pow10(b.scale);
    DivPow10IsQuotient(a.units as real, a.scale);
    DivPow10IsQuotient(b.units as real, b.scale);
    RealCross(a.units as real, b.units as real, pa as real, pb as real);
    ProductAsReal(a.units, pb);
    ProductAsReal(b.units, pa);
    SameAsReal(a.units * pb, b.units * pa);
  }

  lemma SameAsReal(m: int, n: int)
    requires m as real == n as real
    ensures m == n
  {
  }

  lemma RealCross(x: real, y: real, p: real, q: real)
    requires p > 0.0 && q > 0.0 && x / p == y / q
    ensures x * q == y * p
  {
    assert x == (y / q) * p;
  }

  lemma ProductAsReal(u: int, p: int)
    ensures (u * p) as real == u as real * p as real
  {
  }

  lemma Cancel(u: int, v: int, p: nat, q: nat)
    requires p >= 1 && u * (p * q) == v * p
    ensures u * q == v
  {
    assert (u * q) * p == v * p;
  }

  /** A multiple of a positive power of ten ends in the digit zero. */
  lemma PowerMultipleEndsInZero(u: int, k: nat)
    requires k > 0
    ensures (u * Pow10(k)) % 10 == 0
  {
    var w := u * Pow10(k - 1);
    assert u * Pow10(k) == w * 10;
    TimesTenEndsInZero(w);
  }

  lemma TimesTenEndsInZero(w: int)
    ensures (w * 10) % 10 == 0
  {
  }

  lemma NormalizedUniqueOrdered(a: Decimal, b: Decimal)
    requires a.scale == 0 || a.units % 10 != 0
    requires b.scale == 0 || b.units % 10 != 0
    requires a.scale <= b.scale && Value(a) == Value(b)
    ensures a == b
  {
    var k := b.scale - a.scale;
    CrossMultiply(a, b);
    Pow10Add(a.scale, k);
    Cancel(a.units, b.units, Pow10(a.scale), Pow10(k));
    if k > 0 {
      PowerMultipleEndsInZero(a.units, k);
    }
    assert k == 0;
  }

  /** Two decimals without trailing fraction zeros denote the same number
      only when they are the same decimal. */
  lemma NormalizedUnique(a: Decimal, b: Decimal)
    requires a.scale == 0 || a.units % 10 != 0
    requires b.scale == 0 || b.units % 10 != 0
    requires Value(a) == Value(b)
    ensures a == b
  {
    if a.scale <= b.scale {
      NormalizedUniqueOrdered(a, b);
    } else {
      NormalizedUniqueOrdered(b, a);
    }
  }

  /** `str()` of a number depends on the number alone, not on how it was written down. */
  lemma RenderOfValue(a: Decimal, b: Decimal)
    ensures Render(a) == Render(b) <== Value(a) == Value(b)
  {
    if Value(a) == Value(b) {
      NormalizedUnique(Normalize(a), Normalize(b));
    }
  }

  /** `str(float(t)) == t` for every text `t` that `str` produces. */
  lemma TextRoundTrip(d: Decimal, e: Decimal)
    requires ParseFloat(Render(d)) == Some(Value(e))
    ensures Render(e) == Render(d)
  {
    RenderRoundTrip(d);
    RenderOfValue(d, e);
  }
}
