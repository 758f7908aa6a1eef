/**
  Decimal integer parsing as std::stoi and std::stoll perform it: strtol and
  strtoll in base 10 (ISO C11 section 7.22.1.4) followed by the exceptions
  those wrappers throw. Leading white space is skipped, one optional sign is
  accepted, at least one decimal digit is required and whatever follows the
  digits is ignored. No conversion, or a value outside the target type, is a
  failure (std::invalid_argument or std::out_of_range); here it is None.
 */
module IntParse {
  import opened Wrappers

  const INT_MIN: int := -0x8000_0000
  const INT_MAX: int := 0x7FFF_FFFF
  const LLONG_MIN: int := -0x8000_0000_0000_0000
  const LLONG_MAX: int := 0x7FFF_FFFF_FFFF_FFFF

  /** isspace in the "C" locale. */
  predicate IsSpace(c: char) {
    c == ' ' || c == '\t' || c == '\n' || c == '\U{000B}' || c == '\U{000C}' || c == '\r'
  }

  predicate IsDigit(c: char) {
    '0' <= c <= '9'
  }

  predicate AllDigits(d: string) {
    forall i :: 0 <= i < |d| ==> IsDigit(d[i])
  }

  predicate AllSpaces(w: string) {
    forall i :: 0 <= i < |w| ==> IsSpace(w[i])
  }

  function DigitValue(c: char): (v: nat)
    requires IsDigit(c)
    ensures v < 10
  {
    c as int - '0' as int
  }

  function DigitChar(v: nat): (c: char)
    requires v < 10
    ensures IsDigit(c) && DigitValue(c) == v
  {
    ('0' as int + v) as char
  }

  /** Number of leading white-space characters. */
  function SpacePrefix(s: string): (n: nat)
    ensures n <= |s| && AllSpaces(s[..n])
    ensures n < |s| ==> !IsSpace(s[n])
  {
    if s == [] || !IsSpace(s[0]) then 0
    else
      var n := 1 + SpacePrefix(s[1..]);
      assert s[..n] == [s[0]] + s[1..][..n - 1];
      n
  }

  /** Number of leading decimal digits. */
  function DigitPrefix(s: string): (n: nat)
    ensures n <= |s| && AllDigits(s[..n])
    ensures n < |s| ==> !IsDigit(s[n])
  {
    if s == [] || !IsDigit(s[0]) then 0
    else
      var n := 1 + DigitPrefix(s[1..]);
      assert s[..n] == [s[0]] + s[1..][..n - 1];
      n
  }

  /** The number a string of decimal digits denotes, most significant first. */
  function DigitsValue(d: string): nat
    requires AllDigits(d)
  {
    if d == [] then 0 else 10 * DigitsValue(d[..|d| - 1]) + DigitValue(d[|d| - 1])
  }

  /**
    The integer that strtol/strtoll read from the front of s, when there is
    one and it lies in [lo, hi]. stoi passes [INT_MIN, INT_MAX] and stoll
    passes [LLONG_MIN, LLONG_MAX]; the value is formed exactly, then checked.
   */
  function ParseInteger(s: string, lo: int, hi: int): (r: Option<int>)
    ensures r.Some? ==> lo <= r.value <= hi
  {
    ParseSigned(s[SpacePrefix(s)..], lo, hi)
  }

  /** The conversion after the white space: an optional sign, then digits. */
  function ParseSigned(t: string, lo: int, hi: int): (r: Option<int>)
    ensures r.Some? ==> lo <= r.value <= hi
  {
    if t != [] && (t[0] == '+' || t[0] == '-') then ParseDigitRun(t[0] == '-', t[1..], lo, hi)
    else ParseDigitRun(false, t, lo, hi)
  }

  /** The conversion of the leading digit run of u, negated when a minus sign preceded it. */
  function ParseDigitRun(negative: bool, u: string, lo: int, hi: int): (r: Option<int>)
    ensures r.Some? ==> lo <= r.value <= hi
  {
    var n := DigitPrefix(u);
    if n == 0 then None else InRange(Signed(negative, DigitsValue(u[..n])), lo, hi)
  }

  function Signed(negative: bool, m: nat): int {
    if negative then 0 - m else m
  }

  function InRange(v: int, lo: int, hi: int): (r: Option<int>)
    ensures r.Some? ==> lo <= r.value <= hi
  {
    if lo <= v <= hi then Some(v) else None
  }

  /** Shortest decimal digits of n. */
  function Digits(n: nat): (d: string)
    ensures |d| > 0 && AllDigits(d)
  {
    if n < 10 then [DigitChar(n)] else Digits(n / 10) + [DigitChar(n % 10)]
  }

  /** Decimal rendering of an integer, as std::to_string writes it. */
  function Render(n: int): (s: string)
    ensures |s| > 0 && (IsDigit(s[0]) || s[0] == '-')
  {
    if n < 0 then "-" + Digits(-n) else Digits(n)
  }

  lemma {:induction false} DigitsValueOfDigits(n: nat)
    ensures DigitsValue(Digits(n)) == n
  {
    if n >= 10 {
      var d := Digits(n);
      assert d[..|d| - 1] == Digits(n / 10);
      DigitsValueOfDigits(n / 10);
    }
  }

  lemma {:induction false} SpacePrefixOf(w: string, t: string)
    requires AllSpaces(w)
    requires t == [] || !IsSpace(t[0])
    ensures SpacePrefix(w + t) == |w|
  {
    if w != [] {
      assert (w + t)[1..] == w[1..] + t;
      SpacePrefixOf(w[1..], t);
    }
  }

  lemma {:induction false} DigitPrefixOf(d: string, rest: string)
    requires AllDigits(d)
    requires rest == [] || !IsDigit(rest[0])
    ensures DigitPrefix(d + rest) == |d|
  {
    if d != [] {
      assert (d + rest)[1..] == d[1..] + rest;
      DigitPrefixOf(d[1..], rest);
    }
  }

  /** Leading white space is skipped. */
  lemma ParseSkipsSpaces(w: string, t: string, lo: int, hi: int)
    requires AllSpaces(w)
    requires t == [] || !IsSpace(t[0])
    ensures ParseInteger(w + t, lo, hi) == ParseSigned(t, lo, hi)
  {
    SpacePrefixOf(w, t);
    assert (w + t)[|w|..] == t;
  }

  /** One sign character is consumed; only a minus negates. */
  lemma ParseSign(sign: string, u: string, lo: int, hi: int)
    requires sign == "+" || sign == "-"
    ensures ParseSigned(sign + u, lo, hi) == ParseDigitRun(sign == "-", u, lo, hi)
  {
    assert (sign + u)[1..] == u;
  }

  /** The digit run is read in full and what follows it is ignored. */
  lemma ParseRun(negative: bool, d: string, rest: string, lo: int, hi: int)
    requires |d| > 0 && AllDigits(d)
    requires rest == [] || !IsDigit(rest[0])
    ensures ParseDigitRun(negative, d + rest, lo, hi) == InRange(Signed(negative, DigitsValue(d)), lo, hi)
  {
    DigitPrefixOf(d, rest);
    assert (d + rest)[..|d|] == d;
  }

  /** The decimal digits of a natural number are read back as that number. */
  lemma ParseDigitsOf(w: string, negative: bool, m: nat, rest: string, lo: int, hi: int)
    requires AllSpaces(w)
    requires rest == [] || !IsDigit(rest[0])
    ensures ParseInteger(w + ((if negative then "-" else "") + (Digits(m) + rest)), lo, hi)
      == InRange(Signed(negative, m), lo, hi)
  {
    var d := Digits(m);
    DigitsValueOfDigits(m);
    ParseRun(negative, d, rest, lo, hi);
    if negative {
      ParseSign("-", d + rest, lo, hi);
      ParseSkipsSpaces(w, "-" + (d + rest), lo, hi);
    } else {
      assert "" + (d + rest) == d + rest;
      ParseSkipsSpaces(w, d + rest, lo, hi);
    }
  }

  /**
    Reading a rendered integer gives it back when it fits in [lo, hi] and
    fails when it does not, whatever non-digit text follows it and whatever
    white space precedes it.
   */
  lemma ParseRender(w: string, n: int, rest: string, lo: int, hi: int)
    requires AllSpaces(w)
    requires rest == [] || !IsDigit(rest[0])
    ensures ParseInteger(w + Render(n) + rest, lo, hi) == if lo <= n <= hi then Some(n) else None
  {
    var negative := n < 0;
    var m: nat := if negative then -n else n;
    ParseDigitsOf(w, negative, m, rest, lo, hi);
    assert Render(n) == (if negative then "-" else "") + Digits(m);
    assert w + Render(n) + rest == w + ((if negative then "-" else "") + (Digits(m) + rest));
  }

  /**
    White space, an optional sign, a run of digits (leading zeros allowed)
    and text that does not start with a digit: the digit run is read, negated
    after a minus, then checked against [lo, hi].
   */
  lemma ParseWritten(w: string, sign: string, d: string, rest: string, lo: int, hi: int)
    requires AllSpaces(w)
    requires sign == "" || sign == "+" || sign == "-"
    requires |d| > 0 && AllDigits(d)
    requires rest == [] || !IsDigit(rest[0])
    ensures ParseInteger(w + (sign + (d + rest)), lo, hi) == InRange(Signed(sign == "-", DigitsValue(d)), lo, hi)
  {
    ParseSignedRun(sign, d, rest, lo, hi);
    ParseSkipsSpaces(w, sign + (d + rest), lo, hi);
  }

  /** The optionally signed digit run after the white space; it does not start with white space. */
  lemma ParseSignedRun(sign: string, d: string, rest: string, lo: int, hi: int)
    requires sign == "" || sign == "+" || sign == "-"
    requires |d| > 0 && AllDigits(d)
    requires rest == [] || !IsDigit(rest[0])
    ensures ParseSigned(sign + (d + rest), lo, hi) == InRange(Signed(sign == "-", DigitsValue(d)), lo, hi)
    ensures !IsSpace((sign + (d + rest))[0])
  {
    if sign == "" {
      ParseUnsignedRun(d, rest, lo, hi);
      assert sign + (d + rest) == d + rest;
    } else {
      ParseSignRun(sign, d, rest, lo, hi);
    }
  }

  lemma ParseUnsignedRun(d: string, rest: string, lo: int, hi: int)
    requires |d| > 0 && AllDigits(d)
    requires rest == [] || !IsDigit(rest[0])
    ensures ParseSigned(d + rest, lo, hi) == InRange(DigitsValue(d), lo, hi)
    ensures !IsSpace((d + rest)[0])
  {
    ParseRun(false, d, rest, lo, hi);
    assert (d + rest)[0] == d[0] && IsDigit(d[0]);
  }

  lemma ParseSignRun(sign: string, d: string, rest: string, lo: int, hi: int)
    requires sign == "+" || sign == "-"
    requires |d| > 0 && AllDigits(d)
    requires rest == [] || !IsDigit(rest[0])
    ensures ParseSigned(sign + (d + rest), lo, hi) == InRange(Signed(sign == "-", DigitsValue(d)), lo, hi)
    ensures !IsSpace((sign + (d + rest))[0])
  {
    ParseSign(sign, d + rest, lo, hi);
    ParseRun(sign == "-", d, rest, lo, hi);
    assert (sign + (d + rest))[0] == sign[0];
  }

  /** Without a digit after the white space and the sign there is no conversion. */
  lemma ParseNeedsDigit(w: string, sign: string, rest: string, lo: int, hi: int)
    requires AllSpaces(w)
    requires sign == "" || sign == "+" || sign == "-"
    requires rest == [] || (!IsDigit(rest[0]) && (sign == "" ==> !IsSpace(rest[0]) && rest[0] != '+' && rest[0] != '-'))
    ensures ParseInteger(w + (sign + rest), lo, hi) == None
  {
    var t := sign + rest;
    if t != [] {
      assert !IsSpace(t[0]);
    }
    SpacePrefixOf(w, t);
    assert (w + t)[|w|..] == t;
    if sign != "" {
      assert t[1..] == rest;
    }
  }

  /** "12abc" reads as 12: characters after the digits are ignored. */
  lemma TrailingTextIgnored()
    ensures ParseInteger("12abc", INT_MIN, INT_MAX) == Some(12)
  {
    ParseRender("", 12, "abc", INT_MIN, INT_MAX);
    assert "" + Render(12) + "abc" == "12abc";
  }

  lemma DigitsValueThousand()
    ensures DigitsValue("3000") == 3000
  {
    assert DigitsValue("3") == 3;
    assert "30"[..1] == "3";
    assert DigitsValue("30") == 30;
    assert "300"[..2] == "30";
    assert DigitsValue("300") == 300;
    assert "3000"[..3] == "300";
  }

  lemma DigitsValueMillion()
    ensures DigitsValue("3000000") == 3000000
  {
    DigitsValueThousand();
    assert "30000"[..4] == "3000";
    assert DigitsValue("30000") == 30000;
    assert "300000"[..5] == "30000";
    assert DigitsValue("300000") == 300000;
    assert "3000000"[..6] == "300000";
  }

  lemma DigitsValueBillion()
    ensures DigitsValue("3000000000") == 3000000000
  {
    DigitsValueMillion();
    assert "30000000"[..7] == "3000000";
    assert DigitsValue("30000000") == 30000000;
    assert "300000000"[..8] == "30000000";
    assert DigitsValue("300000000") == 300000000;
    assert "3000000000"[..9] == "300000000";
  }

  /** "3000000000" does not fit in an int, so std::stoi throws. */
  lemma IntOverflowFails()
    ensures ParseInteger("3000000000", INT_MIN, INT_MAX) == None
  {
    var d := "3000000000";
    DigitsValueBillion();
    ParseRun(false, d, "", INT_MIN, INT_MAX);
    ParseSkipsSpaces("", d + "", INT_MIN, INT_MAX);
    assert "" + (d + "") == d;
  }
}
