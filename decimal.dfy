/** Number.prototype.toString and parseInt(s, 10) on integers: how the
    last-fetch timestamp is written to storage and read back. */
module Decimal {
  import opened JsonValues

  predicate IsDigit(c: char) {
    '0' <= c <= '9'
  }

  predicate AllDigits(s: string) {
    forall i :: 0 <= i < |s| ==> IsDigit(s[i])
  }

  function DigitValue(c: char): nat
    requires IsDigit(c)
  {
    (c as int) - ('0' as int)
  }

  function DigitChar(d: nat): (c: char)
    requires d < 10
    ensures IsDigit(c) && DigitValue(c) == d
  {
    (('0' as int) + d) as char
  }

  /** The decimal numeral of n, most significant digit first, without leading zeros. */
  function NatToDecimal(n: nat): (s: string)
    ensures s != [] && AllDigits(s)
    ensures |s| == 1 <==> n < 10
    ensures |s| > 1 ==> s[0] != '0'
  {
    if n < 10 then [DigitChar(n)] else NatToDecimal(n / 10) + [DigitChar(n % 10)]
  }

  /** String(n) for an integer n of magnitude below 10^21 (no exponent form). */
  function IntToDecimal(n: int): (s: string)
    ensures s != []
    ensures n >= 0 ==> AllDigits(s) && (|s| == 1 <==> n < 10) && (|s| > 1 ==> s[0] != '0')
    ensures n < 0 ==> s[0] == '-' && |s| > 1 && AllDigits(s[1..])
    ensures n < 0 ==> (|s| == 2 <==> n > -10) && (|s| > 2 ==> s[1] != '0')
  {
    if n < 0 then "-" + NatToDecimal(-n) else NatToDecimal(n)
  }

  /** The value of a numeral read most significant digit first. */
  function DigitsValue(ds: string): nat
    requires AllDigits(ds)
  {
    if ds == [] then 0 else DigitsValue(ds[..|ds| - 1]) * 10 + DigitValue(ds[|ds| - 1])
  }

  /** The longest prefix of s made of decimal digits. */
  function LeadingDigits(s: string): (ds: string)
    ensures |ds| <= |s| && ds == s[..|ds|]
    ensures AllDigits(ds)
    ensures |ds| < |s| ==> !IsDigit(s[|ds|])
  {
    if s == [] || !IsDigit(s[0]) then [] else [s[0]] + LeadingDigits(s[1..])
  }

  /** The characters StrWhiteSpaceChar admits: white space and line terminators. */
  predicate IsWhiteSpace(c: char) {
    c == ' ' || c == '\t' || c == '\n' || c == '\r' || c == '\U{000B}' || c == '\U{000C}'
    || c == '\U{00A0}' || c == '\U{1680}' || ('\U{2000}' <= c <= '\U{200A}')
    || c == '\U{2028}' || c == '\U{2029}' || c == '\U{202F}' || c == '\U{205F}'
    || c == '\U{3000}' || c == '\U{FEFF}'
  }

  /** s without its leading white space. */
  function TrimStart(s: string): (t: string)
    ensures |t| <= |s| && t == s[|s| - |t|..]
    ensures forall i :: 0 <= i < |s| - |t| ==> IsWhiteSpace(s[i])
    ensures t == [] || !IsWhiteSpace(t[0])
  {
    if s != [] && IsWhiteSpace(s[0]) then TrimStart(s[1..]) else s
  }

  /** The longest run of digits at the start of u, as a number; None (NaN) when there is none. */
  function ReadDigits(u: string): (r: Option<int>)
    ensures r.None? <==> u == [] || !IsDigit(u[0])
    ensures r.Some? ==> r.value >= 0
  {
    var ds := LeadingDigits(u);
    if ds == [] then None else Some(DigitsValue(ds))
  }

  /** parseInt(s, 10): leading white space is skipped, then an optional sign,
      then the longest run of decimal digits is read; None stands for NaN,
      the result when that run is empty. */
  function ParseInt(s: string): (r: Option<int>)
    ensures var t := TrimStart(s);
            var u := if t != [] && (t[0] == '-' || t[0] == '+') then t[1..] else t;
            r.None? <==> u == [] || !IsDigit(u[0])
    ensures r.Some? && r.value < 0 ==> TrimStart(s) != [] && TrimStart(s)[0] == '-'
  {
    ParseSigned(TrimStart(s))
  }

  /** parseInt after the white space: an optional sign, then the digits. */
  function ParseSigned(t: string): (r: Option<int>)
    ensures r.Some? && r.value < 0 ==> t != [] && t[0] == '-'
    ensures t != [] && t[0] == '-' && r.Some? ==> r.value <= 0
    ensures t != [] && IsDigit(t[0]) ==> r == ReadDigits(t)
  {
    if t != [] && t[0] == '-' then Negated(ReadDigits(t[1..]))
    else if t != [] && t[0] == '+' then ReadDigits(t[1..])
    else ReadDigits(t)
  }

  function Negated(r: Option<int>): Option<int> {
    match r
    case Some(v) => Some(-v)
    case None => None
  }

  /** parseInt(text, 10) on a stored string. The JSON text of a number is its
      numeral; the JSON text of any other value begins with '"', '[', '{',
      'n', 't' or 'f', so parseInt yields NaN for it. */
  function ParseIntText(t: Text): (r: Option<int>)
    ensures t.Serialized? ==> (r.Some? <==> t.value.JNum?)
    ensures t.Serialized? && t.value.JNum? ==> r == Some(t.value.n)
  {
    match t
    case Serialized(JNum(n)) =>
      ParseIntReadsNumeral(n, []);
      assert IntToDecimal(n) + [] == IntToDecimal(n);
      ParseInt(IntToDecimal(n))
    case Serialized(_) => None
    case Other(raw) => ParseInt(raw)
  }

  lemma {:induction false} DigitsValueOfNatToDecimal(n: nat)
    ensures DigitsValue(NatToDecimal(n)) == n
  {
    if n >= 10 {
      var s := NatToDecimal(n / 10) + [DigitChar(n % 10)];
      assert s[..|s| - 1] == NatToDecimal(n / 10);
      DigitsValueOfNatToDecimal(n / 10);
    }
  }

  lemma {:induction false} LeadingDigitsStopsAtNonDigit(ds: string, rest: string)
    requires AllDigits(ds)
    requires rest == [] || !IsDigit(rest[0])
    ensures LeadingDigits(ds + rest) == ds
  {
    if ds != [] {
      assert (ds + rest)[1..] == ds[1..] + rest;
      LeadingDigitsStopsAtNonDigit(ds[1..], rest);
    }
  }

  lemma NoLeadingWhiteSpace(s: string)
    requires s != [] && (IsDigit(s[0]) || s[0] == '-')
    ensures TrimStart(s) == s
  {
    assert !IsWhiteSpace(s[0]);
  }

  /** After the sign, parseInt reads exactly the digits in front of rest. */
  lemma ReadsDigitsBefore(digits: string, rest: string)
    requires digits != [] && AllDigits(digits)
    requires rest == [] || !IsDigit(rest[0])
    ensures ReadDigits(digits + rest) == Some(DigitsValue(digits) as int)
  {
    LeadingDigitsStopsAtNonDigit(digits, rest);
  }

  /** Text that starts with a digit is read as its leading digits. */
  lemma ParseIntOfDigitFirst(u: string, value: int)
    requires u != [] && IsDigit(u[0])
    requires ReadDigits(u) == Some(value)
    ensures ParseInt(u) == Some(value)
  {
    NoLeadingWhiteSpace(u);
    assert ParseSigned(u) == ReadDigits(u);
  }

  /** A minus sign negates the number the digits after it are read as. */
  lemma ParseIntOfMinus(u: string, value: int)
    requires ReadDigits(u) == Some(value)
    ensures ParseInt("-" + u) == Some(-value)
  {
    var s := "-" + u;
    NoLeadingWhiteSpace(s);
    assert s[1..] == u;
    assert ParseSigned(s) == Negated(ReadDigits(u));
  }

  lemma ReadsNegativeNumeral(n: int, rest: string)
    requires n < 0
    requires rest == [] || !IsDigit(rest[0])
    ensures ParseInt(IntToDecimal(n) + rest) == Some(n)
  {
    var magnitude: nat := -n;
    var digits := NatToDecimal(magnitude);
    DigitsValueOfNatToDecimal(magnitude);
    assert IntToDecimal(n) + rest == "-" + (digits + rest);
    ReadsDigitsBefore(digits, rest);
    ParseIntOfMinus(digits + rest, magnitude);
  }

  lemma ReadsNonNegativeNumeral(n: nat, rest: string)
    requires rest == [] || !IsDigit(rest[0])
    ensures ParseInt(IntToDecimal(n) + rest) == Some(n)
  {
    var digits := NatToDecimal(n);
    DigitsValueOfNatToDecimal(n);
    assert (digits + rest)[0] == digits[0];
    ReadsDigitsBefore(digits, rest);
    ParseIntOfDigitFirst(digits + rest, n);
  }

  /** parseInt reads back the numeral String(n) writes, whatever non-digit
      text follows it. */
  lemma ParseIntReadsNumeral(n: int, rest: string)
    requires rest == [] || !IsDigit(rest[0])
    ensures ParseInt(IntToDecimal(n) + rest) == Some(n)
  {
    if n < 0 {
      ReadsNegativeNumeral(n, rest);
    } else {
      ReadsNonNegativeNumeral(n, rest);
    }
  }
}
