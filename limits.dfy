/** The upload size limit: `MAX_CONTENT_LENGTH` is configured in megabytes
    and reported back in megabytes by the 413 handler. */
module Limits {

  import opened Wrappers

  const Mebibyte: int := 1024 * 1024

  /** `config.MAX_FILE_SIZE_MB * 1024 * 1024`: a whole number of
      mebibytes, namely `mb` of them. */
  function MaxContentLength(mb: int): (limit: int)
    ensures limit % Mebibyte == 0 && limit / Mebibyte == mb
  {
    mb * 1024 * 1024
  }

  /** Python's `a // b` for a positive divisor: the floor of the quotient
      (Dafny's Euclidean `/` agrees with it when `b > 0`). */
  function FloorDiv(a: int, b: int): (q: int)
    requires b > 0
    ensures q * b <= a < q * b + b
  {
    a / b
  }

  /** The figure the 413 handler prints: `limit // 1024 // 1024`, the limit
      in whole megabytes rounded down. */
  function ReportedMegabytes(limit: int): (r: int)
    ensures r * Mebibyte <= limit < (r + 1) * Mebibyte
  {
    var k := FloorDiv(limit, 1024);
    var r := FloorDiv(k, 1024);
    assert r * Mebibyte == (r * 1024) * 1024;
    r
  }

  /** The figure in the 413 message is exactly the configured megabyte
      count, for every integer setting. */
  lemma LimitRoundTrip(mb: int)
    ensures ReportedMegabytes(MaxContentLength(mb)) == mb
  {
  }

  predicate IsDigit(c: char) {
    '0' <= c <= '9'
  }

  predicate AllDigits(s: string) {
    forall k :: 0 <= k < |s| ==> IsDigit(s[k])
  }

  function DigitChar(d: nat): (c: char)
    requires d < 10
    ensures IsDigit(c) && c as int - '0' as int == d
  {
    ('0' as int + d) as char
  }

  /** Decimal digits of a natural number, no leading zero. */
  function NatDecimal(n: nat): (s: string)
    ensures |s| >= 1 && AllDigits(s)
    ensures s[0] == '0' ==> n == 0
  {
    if n < 10 then [DigitChar(n)]
    else
      var s := NatDecimal(n / 10);
      s + [DigitChar(n % 10)]
  }

  /** The form `str` gives an integer: an optional minus sign, then
      digits with no leading zero, where a lone "0" is unsigned. */
  predicate Canonical(s: string) {
    if |s| >= 1 && s[0] == '-' then |s| >= 2 && AllDigits(s[1..]) && s[1] != '0'
    else |s| >= 1 && AllDigits(s) && (s[0] == '0' ==> s == "0")
  }

  /** `str(n)`, as an f-string renders an integer: a minus sign exactly
      for a negative number, then at least one digit, the first of which is
      a zero only for zero itself. */
  function DecimalString(n: int): (s: string)
    ensures |s| >= 1 && (s[0] == '-' <==> n < 0)
    ensures AllDigits(if n < 0 then s[1..] else s) && |s| >= (if n < 0 then 2 else 1)
    ensures (if n < 0 then s[1] else s[0]) == '0' ==> n == 0
    ensures Canonical(s)
  {
    if n < 0 then "-" + NatDecimal(-n) else NatDecimal(n)
  }

  /** The value of a run of decimal digits. */
  function DigitsValue(s: string): nat
    requires AllDigits(s)
  {
    if s == [] then 0
    else DigitsValue(s[..|s| - 1]) * 10 + (s[|s| - 1] as int - '0' as int)
  }

  /** Reading an integer back from its decimal text, as `int(s)` would for
      an optional minus sign followed by digits. */
  function ParseDecimal(s: string): Option<int> {
    if |s| >= 2 && s[0] == '-' && AllDigits(s[1..]) then Some(0 - DigitsValue(s[1..]) as int)
    else if |s| >= 1 && AllDigits(s) then Some(DigitsValue(s))
    else None
  }

  lemma {:induction false} NatDecimalValue(n: nat)
    ensures DigitsValue(NatDecimal(n)) == n
  {
    if n >= 10 {
      NatDecimalValue(n / 10);
      var s := NatDecimal(n);
      assert s[..|s| - 1] == NatDecimal(n / 10);
    }
  }

  /** The decimal text of an integer reads back as that integer. */
  lemma DecimalRoundTrip(n: int)
    ensures ParseDecimal(DecimalString(n)) == Some(n)
  {
    if n < 0 {
      NatDecimalValue(-n);
      assert DecimalString(n)[1..] == NatDecimal(-n);
    } else {
      NatDecimalValue(n);
    }
  }

  /** A digit run with no leading zero reads as a positive number. */
  lemma {:induction false} LeadingDigitPositive(s: string)
    requires |s| >= 1 && AllDigits(s) && s[0] != '0'
    ensures DigitsValue(s) >= 1
    decreases |s|
  {
    if |s| >= 2 {
      LeadingDigitPositive(s[..|s| - 1]);
    }
  }

  /** A digit run with no leading zero is the decimal text of its value. */
  lemma {:induction false} NatDecimalOfDigits(s: string)
    requires |s| >= 1 && AllDigits(s) && (s[0] == '0' ==> s == "0")
    ensures NatDecimal(DigitsValue(s)) == s
    decreases |s|
  {
    if |s| >= 2 {
      var t := s[..|s| - 1];
      LeadingDigitPositive(t);
      NatDecimalOfDigits(t);
      var n := DigitsValue(s);
      assert n / 10 == DigitsValue(t) && n % 10 == s[|s| - 1] as int - '0' as int;
      assert s == t + [s[|s| - 1]];
    }
  }

  /** `str` is the only canonical text of an integer: a canonical figure
      that reads back as n is `DecimalString(n)`. */
  lemma DecimalStringUnique(figure: string, n: int)
    requires Canonical(figure) && ParseDecimal(figure) == Some(n)
    ensures figure == DecimalString(n)
  {
    if figure[0] == '-' {
      var t := figure[1..];
      NatDecimalOfDigits(t);
      LeadingDigitPositive(t);
      assert figure == "-" + t;
    } else {
      NatDecimalOfDigits(figure);
    }
  }

  /** The body of the 413 response: a fixed text around the canonical
      figure that reads back as the limit in whole megabytes, which is
      `str` of that number by `DecimalStringUnique`. */
  function TooLargeMessage(limit: int): (message: string)
    ensures exists figure :: message == "File too large. Max is " + figure + " MB"
                             && Canonical(figure)
                             && ParseDecimal(figure) == Some(ReportedMegabytes(limit))
  {
    var figure := DecimalString(ReportedMegabytes(limit));
    DecimalRoundTrip(ReportedMegabytes(limit));
    "File too large. Max is " + figure + " MB"
  }

  /** The 413 message names the configured megabyte limit in a form that
      reads back as that number. */
  lemma TooLargeMessageNamesLimit(mb: int)
    ensures exists figure :: TooLargeMessage(MaxContentLength(mb)) == "File too large. Max is " + figure + " MB"
                             && ParseDecimal(figure) == Some(mb)
    ensures TooLargeMessage(MaxContentLength(mb)) == "File too large. Max is " + DecimalString(mb) + " MB"
  {
    LimitRoundTrip(mb);
    DecimalRoundTrip(mb);
    var figure := DecimalString(mb);
    assert TooLargeMessage(MaxContentLength(mb)) == "File too large. Max is " + figure + " MB";
  }
}
