/** Character classes, prefixes, substring search and number formatting shared by
    the other modules. JavaScript strings are modelled as `seq<char>`. */
module Text {

  predicate IsDigit(c: char) {
    '0' <= c <= '9'
  }

  predicate IsUpperAscii(c: char) {
    'A' <= c <= 'Z'
  }

  predicate IsHexDigit(c: char) {
    IsDigit(c) || 'a' <= c <= 'f' || 'A' <= c <= 'F'
  }

  predicate AllDigits(s: string) {
    forall i :: 0 <= i < |s| ==> IsDigit(s[i])
  }

  /** ASCII lower-casing of one character; every other character is kept. */
  function AsciiLower(c: char): (r: char)
    ensures IsUpperAscii(c) ==> 'a' <= r <= 'z' && r as int == c as int + 32
    ensures !IsUpperAscii(c) ==> r == c
  {
    if IsUpperAscii(c) then (c as int + 32) as char else c
  }

  function AsciiLowerString(s: string): (r: string)
    ensures |r| == |s|
    ensures forall i :: 0 <= i < |s| ==> r[i] == AsciiLower(s[i])
  {
    if |s| == 0 then "" else [AsciiLower(s[0])] + AsciiLowerString(s[1..])
  }

  /** `s.startsWith(prefix)`. */
  predicate StartsWith(s: string, prefix: string) {
    |prefix| <= |s| && s[..|prefix|] == prefix
  }

  /** `s.includes(needle)`: some position of `s` starts an occurrence of `needle`. */
  predicate Includes(s: string, needle: string)
    decreases |s|
  {
    StartsWith(s, needle) || (|s| > 0 && Includes(s[1..], needle))
  }

  /** An occurrence at any offset is found by `Includes`. */
  lemma {:induction false} IncludesAt(s: string, needle: string, k: nat)
    requires k <= |s| && StartsWith(s[k..], needle)
    ensures Includes(s, needle)
    decreases k
  {
    if k > 0 {
      assert s[1..][k - 1..] == s[k..];
      IncludesAt(s[1..], needle, k - 1);
    } else {
      assert s[0..] == s;
    }
  }

  /** `Includes` finds nothing but real occurrences. */
  lemma {:induction false} IncludesWitness(s: string, needle: string) returns (k: nat)
    requires Includes(s, needle)
    ensures k <= |s| && StartsWith(s[k..], needle)
    decreases |s|
  {
    if StartsWith(s, needle) {
      k := 0;
      assert s[0..] == s;
    } else {
      var k' := IncludesWitness(s[1..], needle);
      assert s[1..][k'..] == s[k' + 1..];
      k := k' + 1;
    }
  }

  function DigitChar(d: nat): (c: char)
    requires d < 10
    ensures IsDigit(c)
  {
    (48 + d) as char
  }

  function DigitValue(c: char): (d: nat)
    requires IsDigit(c)
    ensures d < 10 && DigitChar(d) == c
  {
    c as int - 48
  }

  /** The decimal numeral JavaScript writes for a non-negative integer
      (`String(n)` and template interpolation). */
  function NatToDecimal(n: nat): (s: string)
    ensures |s| >= 1 && AllDigits(s)
    ensures |s| > 1 ==> s[0] != '0'
    ensures n < 10 <==> |s| == 1
    decreases n
  {
    if n < 10 then [DigitChar(n)] else NatToDecimal(n / 10) + [DigitChar(n % 10)]
  }

  /** The value of a numeral, read most significant digit first. */
  function DecimalValue(s: string): nat
    requires AllDigits(s)
  {
    if |s| == 0 then 0 else DecimalValue(s[..|s| - 1]) * 10 + DigitValue(s[|s| - 1])
  }

  /** Reading back a written numeral gives the number written. */
  lemma {:induction false} DecimalRoundTrip(n: nat)
    ensures DecimalValue(NatToDecimal(n)) == n
    decreases n
  {
    var s := NatToDecimal(n);
    if n >= 10 {
      assert s[..|s| - 1] == NatToDecimal(n / 10);
      DecimalRoundTrip(n / 10);
    }
  }

  /** Distinct numbers are written differently. */
  lemma NatToDecimalInjective(m: nat, n: nat)
    requires NatToDecimal(m) == NatToDecimal(n)
    ensures m == n
  {
    DecimalRoundTrip(m);
    DecimalRoundTrip(n);
  }

  /** `n` written with at least `width` digits, zero-padded on the left
      (the date-fns `yyyy`, `MM` and `dd` tokens). */
  function PadDecimal(n: nat, width: nat): (s: string)
    ensures AllDigits(s) && |s| >= width
    ensures |NatToDecimal(n)| <= width ==> |s| == width
    ensures |NatToDecimal(n)| >= width ==> s == NatToDecimal(n)
    decreases width
  {
    var d := NatToDecimal(n);
    if |d| >= width then d else "0" + PadDecimal(n, width - 1)
  }

  /** Leading zeros do not change the value of a numeral. */
  lemma {:induction false} PadDecimalValue(n: nat, width: nat)
    ensures DecimalValue(PadDecimal(n, width)) == n
    decreases width
  {
    var d := NatToDecimal(n);
    if |d| >= width {
      DecimalRoundTrip(n);
    } else {
      PadDecimalValue(n, width - 1);
      LeadingZeroValue(PadDecimal(n, width - 1));
    }
  }

  lemma {:induction false} LeadingZeroValue(s: string)
    requires AllDigits(s)
    ensures DecimalValue("0" + s) == DecimalValue(s)
    decreases |s|
  {
    var t := "0" + s;
    if |s| > 0 {
      assert t[..|t| - 1] == "0" + s[..|s| - 1];
      LeadingZeroValue(s[..|s| - 1]);
    } else {
      assert t[..0] == "";
    }
  }

  function Pow10(k: nat): (p: nat)
    ensures p >= 1
  {
    if k == 0 then 1 else 10 * Pow10(k - 1)
  }

  /** A numeral of `k` digits is worth less than 10^k. */
  lemma {:induction false} DecimalValueBound(s: string)
    requires AllDigits(s)
    ensures DecimalValue(s) < Pow10(|s|)
    decreases |s|
  {
    if |s| > 0 {
      DecimalValueBound(s[..|s| - 1]);
    }
  }

  /** A number below 10^k is written with at most `k` digits. */
  lemma {:induction false} NatToDecimalLength(n: nat, k: nat)
    requires k >= 1 && n < Pow10(k)
    ensures |NatToDecimal(n)| <= k
    decreases k
  {
    if n >= 10 {
      assert k >= 2;
      assert n / 10 < Pow10(k - 1);
      NatToDecimalLength(n / 10, k - 1);
    }
  }

  /** A numeral without a leading zero is worth at least one. */
  lemma {:induction false} LeadingDigitPositive(s: string)
    requires AllDigits(s) && |s| >= 1 && s[0] != '0'
    ensures DecimalValue(s) >= 1
    decreases |s|
  {
    if |s| > 1 {
      LeadingDigitPositive(s[..|s| - 1]);
    } else {
      assert DigitChar(0) == '0';
    }
  }

  /** A numeral without a leading zero is the one `NatToDecimal` writes for
      its value. */
  lemma {:induction false} CanonicalNumeral(s: string)
    requires AllDigits(s) && |s| >= 1 && (|s| == 1 || s[0] != '0')
    ensures NatToDecimal(DecimalValue(s)) == s
    decreases |s|
  {
    var n := DecimalValue(s);
    if |s| > 1 {
      var init := s[..|s| - 1];
      CanonicalNumeral(init);
      LeadingDigitPositive(init);
      assert n / 10 == DecimalValue(init) && n % 10 == DigitValue(s[|s| - 1]);
      assert s == init + [s[|s| - 1]];
    }
  }

  /** Zero-padding to the width of a numeral reproduces the numeral: a
      fixed-width field reads back exactly as it was written. */
  lemma {:induction false} PadDecimalOfValue(s: string)
    requires AllDigits(s) && |s| >= 1
    ensures PadDecimal(DecimalValue(s), |s|) == s
    decreases |s|
  {
    var n := DecimalValue(s);
    if |s| == 1 || s[0] != '0' {
      CanonicalNumeral(s);
    } else {
      var rest := s[1..];
      assert s == "0" + rest;
      LeadingZeroValue(rest);
      DecimalValueBound(rest);
      NatToDecimalLength(n, |rest|);
      PadDecimalOfValue(rest);
    }
  }

  function HexValue(c: char): (v: nat)
    requires IsHexDigit(c)
    ensures v < 16
  {
    if IsDigit(c) then c as int - 48
    else if 'a' <= c <= 'f' then c as int - 87
    else c as int - 55
  }

  /** The lower-case hexadecimal digit of a value below 16. */
  function HexDigitLower(v: nat): (c: char)
    requires v < 16
    ensures IsHexDigit(c) && HexValue(c) == v && !IsUpperAscii(c)
  {
    if v < 10 then (48 + v) as char else (87 + v) as char
  }

  /** Upper- and lower-case spellings of a hex digit have the same value, and
      writing a digit's value back in lower case gives its lower-case spelling. */
  lemma HexDigitRoundTrip(c: char)
    requires IsHexDigit(c)
    ensures HexDigitLower(HexValue(c)) == AsciiLower(c)
  {
  }
}
