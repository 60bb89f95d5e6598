/** Decimal rendering of non-negative integers: Python's `str(n)`, `f"{n:0Wd}"`
    and Java's `String.valueOf(n)`, `String.format("%0Wd", n)` for `n >= 0`. */
module Text {

  predicate IsDigit(c: char)
  {
    '0' <= c <= '9'
  }

  predicate AllDigits(s: string)
  {
    forall i :: 0 <= i < |s| ==> IsDigit(s[i])
  }

  function DigitChar(d: nat): (c: char)
    requires d < 10
    ensures IsDigit(c) && c as int - '0' as int == d
  {
    ('0' as int + d) as char
  }

  function DigitValue(c: char): (d: nat)
    requires IsDigit(c)
    ensures d < 10
  {
    c as int - '0' as int
  }

  /** The shortest decimal numeral of `n`. */
  function Decimal(n: nat): (s: string)
    ensures |s| >= 1 && AllDigits(s)
    ensures |s| > 1 ==> s[0] != '0'
  {
    if n < 10 then [DigitChar(n)] else Decimal(n / 10) + [DigitChar(n % 10)]
  }

  /** The value of a string of decimal digits, most significant first. */
  function DecimalValue(s: string): (n: nat)
    requires AllDigits(s)
  {
    if s == [] then 0 else 10 * DecimalValue(s[..|s| - 1]) + DigitValue(s[|s| - 1])
  }

  lemma {:induction false} DecimalRoundTrip(n: nat)
    ensures DecimalValue(Decimal(n)) == n
  {
    if n >= 10 {
      DecimalRoundTrip(n / 10);
      var s := Decimal(n);
      assert s[..|s| - 1] == Decimal(n / 10);
    }
  }

  /** Leading zero characters never change a numeral's value. */
  lemma {:induction false} LeadingZeros(k: nat, s: string)
    requires AllDigits(s)
    ensures AllDigits(Repeat('0', k) + s) && DecimalValue(Repeat('0', k) + s) == DecimalValue(s)
  {
    var t := Repeat('0', k) + s;
    if s != [] {
      assert t[..|t| - 1] == Repeat('0', k) + s[..|s| - 1];
      LeadingZeros(k, s[..|s| - 1]);
    } else if k > 0 {
      assert t == Repeat('0', k);
      assert t[..|t| - 1] == Repeat('0', k - 1) + [];
      LeadingZeros(k - 1, s);
    }
  }

  function Repeat(c: char, k: nat): (s: string)
    ensures |s| == k && forall i :: 0 <= i < k ==> s[i] == c
  {
    seq(k, _ => c)
  }

  function Pow10(k: nat): (r: nat)
    ensures r > 0
  {
    if k == 0 then 1 else 10 * Pow10(k - 1)
  }

  lemma {:induction false} DecimalLength(n: nat, k: nat)
    ensures n < Pow10(k) ==> |Decimal(n)| <= if k == 0 then 1 else k
  {
    if n < Pow10(k) && n >= 10 {
      assert Pow10(0) == 1 && Pow10(1) == 10;
      DecimalLength(n / 10, k - 1);
    }
  }

  /** Zero-padded to at least `width` digits. */
  function ZeroPad(n: nat, width: nat): (s: string)
    ensures AllDigits(s) && |s| >= width && DecimalValue(s) == n
    ensures 0 < width && n < Pow10(width) ==> |s| == width
  {
    var d := Decimal(n);
    DecimalRoundTrip(n);
    LeadingZeros(if |d| >= width then 0 else width - |d|, d);
    DecimalLength(n, width);
    assert Repeat('0', 0) + d == d;
    if |d| >= width then d else Repeat('0', width - |d|) + d
  }

  lemma DigitsAreAscii(s: string)
    requires AllDigits(s)
    ensures forall i :: 0 <= i < |s| ==> s[i] as int < 128
  {
  }
}
