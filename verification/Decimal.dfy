/** Decimal numerals: how numbers appear in ids and names, and how they are read back. */
module Decimal {

  function Digit(d: nat): char
    requires d < 10
  {
    "0123456789"[d]
  }

  predicate IsDigit(c: char) {
    '0' <= c <= '9'
  }

  function DigitValue(c: char): nat
    requires IsDigit(c)
  {
    c as int - '0' as int
  }

  lemma DigitRoundTrip(d: nat)
    requires d < 10
    ensures IsDigit(Digit(d)) && DigitValue(Digit(d)) == d
  {
    var digits := "0123456789";
    assert digits[d] as int == '0' as int + d;
  }

  /** The shortest decimal numeral of `n`. */
  function Print(n: nat): (s: string)
    ensures |s| > 0
    ensures forall c | c in s :: IsDigit(c)
  {
    DigitRoundTrip(n % 10);
    if n < 10 then [Digit(n)] else Print(n / 10) + [Digit(n % 10)]
  }

  function Parse(s: string): nat
    requires forall c | c in s :: IsDigit(c)
  {
    if s == "" then 0 else 10 * Parse(s[..|s| - 1]) + DigitValue(s[|s| - 1])
  }

  /** Reading a printed number gives the number back. */
  lemma {:induction false} ParsePrint(n: nat)
    ensures Parse(Print(n)) == n
  {
    DigitRoundTrip(n % 10);
    if n >= 10 {
      ParsePrint(n / 10);
      assert Print(n)[..|Print(n)| - 1] == Print(n / 10);
    } else {
      assert Print(n)[..0] == "";
    }
  }

  /** Numbered names that share a prefix are equal only for equal numbers. */
  lemma NumberedNamesDiffer(prefix: string, m: nat, n: nat)
    requires prefix + Print(m) == prefix + Print(n)
    ensures m == n
  {
    assert Print(m) == (prefix + Print(m))[|prefix|..];
    assert Print(n) == (prefix + Print(n))[|prefix|..];
    ParsePrint(m);
    ParsePrint(n);
  }
}
