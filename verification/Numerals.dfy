/** Printing and parsing of numbers in decimal and hexadecimal. */
module Numerals {
  import opened Wrappers

  function DigitChar(d: nat): char
    requires d < 16
  {
    "0123456789abcdef"[d]
  }

  function CharDigit(c: char): Option<nat> {
    if '0' <= c <= '9' then Some((c - '0') as nat)
    else if 'a' <= c <= 'f' then Some((c - 'a') as nat + 10)
    else if 'A' <= c <= 'F' then Some((c - 'A') as nat + 10)
    else None
  }

  function Power(base: nat, exponent: nat): nat {
    if exponent == 0 then 1 else base * Power(base, exponent - 1)
  }

  /** The shortest numeral. */
  function Print(n: nat, base: nat): string
    requires 2 <= base <= 16
  {
    if n < base then [DigitChar(n)] else Print(n / base, base) + [DigitChar(n % base)]
  }

  /** A numeral of exactly `width` digits. */
  function Padded(n: nat, base: nat, width: nat): (s: string)
    requires 2 <= base <= 16
    ensures |s| == width
  {
    if width == 0 then "" else Padded(n / base, base, width - 1) + [DigitChar(n % base)]
  }

  /** The value of a string of digits; None on any other character. */
  function Value(s: string, base: nat): Option<nat> {
    if s == "" then Some(0) else
    match (Value(s[..|s| - 1], base), CharDigit(s[|s| - 1]))
    case (Some(v), Some(d)) => if d < base then Some(v * base + d) else None
    case _ => None
  }

  predicate IsNumeral(s: string) {
    s != "" && AllDigits(s)
  }

  lemma DigitRoundTrip(d: nat)
    requires d < 16
    ensures CharDigit(DigitChar(d)) == Some(d)
  {
  }

  predicate AllDigits(s: string) {
    forall c :: c in s ==> CharDigit(c).Some?
  }

  lemma ValueAppend(s: string, d: nat, base: nat, v: nat)
    requires d < base <= 16 && Value(s, base) == Some(v) && AllDigits(s)
    ensures Value(s + [DigitChar(d)], base) == Some(v * base + d) && AllDigits(s + [DigitChar(d)])
  {
    var t := s + [DigitChar(d)];
    DigitRoundTrip(d);
    assert t[..|t| - 1] == s;
  }

  lemma QuotientRemainder(n: nat, base: nat)
    requires base > 0
    ensures n / base * base + n % base == n && n % base < base
  {
  }

  lemma QuotientBelow(n: nat, base: nat, quotient: nat, digit: nat)
    requires 2 <= base <= n && quotient * base + digit == n && digit < base
    ensures 0 < quotient < n
  {
    assert quotient * base >= quotient * 2 by {
      ScaleMonotone(quotient, 2, base);
    }
  }

  /** A numeral of several digits, by its leading part and its last digit. */
  lemma PrintUnfolds(n: nat, base: nat) returns (quotient: nat, digit: nat)
    requires 2 <= base <= 16 && base <= n
    ensures quotient * base + digit == n && digit < base
    ensures Print(n, base) == Print(quotient, base) + [DigitChar(digit)]
  {
    quotient, digit := n / base, n % base;
    QuotientRemainder(n, base);
  }

  lemma PrintOneDigit(n: nat, base: nat)
    requires 2 <= base <= 16 && n < base
    ensures Print(n, base) == "" + [DigitChar(n)]
  {
  }

  lemma {:induction false} PrintRoundTrip(n: nat, base: nat)
    requires 2 <= base <= 16
    ensures Value(Print(n, base), base) == Some(n) && IsNumeral(Print(n, base))
    decreases n
  {
    if n < base {
      PrintOneDigit(n, base);
      ValueAppend("", n, base, 0);
    } else {
      var quotient, digit := PrintUnfolds(n, base);
      QuotientBelow(n, base, quotient, digit);
      PrintRoundTrip(quotient, base);
      ValueAppend(Print(quotient, base), digit, base, quotient);
    }
  }

  /** Decimal text in the usual notation: the last digit last, after the text of the rest, and no
      leading zero. */
  lemma PrintDecimal(n: nat)
    ensures var text := Print(n, 10);
            && text != [] && text[|text| - 1] as int == '0' as int + n % 10
            && text[..|text| - 1] == (if n < 10 then "" else Print(n / 10, 10))
            && (text[0] == '0' ==> n == 0)
    decreases n
  {
    assert "0123456789abcdef"[..10] == "0123456789";
    if n < 10 {
      assert n % 10 == n;
    } else {
      PrintDecimal(n / 10);
      assert Print(n, 10)[0] == Print(n / 10, 10)[0];
    }
  }

  lemma PaddedUnfolds(n: nat, base: nat, width: nat) returns (quotient: nat, digit: nat)
    requires 2 <= base <= 16 && width > 0 && n < Power(base, width)
    ensures quotient * base + digit == n && digit < base && quotient < Power(base, width - 1)
    ensures Padded(n, base, width) == Padded(quotient, base, width - 1) + [DigitChar(digit)]
  {
    quotient, digit := n / base, n % base;
    QuotientRemainder(n, base);
    DivideBelow(n, base, Power(base, width - 1));
  }

  lemma {:induction false} PaddedRoundTrip(n: nat, base: nat, width: nat)
    requires 2 <= base <= 16 && n < Power(base, width)
    ensures Value(Padded(n, base, width), base) == Some(n)
    ensures |Padded(n, base, width)| == width && AllDigits(Padded(n, base, width))
    decreases width
  {
    if width == 0 {
    } else {
      var quotient, digit := PaddedUnfolds(n, base, width);
      PaddedRoundTrip(quotient, base, width - 1);
      ValueAppend(Padded(quotient, base, width - 1), digit, base, quotient);
    }
  }

  lemma ScaleMonotone(base: nat, a: nat, b: nat)
    requires a <= b
    ensures base * a <= base * b
  {
  }

  lemma DivideBelow(n: nat, base: nat, bound: nat)
    requires base > 0 && n < base * bound
    ensures n / base < bound
  {
    var quotient := n / base;
    QuotientRemainder(n, base);
    if bound <= quotient {
      ScaleMonotone(base, bound, quotient);
    }
  }

  lemma {:induction false} NumeralCharacters(s: string, c: char)
    requires IsNumeral(s) && CharDigit(c) == None
    ensures c !in s
  {
    assert c in s ==> CharDigit(c).Some?;
  }
}
