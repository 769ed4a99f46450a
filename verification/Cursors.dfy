/** The pagination cursor and its string form. */
module Cursors {
  import opened Wrappers
  import opened Domain
  import opened Numerals

  datatype Cursor = Cursor(block: int, logIndex: int, batchIndex: int)

  function Split(s: string, separator: char): seq<string>
    ensures Split(s, separator) != []
  {
    if s == "" then [""] else
    var rest := Split(s[1..], separator);
    if s[0] == separator then [""] + rest else [[s[0]] + rest[0]] + rest[1..]
  }

  /** Standard integer parsing: an optional sign, then at least one digit, within the type's range. */
  function ParseSigned(s: string, max: int): Option<int> {
    if s == "" then None else
    var negative := s[0] == '-';
    var digits := if s[0] == '-' || s[0] == '+' then s[1..] else s;
    if digits == "" then None else
    match Value(digits, 10)
    case None => None
    case Some(v) =>
      var n: int := if negative then 0 - v else v;
      if -max - 1 <= n <= max then Some(n) else None
  }

  function ParseCursor(value: string): Option<Cursor> {
    var parts := Split(value, ':');
    if |parts| != 3 then None else
    match (ParseSigned(parts[0], I64_MAX), ParseSigned(parts[1], I32_MAX), ParseSigned(parts[2], I32_MAX))
    case (Some(block), Some(logIndex), Some(batchIndex)) =>
      if block < 0 || logIndex < 0 || batchIndex < 0 then None else Some(Cursor(block, logIndex, batchIndex))
    case _ => None
  }

  function PrintInt(n: int): string {
    if n < 0 then "-" + Print(-n, 10) else Print(n, 10)
  }

  function EncodeCursor(c: Cursor): string {
    PrintInt(c.block) + ":" + PrintInt(c.logIndex) + ":" + PrintInt(c.batchIndex)
  }

  predicate InColumns(c: Cursor) {
    0 <= c.block <= I64_MAX && 0 <= c.logIndex <= I32_MAX && 0 <= c.batchIndex <= I32_MAX
  }

  lemma {:induction false} SplitFirst(a: string, b: string, separator: char)
    requires separator !in a
    ensures Split(a + [separator] + b, separator) == [a] + Split(b, separator)
    decreases |a|
  {
    var s := a + [separator] + b;
    if a == "" {
      assert s[0] == separator && s[1..] == b;
    } else {
      assert s[0] == a[0] && s[1..] == a[1..] + [separator] + b;
      SplitFirst(a[1..], b, separator);
      assert [a[0]] + a[1..] == a;
    }
  }

  lemma {:induction false} SplitLast(a: string, separator: char)
    requires separator !in a
    ensures Split(a, separator) == [a]
    decreases |a|
  {
    if a == "" {
    } else {
      SplitLast(a[1..], separator);
      assert [a[0]] + a[1..] == a;
    }
  }

  lemma UnsignedText(digits: string, v: nat, max: nat)
    requires IsNumeral(digits) && Value(digits, 10) == Some(v)
    ensures ParseSigned(digits, max) == if v <= max then Some(v) else None
  {
    NumeralCharacters(digits, '-');
    NumeralCharacters(digits, '+');
  }

  lemma SignedDigits(digits: string, v: nat, max: nat)
    requires IsNumeral(digits) && Value(digits, 10) == Some(v)
    ensures ParseSigned("+" + digits, max) == if v <= max then Some(v) else None
    ensures ParseSigned("-" + digits, max).Some? <==> v <= max + 1
    ensures v <= max + 1 ==> ParseSigned("-" + digits, max).value + v == 0
  {
    assert ("+" + digits)[1..] == digits && ("-" + digits)[1..] == digits;
  }

  /** A printed integer parses back exactly when it is in range. */
  lemma PrintIntRoundTrip(n: int, max: int)
    requires max >= 0
    ensures ParseSigned(PrintInt(n), max) == if -max - 1 <= n <= max then Some(n) else None
    ensures ':' !in PrintInt(n)
  {
    var m := if n < 0 then -n else n;
    var digits := Print(m, 10);
    PrintRoundTrip(m, 10);
    NumeralCharacters(digits, ':');
    if n < 0 {
      SignedDigits(digits, m, max);
    } else {
      UnsignedText(digits, m, max);
    }
  }

  /** Which texts are integers: digits, after at most one sign, in range. */
  lemma SignedText(n: nat, max: nat)
    ensures ParseSigned(Print(n, 10), max) == ParseSigned("+" + Print(n, 10), max) == if n <= max then Some(n) else None
    ensures ParseSigned("-" + Print(n, 10), max).Some? <==> n <= max + 1
    ensures n <= max + 1 ==> ParseSigned("-" + Print(n, 10), max).value + n == 0
    ensures ParseSigned("", max) == ParseSigned("+", max) == ParseSigned("-", max) == None
  {
    PrintRoundTrip(n, 10);
    UnsignedText(Print(n, 10), n, max);
    SignedDigits(Print(n, 10), n, max);
  }

  lemma SplitPair(a: string, b: string)
    requires ':' !in a && ':' !in b
    ensures Split(a + ":" + b, ':') == [a, b]
  {
    assert a + ":" + b == a + [':'] + b;
    SplitFirst(a, b, ':');
    SplitLast(b, ':');
  }

  lemma SplitTriple(a: string, b: string, c: string)
    requires ':' !in a && ':' !in b && ':' !in c
    ensures Split(a + ":" + b + ":" + c, ':') == [a, b, c]
  {
    assert a + ":" + b + ":" + c == a + [':'] + (b + ":" + c);
    SplitFirst(a, b + ":" + c, ':');
    SplitPair(b, c);
  }

  lemma SplitFour(a: string, b: string, c: string, d: string)
    requires ':' !in a && ':' !in b && ':' !in c && ':' !in d
    ensures |Split(a + ":" + b + ":" + c + ":" + d, ':')| == 4
  {
    assert a + ":" + b + ":" + c + ":" + d == a + [':'] + (b + ":" + c + ":" + d);
    SplitFirst(a, b + ":" + c + ":" + d, ':');
    SplitTriple(b, c, d);
  }

  /** A cursor has exactly three parts, each of which is an integer that fits its column. */
  lemma ThreeParts(a: string, b: string, c: string, d: string)
    requires ':' !in a && ':' !in b && ':' !in c && ':' !in d
    ensures ParseCursor(a) == ParseCursor(a + ":" + b) == ParseCursor(a + ":" + b + ":" + c + ":" + d) == None
    ensures ParseCursor(a + ":" + b + ":" + c).Some? ==>
              && ParseSigned(a, I64_MAX).Some? && ParseSigned(b, I32_MAX).Some? && ParseSigned(c, I32_MAX).Some?
              && InColumns(ParseCursor(a + ":" + b + ":" + c).value)
  {
    SplitLast(a, ':');
    SplitPair(a, b);
    SplitTriple(a, b, c);
    SplitFour(a, b, c, d);
    if ParseCursor(a + ":" + b + ":" + c).Some? {
      PartsInColumns(a + ":" + b + ":" + c);
    }
  }

  lemma PartsInColumns(value: string)
    requires ParseCursor(value).Some?
    ensures InColumns(ParseCursor(value).value)
  {
    var parts := Split(value, ':');
    SignedBound(parts[0], I64_MAX);
    SignedBound(parts[1], I32_MAX);
    SignedBound(parts[2], I32_MAX);
  }

  lemma SignedBound(s: string, max: int)
    ensures ParseSigned(s, max).Some? ==> ParseSigned(s, max).value <= max
  {
  }

  /** The string form is faithful: an encoded cursor parses back to itself, and it is rejected
      exactly when some component does not fit its column. */
  lemma CursorRoundTrip(c: Cursor)
    ensures ParseCursor(EncodeCursor(c)) == if InColumns(c) then Some(c) else None
  {
    PrintIntRoundTrip(c.block, I64_MAX);
    PrintIntRoundTrip(c.logIndex, I32_MAX);
    PrintIntRoundTrip(c.batchIndex, I32_MAX);
    var (a, b, d) := (PrintInt(c.block), PrintInt(c.logIndex), PrintInt(c.batchIndex));
    assert EncodeCursor(c) == a + [':'] + (b + [':'] + d);
    SplitFirst(a, b + [':'] + d, ':');
    SplitFirst(b, d, ':');
    SplitLast(d, ':');
    assert Split(EncodeCursor(c), ':') == [a, b, d];
  }
}
