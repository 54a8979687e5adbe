/**
 * The hand-written integer printer of the Velero helpers: digits are written backwards into a
 * twenty-byte buffer, on a machine whose int has 64 bits.
 */
module Itoa {

  const MIN_INT64 := -0x8000_0000_0000_0000
  const MAX_INT64 := 0x7fff_ffff_ffff_ffff

  /** Two's complement negation: the smallest integer is its own negation. */
  function Negate64(i: int): int {
    if i == MIN_INT64 then MIN_INT64 else -i
  }

  function DigitChar(d: nat): char
    requires d < 10
  {
    '0' + d as char
  }

  function DigitValue(c: char): int { c as int - '0' as int }

  predicate IsDigit(c: char) { '0' <= c <= '9' }

  /** Canonical decimal text of a natural number. */
  function Digits(n: nat): string {
    if n < 10 then [DigitChar(n)] else Digits(n / 10) + [DigitChar(n % 10)]
  }

  /** Canonical decimal text of an integer. */
  function Decimal(i: int): string {
    if i < 0 then "-" + Digits(-i) else Digits(i)
  }

  function ReadDigits(s: string): int {
    if s == "" then 0 else 10 * ReadDigits(s[..|s| - 1]) + DigitValue(s[|s| - 1])
  }

  /** Reads an optional minus sign followed by digits. */
  function ReadDecimal(s: string): int {
    if s != "" && s[0] == '-' then -ReadDigits(s[1..]) else ReadDigits(s)
  }

  function Pow10(k: nat): nat {
    if k == 0 then 1 else 10 * Pow10(k - 1)
  }

  lemma {:induction false} DigitsAreCanonical(n: nat)
    ensures Digits(n) != []
    ensures forall k :: 0 <= k < |Digits(n)| ==> IsDigit(Digits(n)[k])
    ensures n > 0 ==> Digits(n)[0] != '0'
    ensures ReadDigits(Digits(n)) == n
  {
    if n >= 10 {
      DigitsAreCanonical(n / 10);
      assert Digits(n)[..|Digits(n)| - 1] == Digits(n / 10);
    }
  }

  /** Reading the printed text gives the integer back, so no two integers print alike. */
  lemma DecimalReadsBack(i: int)
    ensures ReadDecimal(Decimal(i)) == i
    ensures |Decimal(i)| > 1 ==> Decimal(i)[0] != '0'
  {
    if i < 0 {
      DigitsAreCanonical(-i);
      assert Decimal(i)[1..] == Digits(-i);
    } else {
      DigitsAreCanonical(i);
    }
  }

  /** A positive 64-bit integer has at most nineteen decimal digits. */
  lemma NineteenDigits(n: nat)
    requires n <= -MIN_INT64
    ensures n < Pow10(19)
  {
    assert Pow10(4) == 10_000;
    assert Pow10(8) == 10_000 * Pow10(4);
    assert Pow10(12) == 10_000 * Pow10(8);
    assert Pow10(16) == 10_000 * Pow10(12);
    assert Pow10(19) == 1_000 * Pow10(16);
  }

  /** The digits still to be written, none once the quotient is zero. */
  function Unwritten(n: nat): string {
    if n == 0 then "" else Digits(n)
  }

  /** One pass of the loop: the last digit moves into the buffer, and there is room for it. */
  lemma DigitStep(n: nat, room: nat, written: string)
    requires 0 < n < Pow10(room)
    ensures room >= 1 && n / 10 < Pow10(room - 1)
    ensures Unwritten(n / 10) + ([DigitChar(n % 10)] + written) == Unwritten(n) + written
  {
  }

  /** What stands in the buffer when the printer returns. */
  lemma PrintedText(number: int, body: string)
    requires number != MIN_INT64 ==> body == Digits(if number < 0 then -number else number)
    requires number == MIN_INT64 ==> body == ""
    ensures (if number < 0 then "-" + body else body) == Decimal(number) <==> number != MIN_INT64
  {
    DigitsAreCanonical(if number < 0 then -number else number);
  }

  /** Writes one byte in front of the text already in the buffer. */
  method Put(buf: array<char>, pos: nat, c: char)
    requires pos < buf.Length
    modifies buf
    ensures buf[pos..] == [c] + old(buf[pos + 1..])
  {
    buf[pos] := c;
  }

  /** The digit loop: leaves the digits at the end of the buffer and room for a sign before them. */
  method WriteDigits(buf: array<char>, number: int) returns (pos: nat)
    requires buf.Length == 20 && number <= MAX_INT64
    modifies buf
    ensures 1 <= pos <= 20
    ensures buf[pos..] == if number > 0 then Digits(number) else ""
  {
    var i := number;
    pos := buf.Length;
    if number > 0 {
      NineteenDigits(number);
    }
    assert buf[pos..] == "";
    while i > 0
      invariant 1 <= pos <= 20
      invariant number > 0 ==> 0 <= i < Pow10(pos - 1)
      invariant number > 0 ==> Unwritten(i) + buf[pos..] == Digits(number)
      invariant number <= 0 ==> i == number && pos == 20
      decreases i
    {
      DigitStep(i, pos - 1, buf[pos..]);
      pos := pos - 1;
      Put(buf, pos, DigitChar(i % 10));
      i := i / 10;
    }
  }

  /**
   * The printer. Every write lands inside the buffer, and the result is the canonical text except
   * for the one integer whose negation overflows: that one prints as a bare minus sign.
   */
  method Itoa(number: int) returns (text: string)
    requires MIN_INT64 <= number <= MAX_INT64
    ensures text == Decimal(number) <==> number != MIN_INT64
    ensures number == MIN_INT64 ==> text == "-"
    ensures |text| <= 20
  {
    if number == 0 {
      return "0";
    }
    var i := number;
    var negative := i < 0;
    if negative {
      i := Negate64(i);
    }
    var buf := new char[20](_ => '0');
    var pos := WriteDigits(buf, i);
    ghost var body := buf[pos..];
    if negative {
      pos := pos - 1;
      Put(buf, pos, '-');
    }
    text := buf[pos..];
    assert text == if number < 0 then "-" + body else body;
    PrintedText(number, body);
  }
}
