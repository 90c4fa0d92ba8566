/**
The characters of hexadecimal notation: which ones are digits and what they stand for, and
that a text may be written in capitals or small letters.
*/
module HexText {
  import opened Options
  import opened HexFloat
  import opened HexDouble

  const SMALL: string := "0123456789abcdef"
  const CAPITAL: string := "0123456789ABCDEF"

  /** Digits are the sixteen characters in either case, with the value of their place, and no others. */
  lemma DigitTable(c: char, d: nat)
    requires d < 16
    ensures HexValue(c) == Some(d) <==> c == SMALL[d] || c == CAPITAL[d]
    ensures HexChar(d) == SMALL[d]
  {
  }

  lemma DigitsOnly(c: char)
    ensures HexValue(c).Some? <==> exists d :: 0 <= d < 16 && (c == SMALL[d] || c == CAPITAL[d])
  {
    if HexValue(c).Some? {
      var d := HexValue(c).value;
      assert d < 16;
      DigitTable(c, d);
    }
    if d :| 0 <= d < 16 && (c == SMALL[d] || c == CAPITAL[d]) { DigitTable(c, d); }
  }

  /** The letter in small, the rest as it is. */
  function ToSmall(c: char): char {
    if 'A' <= c <= 'Z' then (c as int - 'A' as int + 'a' as int) as char else c
  }

  ghost predicate SameLetters(s: string, t: string) {
    |s| == |t| && forall i :: 0 <= i < |s| ==> ToSmall(s[i]) == ToSmall(t[i])
  }

  lemma SameCharacter(c: char, d: char)
    requires ToSmall(c) == ToSmall(d)
    ensures HexValue(c) == HexValue(d) && (IsMark(c) <==> IsMark(d)) && (c == '.' <==> d == '.')
    ensures IsSpace(c) || c == '-' || c == '+' || IsDigit(c) || IsSpace(d) || d == '-' || d == '+' || IsDigit(d) ==> c == d
  {
  }

  lemma {:induction false} SameMantissa(s: string, t: string)
    requires SameLetters(s, t)
    ensures NumberOf(s) == NumberOf(t) && CountOf(s) == CountOf(t) && PointOf(s) == PointOf(t) && IsMantissa(s) == IsMantissa(t)
  {
    if s != [] {
      var n := |s| - 1;
      SameCharacter(s[n], t[n]);
      hide HexValue, ToSmall;
      SameMantissa(s[..n], t[..n]);
    }
  }

  lemma {:induction false} SameDecimal(s: string, t: string)
    requires SameLetters(s, t)
    ensures DecimalValue(s) == DecimalValue(t)
  {
    if s != [] {
      var n := |s| - 1;
      SameCharacter(s[n], t[n]);
      hide HexValue, ToSmall, IsDigit, IsSpace;
      SameDecimal(s[..n], t[..n]);
    }
  }

  lemma {:induction false} SameUnspaced(s: string, t: string)
    requires SameLetters(s, t)
    ensures SameLetters(Unspaced(s), Unspaced(t))
  {
    if s != [] {
      SameCharacter(s[0], t[0]);
      hide HexValue, ToSmall, IsSpace;
      SameUnspaced(s[1..], t[1..]);
    }
  }

  lemma SameExponent(s: string, t: string)
    requires SameLetters(s, t)
    ensures ExponentOf(s) == ExponentOf(t)
  {
    SameUnspaced(s, t);
    var u, v := Unspaced(s), Unspaced(t);
    if u != [] { SameCharacter(u[0], v[0]); }
    hide HexValue, ToSmall, IsSpace, Unspaced, DecimalValue, IsDigit;
    SameDecimal(u, v);
    if u != [] { SameDecimal(u[1..], v[1..]); }
  }

  lemma {:induction false} SameMark(s: string, t: string)
    requires SameLetters(s, t)
    ensures MarkAt(s) == MarkAt(t)
  {
    if s != [] {
      SameCharacter(s[0], t[0]);
      hide HexValue, ToSmall, IsMark;
      SameMark(s[1..], t[1..]);
    }
  }

  /** Texts that differ only in the case of their letters are well-formed alike and denote the same number. */
  lemma CaseDoesNotMatter(s: string, t: string)
    requires SameLetters(s, t)
    ensures WellFormed(s) <==> WellFormed(t)
    ensures NumberOf(s[..MarkAt(s)]) == NumberOf(t[..MarkAt(t)]) && ExponentPart(s) == ExponentPart(t)
    ensures ExponentPart(s).Some? ==> ScaleOf(s) == ScaleOf(t)
  {
    SameMark(s, t);
    hide MarkAt, ToSmall, NumberOf, CountOf, PointOf, IsMantissa, ExponentOf;
    var i := MarkAt(s);
    SameMantissa(s[..i], t[..i]);
    if i + 1 < |s| { SameExponent(s[i + 1..], t[i + 1..]); }
  }

  /** The space, and the control characters 9 to 13, are skipped before the digits of an exponent. */
  lemma SpaceTable(c: char, s: string)
    ensures IsSpace(c) <==> c as int in {9, 10, 11, 12, 13, 32}
    ensures IsSpace(c) ==> ExponentOf([c] + s) == ExponentOf(s)
  {
    assert ([c] + s)[1..] == s;
  }

  /** Exponents are written in base ten, with the digits '0' to '9'. */
  lemma DecimalStep(s: string, c: char)
    requires '0' <= c <= '9'
    ensures DecimalValue(s + [c]) ==
      if DecimalValue(s).Some? then Some(10 * DecimalValue(s).value + (c as int - '0' as int)) else None
  {
    assert (s + [c])[..|s|] == s;
  }

  lemma DecimalDigit(d: nat)
    requires d < 10
    ensures IsDigit(SMALL[d]) && SMALL[d] as int - '0' as int == d
  {
    DigitTable(SMALL[d], d);
  }

  /** They may have a sign, and must have a digit. */
  lemma ExponentForms(s: string, n: nat)
    requires s != [] && DecimalValue(s) == Some(n)
    ensures ExponentOf(s) == Some(n) && ExponentOf("+" + s) == Some(n) && ExponentOf("-" + s) == Some(0 - n)
  {
    FirstIsDigit(s);
    hide DecimalValue;
    assert Unspaced(s) == s;
    Signed('+', s);
    Signed('-', s);
  }

  lemma Signed(c: char, s: string)
    requires c == '+' || c == '-'
    ensures Unspaced([c] + s) == [c] + s && ([c] + s)[1..] == s
  {
  }

  lemma NoExponent()
    ensures ExponentOf("") == None && ExponentOf("-") == None && ExponentOf("+") == None
  {
  }

  lemma {:induction false} FirstIsDigit(s: string)
    requires s != [] && DecimalValue(s).Some?
    ensures IsDigit(s[0])
  {
    if |s| > 1 { FirstIsDigit(s[..|s| - 1]); }
  }

  /** The exponent is printed in base ten, always with a sign. */
  lemma PrintedExponents(n: nat)
    ensures SignedDecimal(n) == "+" + Decimal(n) && (n > 0 ==> SignedDecimal(0 - n) == "-" + Decimal(n))
    ensures n < 10 ==> Decimal(n) == [SMALL[n]]
    ensures n >= 10 ==> Decimal(n) == Decimal(n / 10) + [SMALL[n % 10]]
  {
    DecimalDigit(n % 10);
    hide SMALL, HexValue;
  }

  /** One, minus a half, and zero. */
  lemma PrintedNumbers()
    ensures Text(false, 1023, 0) == "0x1p+0" && Text(true, 1022, 0) == "-0x1p-1" && Text(false, 0, 0) == "0x0p+0"
  {
    PrintedExponents(0);
    PrintedExponents(1);
    assert MantissaText(TWO52) == "1" && MantissaText(0) == "0";
    assert SignedDecimal(0 - 1) == "-1" && SignedDecimal(0) == "+0";
  }
}
