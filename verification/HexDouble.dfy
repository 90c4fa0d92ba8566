/**
From a number read in hexadecimal to the 64 bits of a double: conversion of the kept
mantissa and scaling by `ldexp`, which rounds a second time in the subnormal range. The
bits are those of the double nearest to the number, except for numbers there that the
second rounding is misled about; printing and reading gives the same bits.
*/
module HexDouble {
  import opened Options
  import opened Arithmetic
  import opened HexFloat

  // ----- Doubles -------------------------------------------------------------

  const MIN_EXPONENT: int := -1074
  const INFINITY: nat := 0x7FF * TWO52

  /** The multiple of `2^q` nearest to `n * 2^e`. */
  function InUnits(n: nat, e: int, q: int): nat {
    if e >= q then n * Pow2(e - q) else RoundDiv(n, Pow2(q - e))
  }

  /** The unit of doubles of the size of `n * 2^e` is `2^q`: 53 bits, or fewer near zero. */
  function Quantum(n: nat, e: int): (q: int) {
    var q := BitLength(n) + e - PRECISION;
    if q < MIN_EXPONENT then MIN_EXPONENT else q
  }

  /**
  The double nearest to `n * 2^e`, sign aside: exponent field and fraction in one number, so
  that a carry out of the fraction goes to the exponent.
  */
  function Bits(n: nat, e: int): nat {
    if n == 0 then 0
    else
      var q := Quantum(n, e);
      var b := (q - MIN_EXPONENT) * TWO52 + InUnits(n, e, q);
      if b < INFINITY then b else INFINITY
  }

  // ----- The bits depend only on the value -----------------------------------

  lemma RoundDivScaled(n: nat, unit: nat, p: nat)
    requires unit > 0 && p > 0
    ensures unit * p > 0 && RoundDiv(n * p, unit * p) == RoundDiv(n, unit)
  {
    Times(1, unit, p);
    Recombine(n, unit);
    PartsOfProduct(n / unit, unit, n % unit, p, 0);
    SameDecision(n / unit, n % unit, unit, p);
  }

  lemma SameDecision(q: nat, r: nat, unit: nat, p: nat)
    requires p > 0
    ensures RoundsUp(q, r * p, unit * p) <==> RoundsUp(q, r, unit)
  {
    Assoc(2, r, p);
    if 2 * r < unit { Times(2 * r + 1, unit, p); Spread(2 * r, 1, p); }
    if 2 * r > unit { Times(unit + 1, 2 * r, p); Spread(unit, 1, p); }
  }

  lemma RoundDivExact(k: nat, unit: nat)
    requires unit > 0
    ensures RoundDiv(k * unit, unit) == k
  {
    DivMod(k, unit, 0);
  }

  lemma InUnitsScaled(n: nat, x: nat, e: int, q: int)
    ensures InUnits(n * Pow2(x), e, q) == InUnits(n, e + x, q)
  {
    hide Pow2, RoundDiv;
    if e >= q {
      Pow2Adds(x, e - q);
      Assoc(n, Pow2(x), Pow2(e - q));
    } else if e + x >= q {
      Pow2Adds(e + x - q, q - e);
      Assoc(n, Pow2(e + x - q), Pow2(q - e));
      RoundDivExact(n * Pow2(e + x - q), Pow2(q - e));
    } else {
      Pow2Adds(q - e - x, x);
      RoundDivScaled(n, Pow2(q - e - x), Pow2(x));
    }
  }

  lemma BitsScaled(n: nat, x: nat, e: int)
    ensures Bits(n * Pow2(x), e) == Bits(n, e + x)
  {
    hide Pow2, InUnits, BitLength;
    if n == 0 {
      assert n * Pow2(x) == 0;
    } else {
      LengthScaled(n, x);
      InUnitsScaled(n, x, e, Quantum(n, e + x));
    }
  }

  lemma LengthScaled(n: nat, x: nat)
    requires n > 0
    ensures n * Pow2(x) > 0 && BitLength(n * Pow2(x)) == BitLength(n) + x
  {
    LengthOfParts(n, 0, x);
    Times(1, n, Pow2(x));
  }

  lemma BitsOfValue(a: nat, e: int, b: nat, f: int)
    requires SameValue(a, e, b, f)
    ensures Bits(a, e) == Bits(b, f)
  {
    hide Bits;
    if e >= f { BitsScaled(a, e - f, f); } else { BitsScaled(b, f - e, e); }
  }

  // ----- Doubles have their own bits -----------------------------------------

  lemma Pow2Of52()
    ensures Pow2(52) == TWO52 && Pow2(53) == 2 * TWO52
  {
    Pow16IsPow2(13);
    Thirteen();
  }

  lemma LengthOf53(m: nat)
    requires TWO52 <= m < 2 * TWO52
    ensures BitLength(m) == 53
  {
    Pow2Of52();
    BitLengthTells(m, 53);
  }

  lemma LengthBelow(m: nat, b: nat)
    requires m < Pow2(b)
    ensures BitLength(m) <= b
  {
    if m > 0 {
      BitLengthBounds(m);
      Pow2Grows(if BitLength(m) > b then b else BitLength(m) - 1, BitLength(m) - 1);
    }
  }

  lemma InOwnUnits(m: nat, e: int)
    ensures InUnits(m, e, e) == m
  {
    assert Pow2(0) == 1;
  }

  lemma BitsOfDouble(expField: nat, fraction: nat)
    requires expField < 0x7FF && fraction < TWO52
    ensures Bits(Mantissa(expField, fraction), PrintedExponent(expField, fraction) - 52) == expField * TWO52 + fraction
  {
    var m, e := Mantissa(expField, fraction), PrintedExponent(expField, fraction) - 52;
    InOwnUnits(m, e);
    hide InUnits;
    if expField > 0 {
      LengthOf53(m);
    } else if fraction > 0 {
      Pow2Of52();
      LengthBelow(m, 52);
    }
  }

  /** Finite doubles of the same sign with the same value have the same bits. */
  lemma ValueTellsBits(e1: nat, f1: nat, e2: nat, f2: nat)
    requires e1 < 0x7FF && f1 < TWO52 && e2 < 0x7FF && f2 < TWO52
    requires SameValue(Mantissa(e1, f1), PrintedExponent(e1, f1) - 52, Mantissa(e2, f2), PrintedExponent(e2, f2) - 52)
    ensures e1 == e2 && f1 == f2
  {
    hide SameValue, Bits;
    BitsOfDouble(e1, f1);
    BitsOfDouble(e2, f2);
    BitsOfValue(Mantissa(e1, f1), PrintedExponent(e1, f1) - 52, Mantissa(e2, f2), PrintedExponent(e2, f2) - 52);
  }

  /** Printing a finite double without a precision and reading the text gives its sign and its bits back. */
  method RoundTrip(neg: bool, expField: nat, fraction: nat) returns (s: string, neg': bool, bits: Option<nat>)
    requires expField < 0x7FF && fraction < TWO52
    ensures s == Text(neg, expField, fraction) && neg' == neg && bits == Some(expField * TWO52 + fraction)
  {
    hide SameValue, Bits, Rounded, Text;
    var r;
    s, neg', r := PrintAndRead(neg, expField, fraction);
    bits := Ldexp(r);
    BitsOfDouble(expField, fraction);
    BitsOfValue(Rounded(r.m), r.exp, Mantissa(expField, fraction), PrintedExponent(expField, fraction) - 52);
  }

  /** The end of `caml_float_of_hex`: the mantissa as a double, and `ldexp`. */
  function Ldexp(r: Parsed): Option<nat> {
    match r
    case Bad => None
    case Zero => Some(0)
    case Infinite => Some(INFINITY)
    case Scaled(m, exp) => Some(Bits(Rounded(m), exp))
  }

  // ----- What the bits say ---------------------------------------------------

  lemma InUnitsAbove(n: nat, e: int)
    requires n > 0 && BitLength(n) + e - PRECISION > MIN_EXPONENT
    ensures InUnits(n, e, Quantum(n, e)) >= TWO52
  {
    var l := BitLength(n);
    BitLengthBounds(n);
    Pow2Of52();
    if l <= PRECISION {
      Pow2Adds(l - 1, 53 - l);
      hide Pow2, BitLength;
      Times(Pow2(l - 1), n, Pow2(53 - l));
    } else {
      RoundedByUnit(n);
      hide Pow2, BitLength, RoundDiv;
    }
  }

  lemma InUnitsBelow(n: nat, e: int)
    ensures InUnits(n, e, Quantum(n, e)) <= 2 * TWO52
  {
    var l, q := BitLength(n), Quantum(n, e);
    if n > 0 { BitLengthBounds(n); }
    Pow2Of52();
    if e >= q {
      Pow2Adds(l, e - q);
      Pow2Grows(l + e - q, 53);
      hide Pow2, BitLength;
      Times(n, Pow2(l), Pow2(e - q));
    } else {
      Pow2Adds(53, q - e);
      Pow2Grows(l, 53 + q - e);
      assert Pow2(0) == 1;
      hide Pow2, BitLength;
      QuotientBetween(n, 0, 2 * TWO52, Pow2(q - e));
    }
  }

  /** The bits of a finite result denote the nearest multiple of the unit. */
  lemma BitsDenote(n: nat, e: int)
    requires n > 0 && Bits(n, e) < INFINITY
    ensures var b, q := Bits(n, e), Quantum(n, e);
      SameValue(InUnits(n, e, q), q, Mantissa(b / TWO52, b % TWO52), PrintedExponent(b / TWO52, b % TWO52) - 52)
  {
    InUnitsBelow(n, e);
    if BitLength(n) + e - PRECISION > MIN_EXPONENT { InUnitsAbove(n, e); }
    var q := Quantum(n, e);
    assert Pow2(0) == 1 && Pow2(1) == 2;
    FieldsOf(InUnits(n, e, q), q);
    hide Pow2, BitLength, InUnits, Quantum;
  }

  lemma FieldsOf(k: nat, q: int)
    requires k <= 2 * TWO52 && q >= MIN_EXPONENT && (q > MIN_EXPONENT ==> k >= TWO52)
    ensures var b := (q - MIN_EXPONENT) * TWO52 + k;
      SameValue(k, q, Mantissa(b / TWO52, b % TWO52), PrintedExponent(b / TWO52, b % TWO52) - 52)
  {
    assert Pow2(0) == 1 && Pow2(1) == 2;
    if k < TWO52 {
      assert q == MIN_EXPONENT;
    } else if k < 2 * TWO52 {
      DivMod(q - MIN_EXPONENT + 1, TWO52, k - TWO52);
    } else {
      DivMod(q - MIN_EXPONENT + 2, TWO52, 0);
    }
  }

  // ----- Rounding once or twice ----------------------------------------------

  lemma RoundedByUnit(n: nat)
    requires BitLength(n) > PRECISION
    ensures var unit := Pow2(BitLength(n) - PRECISION);
      Rounded(n) == RoundDiv(n, unit) * unit && TWO52 <= RoundDiv(n, unit) <= 2 * TWO52
  {
    var s := BitLength(n) - PRECISION;
    LengthParts(n, s);
    hide Pow2, BitLength;
    QuotientBetween(n, TWO52, 2 * TWO52, Pow2(s));
  }

  lemma LengthParts(n: nat, s: nat)
    requires BitLength(n) == PRECISION + s
    ensures TWO52 * Pow2(s) <= n < 2 * TWO52 * Pow2(s)
  {
    assert n > 0;
    BitLengthBounds(n);
    Pow2Of52();
    Pow2Adds(52, s);
    Pow2Adds(53, s);
    hide Pow2, BitLength;
  }

  lemma QuotientBetween(n: nat, a: nat, b: nat, unit: nat)
    requires unit > 0 && a * unit <= n < b * unit
    ensures a <= n / unit < b
  {
    Recombine(n, unit);
    var q := n / unit;
    if q < a { Times(q + 1, a, unit); Spread(q, 1, unit); }
    if q >= b { Times(b, q, unit); }
  }

  lemma BitsOfMantissa(k: nat, q: int)
    requires TWO52 <= k <= 2 * TWO52 && q >= MIN_EXPONENT
    ensures var b := (q - MIN_EXPONENT) * TWO52 + k; Bits(k, q) == if b < INFINITY then b else INFINITY
  {
    if k < 2 * TWO52 {
      LengthOf53(k);
      InOwnUnits(k, q);
      hide InUnits, BitLength;
    } else {
      assert Pow2(1) == 2;
      BitsScaled(TWO52, 1, q);
      LengthOf53(TWO52);
      InOwnUnits(TWO52, q + 1);
      hide InUnits, BitLength, Pow2;
    }
  }

  /** The number is at least the smallest normal double. */
  predicate Normal(n: nat, e: int) {
    BitLength(n) + e >= -1021
  }

  /** Above the subnormal range the second rounding changes nothing, and overflow is decided alike. */
  lemma NormalOnce(n: nat, e: int)
    requires Normal(n, e)
    ensures Bits(Rounded(n), e) == Bits(n, e)
  {
    if BitLength(n) > PRECISION {
      var s := BitLength(n) - PRECISION;
      var k := RoundDiv(n, Pow2(s));
      RoundedByUnit(n);
      BitsScaled(k, s, e);
      BitsOfMantissa(k, e + s);
      assert n > 0;
      hide Pow2, BitLength, RoundDiv, Rounded;
    }
  }

  /** `r`, to which `n` was rounded, is a tie that `n` is not, and goes the wrong way. */
  predicate Astray(n: nat, r: nat, unit: nat)
    requires unit > 0
  {
    2 * (r % unit) == unit && (if n < r then r / unit % 2 == 1 else n > r && r / unit % 2 == 0)
  }

  /** At most half of `u` apart. */
  predicate Near(n: nat, m: nat, u: nat) {
    2 * n <= 2 * m + u && 2 * m <= 2 * n + u
  }

  /** Rounding to a multiple of `u` and then to one of `2 * g * u`. */
  lemma TwiceRounded(n: nat, k: nat, u: nat, g: nat)
    requires u > 0 && g > 0 && k > 0 && Near(n, k * u, u)
    ensures 2 * g * u > 0
    ensures RoundDiv(n, 2 * g * u) == RoundDiv(k * u, 2 * g * u) <==> !Astray(n, k * u, 2 * g * u)
  {
    var q, j, half := k / (2 * g), k % (2 * g), g * u;
    assert 2 * g * u == 2 * half by { Assoc(2, g, u); }
    Times(1, g, u);
    Recombine(k, 2 * g);
    PartsOfProduct(q, 2 * g, j, u, 0);
    Recombine(k * u, 2 * g * u);
    MultiplesApart(j, g, u);
    BesideTie(n, k * u, q, j * u, half, u);
  }

  lemma MultiplesApart(j: nat, g: nat, u: nat)
    requires j < 2 * g
    ensures j < g ==> j * u + u <= g * u
    ensures j > g ==> g * u + u <= j * u
    ensures j * u + u <= 2 * (g * u) && (j > 0 ==> j * u >= u)
  {
    Spread(j, 1, u);
    Spread(g, 1, u);
    Assoc(2, g, u);
    Times(j + 1, 2 * g, u);
    if j < g { Times(j + 1, g, u); }
    if j > g { Times(g + 1, j, u); }
    if j > 0 { Times(1, j, u); }
  }

  /** `n` is near `m == q * 2 * half + r`, where `r` is a multiple of `u`, and so is `half`. */
  lemma BesideTie(n: nat, m: nat, q: nat, r: nat, half: nat, u: nat)
    requires half >= u > 0 && m > 0 && m == q * (2 * half) + r && r < 2 * half && Near(n, m, u)
    requires (r < half ==> r + u <= half) && (r > half ==> half + u <= r) && r + u <= 2 * half && (r == 0 || r >= u)
    requires m / (2 * half) == q && m % (2 * half) == r
    ensures RoundDiv(n, 2 * half) == RoundDiv(m, 2 * half) <==> !Astray(n, m, 2 * half)
  {
    var unit, r' := 2 * half, r + (n - m);
    if r' >= 0 {
      DivMod(q, unit, r');
    } else {
      assert q > 0;
      Spread(q - 1, 1, unit);
      DivMod(q - 1, unit, unit + r');
    }
  }

  lemma RoundedNear(n: nat)
    requires BitLength(n) > PRECISION
    ensures Near(n, Rounded(n), Pow2(BitLength(n) - PRECISION))
  {
    hide Pow2, BitLength;
    var unit := Pow2(BitLength(n) - PRECISION);
    Recombine(n, unit);
    Spread(n / unit, 1, unit);
  }

  lemma SubnormalBits(n: nat, e: int)
    requires 0 < n && e < MIN_EXPONENT && BitLength(n) + e <= -1021 && n <= TWO52 * Pow2(MIN_EXPONENT - e)
    ensures Bits(n, e) == RoundDiv(n, Pow2(MIN_EXPONENT - e))
  {
    var unit := Pow2(MIN_EXPONENT - e);
    hide Pow2, BitLength;
    Times(TWO52 + 1, if n / unit > TWO52 then n / unit else TWO52 + 1, unit);
    Recombine(n, unit);
  }

  /** The first rounding made a tie of what was none, and the tie goes the wrong way. */
  predicate Misled(n: nat, e: int) {
    !Normal(n, e) && e < MIN_EXPONENT && Astray(n, Rounded(n), Pow2(MIN_EXPONENT - e))
  }

  lemma RoundedLength(n: nat)
    ensures n > 0 ==> Rounded(n) > 0
    ensures BitLength(Rounded(n)) <= BitLength(n) + 1
  {
    if BitLength(n) > PRECISION {
      var s := BitLength(n) - PRECISION;
      RoundedByUnit(n);
      TwiceTheLength(n, s);
      hide Rounded, RoundDiv, Pow2, BitLength;
      var k := RoundDiv(n, Pow2(s));
      Times(k, 2 * TWO52, Pow2(s));
      Times(1, k, Pow2(s));
      LengthBelow(Rounded(n), BitLength(n) + 1);
    }
  }

  lemma TwiceTheLength(n: nat, s: nat)
    requires BitLength(n) == PRECISION + s
    ensures 2 * TWO52 * Pow2(s) < Pow2(BitLength(n) + 1)
  {
    Pow2Of52();
    Pow2Adds(53, s);
    assert Pow2(BitLength(n) + 1) == 2 * Pow2(BitLength(n));
  }

  lemma Units(n: nat, e: int) returns (g: nat)
    requires BitLength(n) > PRECISION && !Normal(n, e)
    ensures e < MIN_EXPONENT && g > 0
    ensures var unit, k := Pow2(MIN_EXPONENT - e), RoundDiv(n, Pow2(BitLength(n) - PRECISION));
      && unit == 2 * g * Pow2(BitLength(n) - PRECISION) && 0 < n <= TWO52 * unit
      && 0 < k && Rounded(n) == k * Pow2(BitLength(n) - PRECISION) && 0 < Rounded(n) <= TWO52 * unit
  {
    var s := BitLength(n) - PRECISION;
    var j := MIN_EXPONENT - e - s - 1;
    g := Pow2(j);
    var u, unit, k := Pow2(s), Pow2(MIN_EXPONENT - e), RoundDiv(n, Pow2(s));
    BitLengthBounds(n);
    RoundedByUnit(n);
    Pow2Of52();
    Pow2Adds(j + 1, s);
    assert Pow2(j + 1) == 2 * g;
    Pow2Adds(53, s);
    hide Pow2, BitLength, Rounded, RoundDiv;
    assert 2 * g * u == 2 * (g * u) by { Assoc(2, g, u); }
    Times(1, g, u);
    assert n < 2 * TWO52 * u;
    Assoc(TWO52, 2, u);
    Times(2 * u, unit, TWO52);
    Times(k, 2 * TWO52, u);
    Times(1, k, u);
  }

  /** In the subnormal range, rounding twice is rounding once exactly when the second is not misled. */
  lemma Twice(n: nat, e: int)
    requires !Normal(n, e)
    ensures Bits(Rounded(n), e) == Bits(n, e) <==> !Misled(n, e)
  {
    if BitLength(n) > PRECISION {
      var g := Units(n, e);
      RoundedNear(n);
      RoundedLength(n);
      SubnormalBits(n, e);
      SubnormalBits(Rounded(n), e);
      hide Pow2, BitLength, Rounded, RoundDiv, Bits, Astray;
      TwiceRounded(n, RoundDiv(n, Pow2(BitLength(n) - PRECISION)), Pow2(BitLength(n) - PRECISION), g);
    }
  }

  /** It can be misled: of this text the double nearest has fraction 2^51 + 1. */
  lemma SecondRoundingHurts()
    ensures NumberOf("4000000000000B") == 0x40_0000_0000_000B
    ensures Bits(0x40_0000_0000_000B, -1077) == TWO52 / 2 + 1
    ensures Bits(Rounded(0x40_0000_0000_000B), -1077) == TWO52 / 2 + 2
    ensures Misled(0x40_0000_0000_000B, -1077)
  {
    var n := 0x40_0000_0000_000B;
    DigitsOfText();
    LengthOf55(n);
    LengthOf55(n + 1);
    assert Pow2(3) == 8 && Pow2(2) == 4 by { assert Pow2(1) == 2; }
    hide Pow2, BitLength, NumberOf;
    assert Rounded(n) == n + 1;
    hide Rounded;
    SubnormalBits(n, -1077);
    SubnormalBits(n + 1, -1077);
  }

  lemma LengthOf55(n: nat)
    requires 4 * TWO52 <= n < 8 * TWO52
    ensures BitLength(n) == 55
  {
    Pow2Of52();
    assert Pow2(55) == 2 * Pow2(54) && Pow2(54) == 2 * Pow2(53);
    BitLengthTells(n, 55);
  }

  lemma DigitsOfText()
    ensures NumberOf("4000000000000B") == 0x40_0000_0000_000B
  {
    assert "4000000000000B"[..13] == ['4'] + seq(12, i => '0');
    ZerosOfText(12);
    assert 16 * Pow16(12) == TWO52 by { Thirteen(); assert Pow16(13) == 16 * Pow16(12); }
    hide Pow16;
  }

  lemma {:induction false} ZerosOfText(k: nat)
    ensures NumberOf(['4'] + seq(k, i => '0')) == 4 * Pow16(k)
  {
    var s := ['4'] + seq(k, i => '0');
    if k == 0 {
      assert s == ['4'] && s[..0] == [];
    } else {
      ZerosOfText(k - 1);
      assert s[..k] == ['4'] + seq(k - 1, i => '0') && s[k] == '0';
    }
  }

  // ----- Reading to the end --------------------------------------------------

  lemma BigIsInfinite(a: nat, f: int)
    requires a > 0 && f >= 1024
    ensures Bits(a, f) == INFINITY
  {
    InUnitsAbove(a, f);
    BitLengthBounds(a);
    hide BitLength, InUnits;
  }

  lemma TinyIsZero(a: nat, f: int)
    requires BitLength(a) + f <= -1075
    ensures Bits(a, f) == 0
  {
    hide Pow2, BitLength, RoundDiv;
    if a > 0 { TinyQuotient(a, MIN_EXPONENT - f); }
  }

  lemma TinyQuotient(a: nat, s: nat)
    requires a > 0 && BitLength(a) < s
    ensures RoundDiv(a, Pow2(s)) == 0
  {
    var l, unit := BitLength(a), Pow2(s);
    BitLengthBounds(a);
    Pow2Grows(l + 1, s);
    assert Pow2(l + 1) == 2 * Pow2(l);
    hide Pow2, BitLength;
    DivMod(0, unit, a);
  }

  lemma {:induction false} NumberSmall(t: string)
    ensures NumberOf(t) < Pow16(CountOf(t)) && CountOf(t) <= |t| && Places(t) >= 0 && Places(t) <= CountOf(t)
  {
    if t != [] { NumberSmall(t[..|t| - 1]); }
  }

  lemma NumberLength(t: string)
    ensures BitLength(NumberOf(t)) <= 4 * |t|
  {
    NumberSmall(t);
    Pow16IsPow2(CountOf(t));
    LengthBelow(NumberOf(t), 4 * CountOf(t));
  }

  /** The bit counters of the reader do not overflow. */
  predicate NotGigantic(s: string) {
    4 * |s| <= INT_MAX - 2000
  }

  /** The number a text denotes is `NumberOf` its mantissa, times two to this. */
  function ScaleOf(s: string): int
    requires ExponentPart(s).Some?
  {
    ExponentPart(s).value - 4 * Places(s[..MarkAt(s)])
  }

  lemma ScaledRight(m: nat, n: nat, x: nat, exp: int, scale: int)
    requires m < Pow16(15) && Rounded(m) * Pow2(x) == Rounded(n)
    requires exp == scale + x || INT_MAX == exp <= scale + x || scale + x <= exp == INT_MIN
    ensures Bits(Rounded(m), exp) == Bits(Rounded(n), scale)
  {
    hide Bits, Rounded, Pow2, Pow16, BitLength;
    BitsScaled(Rounded(m), x, scale);
    if exp > scale + x {
      Pow16IsPow2(15);
      LengthBelow(m, 60);
      RoundedLength(m);
      TinyIsZero(Rounded(m), exp);
      TinyIsZero(Rounded(m), scale + x);
    } else if exp < scale + x {
      RoundedLength(m);
      if m > 0 {
        BigIsInfinite(Rounded(m), exp);
        BigIsInfinite(Rounded(m), scale + x);
      } else {
        NothingIsZero(exp);
        NothingIsZero(scale + x);
      }
    }
  }

  /** What was read is the number rounded to 53 bits and then to a double. */
  lemma ReadScaled(s: string, r: Parsed, x: nat)
    requires ReadRight(s, r, x) && !r.Bad? && NotGigantic(s)
    ensures ExponentPart(s).Some? && Ldexp(r) == Some(Bits(Rounded(NumberOf(s[..MarkAt(s)])), ScaleOf(s)))
  {
    hide Bits, Rounded, BitLength, IsMantissa, NumberOf, CountOf, HexFloat.Places, Pow2, Pow16;
    var t := s[..MarkAt(s)];
    var n, e := NumberOf(t), ExponentPart(s).value;
    NumberSmall(t);
    NumberLength(t);
    RoundedLength(n);
    if r.Scaled? {
      ScaledRight(r.m, n, x, r.exp, ScaleOf(s));
    } else if e <= INT_MIN {
      TinyIsZero(Rounded(n), ScaleOf(s));
    } else if n > 0 {
      BigIsInfinite(Rounded(n), ScaleOf(s));
    } else {
      NothingIsZero(ScaleOf(s));
    }
  }

  lemma NothingIsZero(e: int)
    ensures Bits(Rounded(0), e) == 0
  {
  }

  /** Digits with at most one point and a well-formed exponent; digits are missed only when the exponent is not extreme. */
  predicate WellFormed(s: string) {
    var t, e := s[..MarkAt(s)], ExponentPart(s);
    IsMantissa(t) && e.Some? && (CountOf(t) > 0 || e.value <= INT_MIN || e.value >= INT_MAX)
  }

  /**
  `caml_float_of_hex` to the end. For texts whose bit counters do not overflow, the result
  is the double nearest to the number exactly when the second rounding is not misled; from
  the smallest normal double upwards, overflow included, it always is.
  */
  method ReadHex(s: string) returns (bits: Option<nat>)
    ensures bits.Some? <==> WellFormed(s)
    ensures bits.Some? && NotGigantic(s) ==>
      var n, e := NumberOf(s[..MarkAt(s)]), ScaleOf(s);
      && bits.value == Bits(Rounded(n), e)
      && (bits.value == Bits(n, e) <==> !Misled(n, e)) && (Normal(n, e) ==> bits.value == Bits(n, e))
  {
    hide Bits, Misled, Normal, Rounded, ReadRight, NumberOf, ScaleOf, IsMantissa, CountOf;
    var r, x := FloatOfHex(s);
    bits := Ldexp(r);
    WellRead(s, r, x);
    if bits.Some? && NotGigantic(s) {
      ReadScaled(s, r, x);
      OnceOrTwice(NumberOf(s[..MarkAt(s)]), ScaleOf(s));
    }
  }

  lemma WellRead(s: string, r: Parsed, x: nat)
    requires ReadRight(s, r, x)
    ensures !r.Bad? <==> WellFormed(s)
  {
    hide Rounded, Pow2, Pow16, IsMantissa, CountOf, NumberOf, HexFloat.Places;
  }

  lemma OnceOrTwice(n: nat, e: int)
    ensures Bits(Rounded(n), e) == Bits(n, e) <==> !Misled(n, e)
    ensures Normal(n, e) ==> Bits(Rounded(n), e) == Bits(n, e)
  {
    if Normal(n, e) { NormalOnce(n, e); } else { Twice(n, e); }
  }
}
