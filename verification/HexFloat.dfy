/**
Doubles in hexadecimal notation. Printing without a precision is exact and reading gives
the same double back; reading keeps sixty bits of the mantissa and remembers in the lowest
whether anything was cut off, which does not change the rounding to fifty-three bits.
*/
module HexFloat {
  import opened Options
  import opened Arithmetic

  // ----- Powers and bit lengths ----------------------------------------------

  function Pow2(n: nat): (p: nat)
    ensures p > 0
  {
    if n == 0 then 1 else 2 * Pow2(n - 1)
  }

  lemma {:induction false} Pow2Adds(a: nat, b: nat)
    ensures Pow2(a + b) == Pow2(a) * Pow2(b)
  {
    if a > 0 { Pow2Adds(a - 1, b); assert Pow2(a + b) == 2 * Pow2(a - 1 + b); }
  }

  lemma {:induction false} Pow2Grows(a: nat, b: nat)
    requires a <= b
    ensures Pow2(a) <= Pow2(b)
    decreases b
  {
    if a < b { Pow2Grows(a, b - 1); }
  }

  /** The number of bits of `n`. */
  function BitLength(n: nat): nat {
    if n == 0 then 0 else 1 + BitLength(n / 2)
  }

  /** The one `b` with `2^(b-1) <= n < 2^b`. */
  lemma {:induction false} BitLengthTells(n: nat, b: nat)
    requires b > 0 && Pow2(b - 1) <= n < Pow2(b)
    ensures BitLength(n) == b
    decreases b
  {
    if b > 1 {
      assert Pow2(b) == 2 * Pow2(b - 1) && Pow2(b - 1) == 2 * Pow2(b - 2);
      BitLengthTells(n / 2, b - 1);
    }
  }

  lemma {:induction false} BitLengthBounds(n: nat)
    requires n > 0
    ensures BitLength(n) > 0 && Pow2(BitLength(n) - 1) <= n < Pow2(BitLength(n))
  {
    if n > 1 { BitLengthBounds(n / 2); }
  }

  // ----- Rounding to nearest, ties to even -----------------------------------

  const PRECISION: nat := 53

  /** Is the remainder `r` of a division by `unit` rounded up, when the quotient is `q`? */
  predicate RoundsUp(q: nat, r: nat, unit: nat) {
    2 * r > unit || (2 * r == unit && q % 2 == 1)
  }

  /** How many units are nearest to `n`, ties to even. */
  function RoundDiv(n: nat, unit: nat): nat
    requires unit > 0
  {
    n / unit + if RoundsUp(n / unit, n % unit, unit) then 1 else 0
  }

  /** The number with at most 53 significant bits that is nearest to `n`. */
  function Rounded(n: nat): nat {
    if BitLength(n) <= PRECISION then n
    else
      var unit := Pow2(BitLength(n) - PRECISION);
      RoundDiv(n, unit) * unit
  }

  /** `m | 1` if something was cut off. */
  function Sticky(m: nat, cut: bool): nat {
    if cut && m % 2 == 0 then m + 1 else m
  }

  /** A number with its low bits cut off and a sticky bit: quotient and rounding stay the same. */
  lemma {:induction false} StickyQuotient(m: nat, cut: bool, s: nat)
    requires s >= 2
    ensures var unit := Pow2(s);
      && Sticky(m, cut) / unit == m / unit
      && Sticky(m, cut) % unit == Sticky(m % unit, cut)
  {
    var unit := Pow2(s);
    assert unit % 4 == 0 by { assert Pow2(s) == 2 * Pow2(s - 1) && Pow2(s - 1) == 2 * Pow2(s - 2); }
    hide Pow2, Sticky;
    Recombine(m, unit);
    StickyParts(m / unit, m % unit, unit, cut);
  }

  lemma StickyParts(q: nat, r: nat, unit: nat, cut: bool)
    requires r < unit && unit % 4 == 0
    ensures var m := q * unit + r; Sticky(m, cut) / unit == q && Sticky(m, cut) % unit == Sticky(r, cut)
  {
    EvenParts(q, unit, r);
    StickyFits(r, cut, unit);
    DivMod(q, unit, Sticky(r, cut));
  }

  lemma StickyFits(r: nat, cut: bool, unit: nat)
    requires r < unit && unit % 4 == 0
    ensures Sticky(r, cut) < unit
  {
  }

  lemma EvenParts(q: nat, unit: nat, r: nat)
    requires unit % 4 == 0
    ensures (q * unit + r) % 2 == r % 2
  {
    EvenProduct(q, unit / 2);
    EvenSum(q * (unit / 2), r);
  }

  lemma EvenProduct(q: nat, h: nat)
    ensures q * (2 * h) == 2 * (q * h)
  {
  }

  lemma EvenSum(z: nat, r: nat)
    ensures (2 * z + r) % 2 == r % 2
  {
  }

  /** The rounding decision looks at whether the remainder is below, at or above one half. */
  lemma StickyDecides(q: nat, r: nat, rest: nat, s: nat, x: nat)
    requires s >= 2 && r < Pow2(s) && rest < Pow2(x)
    ensures RoundsUp(q, r * Pow2(x) + rest, Pow2(s + x)) <==> RoundsUp(q, Sticky(r, rest > 0), Pow2(s))
  {
    var half, p := Pow2(s - 1), Pow2(x);
    assert Pow2(s) == 2 * half && half % 2 == 0 by { assert half == 2 * Pow2(s - 2); }
    Pow2Adds(s, x);
    hide Pow2;
    assert 2 * half * p == 2 * (half * p) by { Assoc(2, half, p); }
    CompareHalf(r, half, p, rest);
  }

  lemma CompareHalf(r: nat, half: nat, p: nat, rest: nat)
    requires rest < p
    ensures r < half ==> r * p + rest < half * p
    ensures r > half ==> r * p + rest > half * p
  {
    if r < half { Times(r + 1, half, p); Spread(r, 1, p); }
    if r > half { Times(half + 1, r, p); Spread(half, 1, p); }
  }

  /** Keeping at least 55 leading bits and a sticky bit does not change the rounding. */
  lemma {:induction false} StickyRounds(top: nat, rest: nat, x: nat)
    requires top > 0 && BitLength(top) >= PRECISION + 2 && rest < Pow2(x)
    ensures Rounded(Sticky(top, rest > 0)) * Pow2(x) == Rounded(top * Pow2(x) + rest)
  {
    hide Pow2, BitLength, RoundsUp, Sticky, Rounded;
    var s := BitLength(top) - PRECISION;
    var q, r := top / Pow2(s), top % Pow2(s);
    RoundedWhole(top, rest, x, s, q, r);
    RoundedKept(top, rest > 0, s, q, r);
    StickyDecides(q, r, rest, s, x);
    Pow2Adds(s, x);
    Assoc(q + if RoundsUp(q, r * Pow2(x) + rest, Pow2(s + x)) then 1 else 0, Pow2(s), Pow2(x));
  }

  lemma RoundedWhole(top: nat, rest: nat, x: nat, s: nat, q: nat, r: nat)
    requires top > 0 && s > 0 && BitLength(top) == PRECISION + s && rest < Pow2(x)
    requires q == top / Pow2(s) && r == top % Pow2(s)
    ensures Rounded(top * Pow2(x) + rest) == (q + if RoundsUp(q, r * Pow2(x) + rest, Pow2(s + x)) then 1 else 0) * Pow2(s + x)
  {
    hide Pow2, BitLength, RoundsUp, Rounded;
    LengthOfParts(top, rest, x);
    Recombine(top, Pow2(s));
    Pow2Adds(s, x);
    PartsOfProduct(q, Pow2(s), r, Pow2(x), rest);
    RoundedBy(top * Pow2(x) + rest, s + x, q, r * Pow2(x) + rest);
  }

  lemma {:induction false} RoundedKept(top: nat, cut: bool, s: nat, q: nat, r: nat)
    requires s >= 2 && BitLength(top) == PRECISION + s && q == top / Pow2(s) && r == top % Pow2(s)
    ensures Rounded(Sticky(top, cut)) == (q + if RoundsUp(q, Sticky(r, cut), Pow2(s)) then 1 else 0) * Pow2(s)
  {
    hide Pow2, BitLength, RoundsUp, Sticky, Rounded;
    StickyLength(top, cut);
    StickyQuotient(top, cut, s);
    RoundedBy(Sticky(top, cut), s, q, Sticky(r, cut));
  }

  lemma RoundedBy(n: nat, s: nat, q: nat, r: nat)
    requires s > 0 && BitLength(n) == PRECISION + s && n / Pow2(s) == q && n % Pow2(s) == r
    ensures Rounded(n) == (q + if RoundsUp(q, r, Pow2(s)) then 1 else 0) * Pow2(s)
  {
  }

  lemma PartsOfProduct(q: nat, unit: nat, r: nat, p: nat, rest: nat)
    requires r < unit && rest < p
    ensures var n := (q * unit + r) * p + rest; n / (unit * p) == q && n % (unit * p) == r * p + rest
  {
    assert (q * unit + r) * p == q * (unit * p) + r * p by { Assoc(q, unit, p); Spread(q * unit, r, p); }
    Times(r + 1, unit, p);
    assert (r + 1) * p == r * p + p by { Spread(r, 1, p); }
    DivMod(q, unit * p, r * p + rest);
  }

  lemma LengthOfParts(top: nat, rest: nat, x: nat)
    requires top > 0 && rest < Pow2(x)
    ensures BitLength(top * Pow2(x) + rest) == BitLength(top) + x
  {
    var b, p := BitLength(top), Pow2(x);
    BitLengthBounds(top);
    Pow2Adds(b - 1, x);
    Pow2Adds(b, x);
    Times(Pow2(b - 1), top, p);
    Times(top + 1, Pow2(b), p);
    Spread(top, 1, p);
    BitLengthTells(top * p + rest, b + x);
  }

  lemma StickyLength(m: nat, cut: bool)
    requires BitLength(m) >= 2
    ensures BitLength(Sticky(m, cut)) == BitLength(m)
  {
    var b := BitLength(m);
    assert m > 0;
    BitLengthBounds(m);
    assert Pow2(b) == 2 * Pow2(b - 1);
    hide Pow2, BitLength;
    StickyBelow(m, cut, Pow2(b - 1));
    BitLengthTells(Sticky(m, cut), b);
  }

  lemma StickyBelow(m: nat, cut: bool, half: nat)
    requires half <= m < 2 * half
    ensures half <= Sticky(m, cut) < 2 * half
  {
  }

  function Distance(a: int, b: int): nat {
    if a < b then b - a else a - b
  }

  /** No multiple of the unit is nearer, and a tie goes to the even one. */
  lemma NearestMultiple(n: nat, unit: nat, k: nat)
    requires unit > 0
    ensures var near := RoundDiv(n, unit);
      && Distance(n, near * unit) <= Distance(n, k * unit)
      && (Distance(n, near * unit) == Distance(n, k * unit) && k != near ==> near % 2 == 0)
  {
    var q, r := n / unit, n % unit;
    Recombine(n, unit);
    Spread(q, 1, unit);
    if k < q { Times(k + 1, q, unit); Spread(k, 1, unit); }
    if k > q + 1 { Times(q + 2, k, unit); Spread(q, 2, unit); }
  }

  /** Rounding to 53 bits is nearest, ties to even. */
  lemma RoundedIsNearest(n: nat, k: nat)
    requires BitLength(n) > PRECISION
    ensures var unit := Pow2(BitLength(n) - PRECISION);
      && Distance(n, Rounded(n)) <= Distance(n, k * unit)
      && (Distance(n, Rounded(n)) == Distance(n, k * unit) && k * unit != Rounded(n) ==> Rounded(n) / unit % 2 == 0)
  {
    hide Pow2, BitLength, RoundDiv;
    var unit := Pow2(BitLength(n) - PRECISION);
    NearestMultiple(n, unit, k);
    DivMod(RoundDiv(n, unit), unit, 0);
  }

  // ----- Reading -------------------------------------------------------------

  function HexValue(c: char): Option<nat> {
    if '0' <= c <= '9' then Some(c as int - '0' as int)
    else if 'A' <= c <= 'F' then Some(c as int - 'A' as int + 10)
    else if 'a' <= c <= 'f' then Some(c as int - 'a' as int + 10)
    else None
  }

  function Pow16(n: nat): (p: nat)
    ensures p > 0
  {
    if n == 0 then 1 else 16 * Pow16(n - 1)
  }

  lemma {:induction false} Pow16IsPow2(n: nat)
    ensures Pow16(n) == Pow2(4 * n)
  {
    if n > 0 {
      Pow16IsPow2(n - 1);
      assert Pow2(4 * n) == 2 * Pow2(4 * n - 1) && Pow2(4 * n - 1) == 2 * Pow2(4 * n - 2)
          && Pow2(4 * n - 2) == 2 * Pow2(4 * n - 3) && Pow2(4 * n - 3) == 2 * Pow2(4 * n - 4);
    }
  }

  /** The mantissa a text denotes: its digits as one number, the point left aside. */
  function NumberOf(t: string): nat {
    if t == [] then 0
    else
      var n := NumberOf(t[..|t| - 1]);
      var d := HexValue(t[|t| - 1]);
      if d.Some? then 16 * n + d.value else n
  }

  function CountOf(t: string): nat {
    if t == [] then 0 else CountOf(t[..|t| - 1]) + if HexValue(t[|t| - 1]).Some? then 1 else 0
  }

  /** The number of digits before the point, if there is a point. */
  function PointOf(t: string): Option<nat> {
    if t == [] then None
    else if t[|t| - 1] == '.' then Some(CountOf(t[..|t| - 1]))
    else PointOf(t[..|t| - 1])
  }

  /** Digits and at most one point. */
  predicate IsMantissa(t: string) {
    t == [] || (IsMantissa(t[..|t| - 1])
                && (HexValue(t[|t| - 1]).Some? || (t[|t| - 1] == '.' && PointOf(t[..|t| - 1]).None?)))
  }

  /** Digits after the point. */
  function Places(t: string): int {
    if PointOf(t).Some? then CountOf(t) - PointOf(t).value else 0
  }

  /** The reader's variables. */
  datatype Scan = Scan(m: nat, nBits: nat, mBits: nat, xBits: nat, point: Option<nat>)

  const MANTISSA_BITS: nat := 60

  function ScanDigit(st: Scan, d: nat): Scan {
    var st' := st.(nBits := st.nBits + 4);
    if d == 0 && st.m == 0 then st'
    else if st.mBits < MANTISSA_BITS then st'.(m := 16 * st.m + d, mBits := st.mBits + 4)
    else st'.(m := Sticky(st.m, d != 0), xBits := st.xBits + 4)
  }

  /** All of the number `n` is in `m`, which has `k` digits. */
  ghost predicate KeptAll(n: nat, m: nat, k: nat) {
    m == n && n < Pow16(k) && (if k == 0 then n == 0 else n >= Pow16(k - 1))
  }

  /** The first fifteen digits of `n` and a sticky bit are in `m`; the other `x` bits are gone. */
  ghost predicate KeptTop(n: nat, m: nat, x: nat) {
    Pow16(14) <= n / Pow2(x) < Pow16(15) && m == Sticky(n / Pow2(x), n % Pow2(x) > 0)
  }

  /** What has been kept of the number `n` read so far. */
  ghost predicate Kept(n: nat, st: Scan) {
    if st.mBits < MANTISSA_BITS then st.xBits == 0 && st.mBits % 4 == 0 && KeptAll(n, st.m, st.mBits / 4)
    else st.mBits == MANTISSA_BITS && KeptTop(n, st.m, st.xBits)
  }

  lemma Pow16Steps(k: nat)
    ensures Pow16(k + 1) == 16 * Pow16(k) && (k > 0 ==> Pow16(k) == 16 * Pow16(k - 1)) && Pow16(0) == 1
  {
  }

  lemma AllOn(n: nat, k: nat, d: nat)
    requires KeptAll(n, n, k) && d < 16
    ensures n == 0 && d == 0 ==> KeptAll(0, 0, k)
    ensures n > 0 || d > 0 ==> KeptAll(16 * n + d, 16 * n + d, k + 1)
    ensures n == 0 ==> k == 0
  {
    Pow16Steps(k);
    if k > 1 { Pow16Steps(k - 1); }
    hide Pow16;
  }

  lemma AllIsTop(n: nat)
    requires KeptAll(n, n, 15)
    ensures KeptTop(n, n, 0)
  {
    assert Pow2(0) == 1;
    hide Pow16;
    assert n / 1 == n && n % 1 == 0;
  }

  lemma Pow2Four(x: nat)
    ensures Pow2(x + 4) == 16 * Pow2(x)
  {
    assert Pow2(x + 4) == 2 * Pow2(x + 3) && Pow2(x + 3) == 2 * Pow2(x + 2) && Pow2(x + 2) == 2 * Pow2(x + 1);
  }

  lemma TopOn(n: nat, m: nat, x: nat, d: nat)
    requires KeptTop(n, m, x) && d < 16
    ensures m > 0 && KeptTop(16 * n + d, Sticky(m, d != 0), x + 4)
  {
    hide Pow2, Pow16, Sticky;
    Pow2Four(x);
    var p := Pow2(x);
    TopParts(n, p, d);
    StickyTwice(n / p, n % p > 0, d != 0);
    StickyPositive(n / p, n % p > 0);
  }

  lemma TopParts(n: nat, p: nat, d: nat)
    requires p > 0 && d < 16
    ensures (16 * n + d) / (16 * p) == n / p && (16 * n + d) % (16 * p) == 16 * (n % p) + d
  {
    Recombine(n, p);
    MoveSixteen(n / p, p);
    DivMod(n / p, 16 * p, 16 * (n % p) + d);
  }

  lemma MoveSixteen(q: nat, p: nat)
    ensures q * (16 * p) == 16 * (q * p)
  {
  }

  lemma StickyPositive(m: nat, cut: bool)
    ensures m > 0 ==> Sticky(m, cut) > 0
  {
  }

  lemma KeptOn(n: nat, st: Scan, d: nat)
    requires Kept(n, st) && d < 16
    ensures Kept(16 * n + d, ScanDigit(st, d))
  {
    hide KeptAll, KeptTop, Sticky;
    if st.mBits < MANTISSA_BITS {
      DigitFits(n, st, d);
    } else {
      TopOn(n, st.m, st.xBits, d);
    }
  }

  lemma AllTells(n: nat, m: nat, k: nat)
    requires KeptAll(n, m, k)
    ensures m == n
  {
  }

  lemma DigitFits(n: nat, st: Scan, d: nat)
    requires Kept(n, st) && d < 16 && st.mBits < MANTISSA_BITS
    ensures Kept(16 * n + d, ScanDigit(st, d))
  {
    hide KeptAll, KeptTop, Sticky;
    var k := st.mBits / 4;
    AllTells(n, st.m, k);
    AllOn(n, k, d);
    if k == 14 && !(d == 0 && st.m == 0) { AllIsTop(16 * n + d); }
  }

  lemma StickyTwice(m: nat, a: bool, b: bool)
    ensures Sticky(Sticky(m, a), b) == Sticky(m, a || b)
  {
  }

  /** However many digits were read, rounding what was kept rounds the number. */
  lemma KeptRounds(n: nat, st: Scan)
    requires Kept(n, st)
    ensures Rounded(st.m) * Pow2(st.xBits) == Rounded(n)
  {
    hide KeptTop, Rounded;
    if st.mBits < MANTISSA_BITS {
      assert Pow2(0) == 1;
    } else {
      TopRounds(n, st.m, st.xBits);
    }
  }

  lemma {:induction false} TopRounds(n: nat, m: nat, x: nat)
    requires KeptTop(n, m, x)
    ensures Rounded(m) * Pow2(x) == Rounded(n)
  {
    hide Pow16, Pow2, Rounded, Sticky, BitLength;
    var p := Pow2(x);
    Recombine(n, p);
    Pow16IsPow2(14);
    BitLengthAtLeast(n / p, 56);
    StickyRounds(n / p, n % p, x);
  }

  lemma BitLengthAtLeast(n: nat, b: nat)
    requires n >= Pow2(b)
    ensures n > 0 && BitLength(n) > b
  {
    BitLengthBounds(n);
    if BitLength(n) <= b { Pow2Grows(BitLength(n), b); }
  }

  // ----- Exponents -----------------------------------------------------------

  const INT_MAX: int := 0x7FFF_FFFF
  const INT_MIN: int := -0x8000_0000

  predicate IsSpace(c: char) {
    c == ' ' || ('\t' <= c <= '\r')
  }

  function Unspaced(s: string): string {
    if s != [] && IsSpace(s[0]) then Unspaced(s[1..]) else s
  }

  predicate IsDigit(c: char) {
    '0' <= c <= '9'
  }

  /** A string of decimal digits, possibly empty. */
  function DecimalValue(s: string): Option<nat> {
    if s == [] then Some(0)
    else
      var n := DecimalValue(s[..|s| - 1]);
      var c := s[|s| - 1];
      if n.Some? && IsDigit(c) then Some(10 * n.value + (c as int - '0' as int)) else None
  }

  /** What `strtol` reads from the whole of `s`. */
  function ExponentOf(s: string): Option<int> {
    var u := Unspaced(s);
    var signed := u != [] && (u[0] == '-' || u[0] == '+');
    var digits := if signed then u[1..] else u;
    if digits == [] || DecimalValue(digits).None? then None
    else
      var n: int := DecimalValue(digits).value;
      Some(if signed && u[0] == '-' then -n else n)
  }

  // ----- The reader's loop ---------------------------------------------------

  predicate IsMark(c: char) {
    c == 'p' || c == 'P'
  }

  /** Where the exponent mark stands, or the end. */
  function MarkAt(s: string): (i: nat)
    ensures i <= |s| && (i < |s| ==> IsMark(s[i])) && forall j :: 0 <= j < i ==> !IsMark(s[j])
  {
    if s == [] || IsMark(s[0]) then 0 else 1 + MarkAt(s[1..])
  }

  /** What was read: nothing, an extreme, or the double nearest to `m`, scaled by a power of two. */
  datatype Parsed = Bad | Zero | Infinite | Scaled(m: nat, exp: int)

  /** The sum of two ints, kept within the range of an int. */
  function Saturated(e: int, adj: int): int {
    if adj > 0 && e > INT_MAX - adj then INT_MAX
    else if adj < 0 && e < INT_MIN - adj then INT_MIN
    else e + adj
  }

  function ExponentPart(s: string): Option<int> {
    var i := MarkAt(s);
    if i == |s| then Some(0) else if i + 1 == |s| then None else ExponentOf(s[i + 1..])
  }

  /** What reading `s` must give; `x` bits of the mantissa were cut off and are made up for in the exponent. */
  ghost predicate ReadRight(s: string, r: Parsed, x: nat) {
    var t, e := s[..MarkAt(s)], ExponentPart(s);
    if !IsMantissa(t) || e.None? then r == Bad
    else if e.value <= INT_MIN then r == Zero
    else if e.value >= INT_MAX then r == if NumberOf(t) == 0 then Zero else Infinite
    else if CountOf(t) == 0 then r == Bad
    else
      && r.Scaled? && r.m < Pow16(15) && x <= 4 * CountOf(t) && r.exp == Saturated(e.value, x - 4 * Places(t))
      && Rounded(r.m) * Pow2(x) == Rounded(NumberOf(t))
  }

  /** The reader's variables after the text `t`. */
  ghost predicate Scanned(t: string, st: Scan) {
    && IsMantissa(t) && st.xBits <= st.nBits == 4 * CountOf(t) && Kept(NumberOf(t), st)
    && st.point == (if PointOf(t).Some? then Some(4 * PointOf(t).value) else None)
  }

  lemma ScannedNothing()
    ensures Scanned([], Scan(0, 0, 0, 0, None))
  {
    assert Pow16(0) == 1;
  }

  lemma ScannedDigit(t: string, st: Scan, c: char)
    requires Scanned(t, st) && HexValue(c).Some?
    ensures Scanned(t + [c], ScanDigit(st, HexValue(c).value))
  {
    hide Kept;
    assert (t + [c])[..|t|] == t;
    KeptOn(NumberOf(t), st, HexValue(c).value);
  }

  lemma ScannedPoint(t: string, st: Scan)
    requires Scanned(t, st) && st.point.None?
    ensures Scanned(t + ['.'], st.(point := Some(st.nBits)))
  {
    assert (t + ['.'])[..|t|] == t;
  }

  lemma {:induction false} MantissaPrefix(t: string, i: nat)
    requires IsMantissa(t) && i <= |t|
    ensures IsMantissa(t[..i])
    decreases |t|
  {
    if i < |t| {
      MantissaPrefix(t[..|t| - 1], i);
      assert t[..|t| - 1][..i] == t[..i];
    } else {
      assert t[..i] == t;
    }
  }

  lemma KeptZero(n: nat, st: Scan)
    requires Kept(n, st)
    ensures st.m == 0 <==> n == 0
  {
    if st.mBits == MANTISSA_BITS {
      hide Pow16, Pow2, Sticky;
      StickyPositive(n / Pow2(st.xBits), n % Pow2(st.xBits) > 0);
      assert 0 / Pow2(st.xBits) == 0;
    }
  }

  /** A character that no mantissa can contain at its place makes the text bad. */
  lemma BadCharacter(s: string, i: nat)
    requires i < MarkAt(s) && !IsMantissa(s[..i + 1])
    ensures !IsMantissa(s[..MarkAt(s)])
  {
    var t := s[..MarkAt(s)];
    assert t[..i + 1] == s[..i + 1];
    if IsMantissa(t) { MantissaPrefix(t, i + 1); }
  }

  lemma MarkFound(s: string, i: nat)
    requires i <= |s| && (i < |s| ==> IsMark(s[i])) && forall j :: 0 <= j < i ==> !IsMark(s[j])
    ensures MarkAt(s) == i
  {
  }

  /** `caml_float_of_hex` */
  method FloatOfHex(s: string) returns (r: Parsed, x: nat)
    ensures ReadRight(s, r, x)
  {
    hide Scanned, IsMantissa, NumberOf, CountOf, PointOf, Kept, Rounded, Pow2, Pow16, ExponentOf;
    var st := Scan(0, 0, 0, 0, None);
    var i, exp := 0, 0;
    x := 0;
    ScannedNothing();
    assert s[..0] == [];
    while i < |s| && !IsMark(s[i])
      invariant i <= |s| && Scanned(s[..i], st) && forall j :: 0 <= j < i ==> !IsMark(s[j])
    {
      assert s[..i + 1] == s[..i] + [s[i]];
      assert i < MarkAt(s);
      var c := s[i];
      if c == '.' {
        if st.point.Some? {
          SecondPoint(s[..i], st);
          BadCharacter(s, i);
          return Bad, 0;
        }
        ScannedPoint(s[..i], st);
        st := st.(point := Some(st.nBits));
      } else {
        var d := HexValue(c);
        if d.None? {
          BadDigit(s[..i], c);
          BadCharacter(s, i);
          return Bad, 0;
        }
        ScannedDigit(s[..i], st, c);
        st := ScanDigit(st, d.value);
      }
      i := i + 1;
    }
    MarkFound(s, i);
    ScannedTells(s[..i], st);
    x := st.xBits;
    if i < |s| {
      if i + 1 == |s| { return Bad, 0; }
      var e := ExponentOf(s[i + 1..]);
      if e.None? { return Bad, 0; }
      if e.value <= INT_MIN { return Zero, 0; }
      if e.value >= INT_MAX { return if st.m == 0 then Zero else Infinite, 0; }
      exp := e.value;
    }
    if st.nBits == 0 { return Bad, 0; }
    var adj: int := st.xBits;
    if st.point.Some? { adj := adj + (st.point.value - st.nBits); }
    r := Scaled(st.m, Saturated(exp, adj));
  }

  lemma SecondPoint(t: string, st: Scan)
    requires Scanned(t, st) && st.point.Some?
    ensures !IsMantissa(t + ['.'])
  {
    assert (t + ['.'])[..|t|] == t;
  }

  lemma BadDigit(t: string, c: char)
    requires HexValue(c).None? && c != '.'
    ensures !IsMantissa(t + [c])
  {
    assert (t + [c])[..|t|] == t;
  }

  lemma ScannedTells(t: string, st: Scan)
    requires Scanned(t, st)
    ensures IsMantissa(t) && st.xBits <= st.nBits == 4 * CountOf(t) && (st.m == 0 <==> NumberOf(t) == 0)
    ensures (if st.point.Some? then st.nBits - st.point.value else 0) == 4 * Places(t)
    ensures Rounded(st.m) * Pow2(st.xBits) == Rounded(NumberOf(t)) && st.m < Pow16(15)
  {
    KeptZero(NumberOf(t), st);
    KeptRounds(NumberOf(t), st);
    KeptSmall(NumberOf(t), st);
  }

  lemma {:induction false} Pow16Grows(a: nat, b: nat)
    requires a <= b
    ensures Pow16(a) <= Pow16(b)
    decreases b
  {
    if a < b { Pow16Grows(a, b - 1); }
  }

  /** The kept mantissa has sixty bits. */
  lemma KeptSmall(n: nat, st: Scan)
    requires Kept(n, st)
    ensures st.m < Pow16(15)
  {
    if st.mBits < MANTISSA_BITS {
      Pow16Grows(st.mBits / 4, 15);
    } else {
      assert Pow16(15) % 2 == 0 by { assert Pow16(15) == 16 * Pow16(14); }
    }
  }

  // ----- Printing ------------------------------------------------------------

  const TWO52: nat := 0x10_0000_0000_0000

  /** Mantissa and exponent as they are printed: the value is `m * 2^(exp-52)`. */
  function Mantissa(expField: nat, fraction: nat): nat {
    if expField == 0 then fraction else TWO52 + fraction
  }

  function PrintedExponent(expField: nat, fraction: nat): int {
    if expField == 0 then (if fraction == 0 then 0 else -1022) else expField - 1023
  }

  function HexChar(d: nat): (c: char)
    requires d < 16
    ensures HexValue(c) == Some(d) && !IsMark(c) && c != '.'
  {
    if d < 10 then (d + '0' as int) as char else (d - 10 + 'a' as int) as char
  }

  function HexChars(ds: seq<nat>): (t: string)
    requires forall i :: 0 <= i < |ds| ==> ds[i] < 16
    ensures |t| == |ds| && forall i :: 0 <= i < |ds| ==> t[i] == HexChar(ds[i])
  {
    seq(|ds|, i requires 0 <= i < |ds| => HexChar(ds[i]))
  }

  /** The digits of a fraction of `n` places, as many as it needs. */
  function FracDigits(r: nat, n: nat): (ds: seq<nat>)
    requires r < Pow16(n)
    ensures |ds| <= n && (forall i :: 0 <= i < |ds| ==> ds[i] < 16) && (ds == [] <==> r == 0)
    decreases n
  {
    if r == 0 then [] else [Lead(r, n)] + FracDigits(Rest(r, n), n - 1)
  }

  /** The first digit, and what follows it. */
  function Lead(r: nat, n: nat): (d: nat)
    requires 0 < r < Pow16(n)
    ensures n > 0 && d < 16
  {
    FirstDigit(r, n);
    r / Pow16(n - 1)
  }

  function Rest(r: nat, n: nat): (t: nat)
    requires 0 < r < Pow16(n)
    ensures n > 0 && t < Pow16(n - 1)
  {
    FirstDigit(r, n);
    r % Pow16(n - 1)
  }

  lemma FirstDigit(r: nat, n: nat)
    requires 0 < r < Pow16(n)
    ensures n > 0 && r / Pow16(n - 1) < 16
  {
    assert Pow16(0) == 1;
    var p := Pow16(n - 1);
    assert Pow16(n) == 16 * p;
    hide Pow16;
    Recombine(r, p);
    Times(16, if r / p >= 16 then r / p else 16, p);
  }

  function Decimal(n: nat): (s: string)
    ensures s != [] && IsDigit(s[0])
  {
    var c := (n % 10 + '0' as int) as char;
    if n < 10 then [c] else Decimal(n / 10) + [c]
  }

  /** `%+d` */
  function SignedDecimal(e: int): string {
    if e < 0 then "-" + Decimal(-e) else "+" + Decimal(e)
  }

  /** The digits before the exponent mark. */
  function MantissaText(m: nat): string
    requires m < 2 * TWO52
  {
    Thirteen();
    var g := m % TWO52;
    [HexChar(m / TWO52)] + if g == 0 then [] else ['.'] + HexChars(FracDigits(g, 13))
  }

  lemma Thirteen()
    ensures Pow16(13) == TWO52 && Pow16(14) == 16 * TWO52 && Pow16(1) == 16
  {
  }

  function Text(neg: bool, expField: nat, fraction: nat): string
    requires fraction < TWO52
  {
    (if neg then "-" else "") + "0x"
      + (MantissaText(Mantissa(expField, fraction)) + "p" + SignedDecimal(PrintedExponent(expField, fraction)))
  }

  /** The loop over the fractional digits: `m` is a window of fourteen digits. */
  method PrintFraction(m0: nat, ghost g: nat) returns (text: string)
    requires 0 < g < TWO52 && m0 == g * 16
    ensures g < Pow16(13) && text == HexChars(FracDigits(g, 13))
  {
    hide Pow16, FracDigits, Lead, Rest;
    Thirteen();
    var m := m0;
    text := [];
    ghost var r: nat, n: nat := g, 13;
    ghost var done: seq<nat> := [];
    while m != 0
      invariant n <= 13 && r < Pow16(n) && m == r * Pow16(14 - n)
      invariant forall i :: 0 <= i < |done| ==> done[i] < 16
      invariant text == HexChars(done) && done + FracDigits(r, n) == FracDigits(g, 13)
      decreases n
    {
      NextPlace(r, n, m);
      var d := m / TWO52;
      text := text + [HexChar(d)];
      assert done + ([d] + FracDigits(Rest(r, n), n - 1)) == done + [d] + FracDigits(Rest(r, n), n - 1);
      m := 16 * m % (16 * TWO52);
      r, n, done := Rest(r, n), n - 1, done + [d];
    }
    NoMorePlaces(r, n);
    assert done + [] == done;
  }

  /** `caml_hexstring_of_float` without a precision, for a finite double given by its fields. */
  method HexstringOfFloat(neg: bool, expField: nat, fraction: nat) returns (s: string)
    requires expField < 0x7FF && fraction < TWO52
    ensures s == Text(neg, expField, fraction)
  {
    hide FracDigits, SignedDecimal, Pow16, HexChars, HexChar;
    Thirteen();
    var exp: int, m: nat := expField, fraction;
    s := if neg then "-" else "";
    s := s + "0x";
    if exp == 0 {
      if m != 0 { exp := -1022; }
    } else {
      exp := exp - 1023;
      m := m + TWO52;
    }
    ghost var g := m % TWO52;
    Window(m);
    var text := [HexChar(m / TWO52)];
    m := 16 * m % (16 * TWO52);
    if m != 0 {
      var digits := PrintFraction(m, g);
      text := text + (['.'] + digits);
    }
    s := s + (text + "p" + SignedDecimal(exp));
  }

  lemma Window(m: nat)
    requires m < 2 * TWO52
    ensures 16 * m % (16 * TWO52) == (m % TWO52) * 16
  {
  }

  lemma {:induction false} NoMorePlaces(r: nat, n: nat)
    requires n <= 13 && r < Pow16(n) && r * Pow16(14 - n) == 0
    ensures r == 0 && FracDigits(r, n) == []
  {
    hide Pow16;
    Times(1, if r > 0 then r else 1, Pow16(14 - n));
  }

  /** The window on the digits moves by one place. */
  lemma NextPlace(r: nat, n: nat, m: nat)
    requires n <= 13 && r < Pow16(n) && m == r * Pow16(14 - n) && m != 0
    ensures n > 0 && r > 0 && m / TWO52 == Lead(r, n)
    ensures 16 * m % (16 * TWO52) == Rest(r, n) * Pow16(15 - n)
    ensures FracDigits(r, n) == [Lead(r, n)] + FracDigits(Rest(r, n), n - 1)
  {
    assert r > 0;
    FirstDigit(r, n);
    Thirteen();
    Pow16Adds(14 - n, n - 1);
    var a, b := Pow16(14 - n), Pow16(n - 1);
    assert Pow16(15 - n) == 16 * a;
    hide Pow16, FracDigits;
    PlaceParts(r, a, b);
  }

  lemma PlaceParts(r: nat, a: nat, b: nat)
    requires a > 0 && b > 0 && a * b == TWO52
    ensures r * a / TWO52 == r / b && 16 * (r * a) % (16 * TWO52) == (r % b) * (16 * a)
  {
    var q, t := r / b, r % b;
    Recombine(r, b);
    assert r * a == q * TWO52 + t * a by { Spread(q * b, t, a); Assoc(q, b, a); Commute(a, b); }
    Times(t + 1, b, a);
    Spread(t, 1, a);
    Commute(a, b);
    DivMod(q, TWO52, t * a);
    assert 16 * (r * a) == q * (16 * TWO52) + 16 * (t * a) by { MoveSixteen(q, TWO52); }
    DivMod(q, 16 * TWO52, 16 * (t * a));
    MoveSixteen(t, a);
  }

  lemma {:induction false} Pow16Adds(a: nat, b: nat)
    ensures Pow16(a + b) == Pow16(a) * Pow16(b)
  {
    if a > 0 {
      Pow16Adds(a - 1, b);
      assert Pow16(a + b) == 16 * Pow16(a - 1 + b);
      Assoc(16, Pow16(a - 1), Pow16(b));
    }
  }

  // ----- Reading what was printed --------------------------------------------

  function Val(ds: seq<nat>): nat {
    if ds == [] then 0 else ds[0] * Pow16(|ds| - 1) + Val(ds[1..])
  }

  lemma {:induction false} FracValue(r: nat, n: nat)
    requires r < Pow16(n)
    ensures var ds := FracDigits(r, n); Val(ds) * Pow16(n - |ds|) == r
    decreases n
  {
    var ds := FracDigits(r, n);
    if r > 0 {
      var d, t := Lead(r, n), Rest(r, n);
      assert ds[0] == d && ds[1..] == FracDigits(t, n - 1);
      Recombine(r, Pow16(n - 1));
      hide Pow16, FracDigits, Lead, Rest;
      FracValue(t, n - 1);
      FirstPlace(d, Val(ds[1..]), |ds|, n, t);
    }
  }

  lemma FirstPlace(d: nat, v: nat, k: nat, n: nat, t: nat)
    requires 0 < k <= n && v * Pow16(n - k) == t
    ensures (d * Pow16(k - 1) + v) * Pow16(n - k) == d * Pow16(n - 1) + t
  {
    hide Pow16;
    Pow16Adds(k - 1, n - k);
    Spread(d * Pow16(k - 1), v, Pow16(n - k));
    Assoc(d, Pow16(k - 1), Pow16(n - k));
  }

  lemma AppendOne(t: string, d: nat)
    requires d < 16
    ensures var t' := t + [HexChar(d)];
      && NumberOf(t') == 16 * NumberOf(t) + d && CountOf(t') == CountOf(t) + 1 && PointOf(t') == PointOf(t)
      && (IsMantissa(t) ==> IsMantissa(t'))
  {
    assert (t + [HexChar(d)])[..|t|] == t;
  }

  /** More digits behind a text. */
  lemma {:induction false} AppendDigits(t: string, ds: seq<nat>)
    requires forall i :: 0 <= i < |ds| ==> ds[i] < 16
    ensures NumberOf(t + HexChars(ds)) == NumberOf(t) * Pow16(|ds|) + Val(ds)
    ensures CountOf(t + HexChars(ds)) == CountOf(t) + |ds| && PointOf(t + HexChars(ds)) == PointOf(t)
    ensures IsMantissa(t) ==> IsMantissa(t + HexChars(ds))
    decreases |ds|
  {
    hide NumberOf, CountOf, PointOf, IsMantissa, HexChar, HexValue;
    if ds == [] {
      assert t + HexChars(ds) == t;
    } else {
      AppendOne(t, ds[0]);
      AppendDigits(t + [HexChar(ds[0])], ds[1..]);
      assert t + HexChars(ds) == (t + [HexChar(ds[0])]) + HexChars(ds[1..]);
      Pow16Steps(|ds| - 1);
      OneMorePlace(NumberOf(t), ds[0], Pow16(|ds| - 1));
    }
  }

  lemma OneMorePlace(n: nat, d: nat, p: nat)
    ensures (16 * n + d) * p == n * (16 * p) + d * p
  {
    Spread(16 * n, d, p);
    MoveSixteen(n, p);
    Assoc(16, n, p);
  }

  lemma CombinePlaces(lead: nat, v: nat, k: nat, g: nat)
    requires k <= 13 && v * Pow16(13 - k) == g
    ensures (lead * Pow16(k) + v) * Pow16(13 - k) == lead * TWO52 + g
    ensures lead * Pow16(k) + v <= lead * TWO52 + g
  {
    Thirteen();
    Pow16Adds(k, 13 - k);
    hide Pow16;
    Spread(lead * Pow16(k), v, Pow16(13 - k));
    Assoc(lead, Pow16(k), Pow16(13 - k));
    AtLeast(lead * Pow16(k) + v, Pow16(13 - k));
  }

  /** The text `t` denotes `m`, scaled by the places it does not print. */
  ghost predicate Denotes(t: string, m: nat) {
    && IsMantissa(t) && 0 < CountOf(t) <= 14 && 0 <= Places(t) <= 13
    && NumberOf(t) * Pow16(13 - Places(t)) == m && NumberOf(t) <= m
    && forall i :: 0 <= i < |t| ==> !IsMark(t[i])
  }

  lemma WholeDenotes(lead: nat)
    requires lead < 16
    ensures Denotes([HexChar(lead)], lead * TWO52)
  {
    LeadingDigit(lead);
    Thirteen();
    hide Pow16, NumberOf, CountOf, PointOf, IsMantissa, HexValue;
    AtLeast(lead, TWO52);
  }

  lemma {:induction false} FractionDenotes(lead: nat, g: nat)
    requires lead < 16 && 0 < g < Pow16(13)
    ensures Denotes([HexChar(lead)] + ['.'] + HexChars(FracDigits(g, 13)), lead * TWO52 + g)
  {
    hide Pow16, FracDigits, NumberOf, CountOf, PointOf, IsMantissa, HexValue, Val;
    var one, ds := [HexChar(lead)], FracDigits(g, 13);
    LeadingDigit(lead);
    PointBehind(one);
    AppendDigits(one + ['.'], ds);
    FracValue(g, 13);
    CombinePlaces(lead, Val(ds), |ds|, g);
  }

  lemma MantissaTells(m: nat)
    requires m < 2 * TWO52
    ensures Denotes(MantissaText(m), m)
  {
    hide Denotes, FracDigits, Pow16;
    var lead, g := m / TWO52, m % TWO52;
    Thirteen();
    Recombine(m, TWO52);
    if g == 0 {
      WholeDenotes(lead);
      assert MantissaText(m) == [HexChar(lead)];
    } else {
      FractionDenotes(lead, g);
      assert MantissaText(m) == [HexChar(lead)] + ['.'] + HexChars(FracDigits(g, 13));
    }
  }

  lemma LeadingDigit(d: nat)
    requires d < 16
    ensures var t := [HexChar(d)]; NumberOf(t) == d && CountOf(t) == 1 && PointOf(t) == None && IsMantissa(t)
  {
    assert [HexChar(d)][..0] == [];
  }

  lemma PointBehind(t: string)
    requires IsMantissa(t) && PointOf(t).None?
    ensures NumberOf(t + ['.']) == NumberOf(t) && CountOf(t + ['.']) == CountOf(t)
    ensures PointOf(t + ['.']) == Some(CountOf(t)) && IsMantissa(t + ['.'])
  {
    assert (t + ['.'])[..|t|] == t;
  }

  lemma {:induction false} DecimalTells(n: nat)
    ensures DecimalValue(Decimal(n)) == Some(n)
  {
    var s := Decimal(n);
    if n < 10 {
      assert s[..0] == [];
    } else {
      DecimalTells(n / 10);
      assert s[..|s| - 1] == Decimal(n / 10);
    }
  }

  lemma ExponentTells(e: int)
    ensures ExponentOf(SignedDecimal(e)) == Some(e)
  {
    var n := if e < 0 then -e else e;
    DecimalTells(n);
    assert SignedDecimal(e)[1..] == Decimal(n);
    assert Unspaced(SignedDecimal(e)) == SignedDecimal(e);
  }

  /** `a * 2^e == b * 2^f` */
  ghost predicate SameValue(a: nat, e: int, b: nat, f: int) {
    if e >= f then a * Pow2(e - f) == b else a == b * Pow2(f - e)
  }

  lemma {:induction false} FewBitsExact(n: nat)
    requires n < 2 * TWO52
    ensures Rounded(n) == n
  {
    if n > 0 {
      BitLengthBounds(n);
      Pow16IsPow2(13);
      Thirteen();
      assert Pow2(53) == 2 * Pow2(52);
      if BitLength(n) > PRECISION { Pow2Grows(PRECISION, BitLength(n) - 1); }
    }
  }

  lemma PartsOfText(t: string, u: string)
    requires (forall i :: 0 <= i < |t| ==> !IsMark(t[i])) && |u| > 0
    ensures var s := t + "p" + u; MarkAt(s) == |t| && s[..|t|] == t && ExponentPart(s) == ExponentOf(u)
  {
    var s := t + "p" + u;
    MarkFound(s, |t|);
    assert s[..|t|] == t && s[|t| + 1..] == u;
  }

  lemma ScaledBack(a: nat, x: nat, n: nat, k: nat, m: nat)
    requires a * Pow2(x) == n && k <= 13 && n * Pow16(13 - k) == m
    ensures a * Pow2(x + (52 - 4 * k)) == m
  {
    Pow16IsPow2(13 - k);
    Pow2Adds(x, 52 - 4 * k);
    hide Pow2, Pow16;
    Assoc(a, Pow2(x), Pow2(52 - 4 * k));
  }

  /** What is read from the printed text has the value of the double. */
  lemma ReadsBack(m: nat, exp: int, r: Parsed, x: nat)
    requires m < 2 * TWO52 && -1022 <= exp <= 1023
    requires ReadRight(MantissaText(m) + "p" + SignedDecimal(exp), r, x)
    ensures r.Scaled? && SameValue(Rounded(r.m), r.exp, m, exp - 52)
  {
    hide MantissaText, SignedDecimal, NumberOf, CountOf, Places, Rounded, IsMantissa, ExponentOf, ExponentPart, Pow2, Pow16, MarkAt;
    var t, u := MantissaText(m), SignedDecimal(exp);
    MantissaTells(m);
    ExponentTells(exp);
    SignedNotEmpty(exp);
    PartsOfText(t, u);
    FewBitsExact(NumberOf(t));
    ScaledBack(Rounded(r.m), x, NumberOf(t), Places(t), m);
  }

  lemma SignedNotEmpty(e: int)
    ensures |SignedDecimal(e)| > 0
  {
  }

  /** The sign, the prefix, and the rest by the hexadecimal reader; other notations are not read here. */
  method FloatOfString(s: string) returns (neg: bool, r: Parsed, x: nat)
    ensures var body := if s != [] && (s[0] == '-' || s[0] == '+') then s[1..] else s;
      && neg == (s != [] && s[0] == '-')
      && if |body| >= 2 && body[0] == '0' && (body[1] == 'x' || body[1] == 'X') then ReadRight(body[2..], r, x) else r == Bad
  {
    hide ReadRight;
    var i := 0;
    neg := false;
    if |s| > 0 && s[0] == '-' { neg, i := true, 1; }
    else if |s| > 0 && s[0] == '+' { i := 1; }
    var body := s[i..];
    if |body| >= 2 && body[0] == '0' && (body[1] == 'x' || body[1] == 'X') {
      r, x := FloatOfHex(body[2..]);
    } else {
      r, x := Bad, 0;
    }
  }

  /** Printing a finite double without a precision and reading the text gives its sign and its value back. */
  method PrintAndRead(neg: bool, expField: nat, fraction: nat) returns (s: string, neg': bool, r: Parsed)
    requires expField < 0x7FF && fraction < TWO52
    ensures s == Text(neg, expField, fraction) && neg' == neg && r.Scaled?
    ensures SameValue(Rounded(r.m), r.exp, Mantissa(expField, fraction), PrintedExponent(expField, fraction) - 52)
  {
    hide ReadRight, MantissaText, SignedDecimal, Rounded, SameValue;
    s := HexstringOfFloat(neg, expField, fraction);
    var x;
    neg', r, x := FloatOfString(s);
    ghost var m, e := Mantissa(expField, fraction), PrintedExponent(expField, fraction);
    ghost var body := MantissaText(m) + "p" + SignedDecimal(e);
    assert s == (if neg then "-" else "") + "0x" + body;
    assert (if neg then s[1..] else s)[2..] == body;
    ReadsBack(m, e, r, x);
  }
}
