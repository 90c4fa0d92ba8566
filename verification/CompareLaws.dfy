/**
What structural comparison means for each kind of value, said without its recursion: where
two strings, float arrays or blocks first differ, how floats compare by their numeric
values, and what the comparison operators of the language make of the outcome.
*/
module CompareLaws {
  import opened Arithmetic
  import opened StructuralCompare
  import HexFloat

  // ----- Immediates and tags -------------------------------------------------

  /** Null, then integers by number, then blocks by tag: 248 for objects, 252 for strings, 253 and 254 for floats. */
  lemma KindsInOrder(a: Value, b: Value, total: bool)
    requires !a.Forward? && !b.Forward?
    ensures a.Null? && !b.Null? ==> Cmp(a, b, total) == Less
    ensures a.Int? && b.Int? ==>
      (a.n < b.n ==> Cmp(a, b, total) == Less) && (a.n == b.n ==> Cmp(a, b, total) == Equal) && (a.n > b.n ==> Cmp(a, b, total) == Greater)
    ensures a.Int? && !IsLong(b) ==> Cmp(a, b, total) == Less
    ensures a.Block? && b.Block? && a.tag < b.tag ==> Cmp(a, b, total) == Less
    ensures a.Block? && (b.Object? || b.Str? || b.Dbl? || b.DblArray?) ==> Cmp(a, b, total) == Less
    ensures a.Object? && (b.Str? || b.Dbl? || b.DblArray?) ==> Cmp(a, b, total) == Less
    ensures a.Str? && (b.Dbl? || b.DblArray?) ==> Cmp(a, b, total) == Less
    ensures a.Dbl? && b.DblArray? ==> Cmp(a, b, total) == Less
    ensures a.Object? && b.Object? && a.oid < b.oid ==> Cmp(a, b, total) == Less
  {
    hide CmpBytes, CmpFloat, CmpFloats, CmpFrom;
  }

  /** The tags of the runtime. */
  lemma TagTable(v: Value)
    requires !IsLong(v)
    ensures v.Object? ==> TagOf(v) == 248
    ensures v.Forward? ==> TagOf(v) == 250
    ensures v.Str? ==> TagOf(v) == 252
    ensures v.Dbl? ==> TagOf(v) == 253
    ensures v.DblArray? ==> TagOf(v) == 254
    ensures v.Block? ==> TagOf(v) == v.tag && (v.tag <= 244 || v.tag == 246)
  {
  }

  /** The stack has 8 items at first, then 32, then twice as many each time up to 524288. */
  lemma StackSizes(limit: nat)
    requires limit >= 8
    ensures NewLimit(8) == 32
    ensures 8 < limit < 524288 ==> NewLimit(limit) == 2 * limit
    ensures limit >= 524288 ==> NewLimit(limit) == 0
  {
  }

  // ----- Strings -------------------------------------------------------------

  /** `s` comes first in the dictionary: it is shorter, or smaller where the two first differ. */
  ghost predicate LexLess(s: seq<nat>, t: seq<nat>) {
    exists k :: LexLessAt(s, t, k)
  }

  ghost predicate LexLessAt(s: seq<nat>, t: seq<nat>, k: nat) {
    k <= |s| && k < |t| && s[..k] == t[..k] && (k == |s| || s[k] < t[k])
  }

  lemma {:induction false} FirstDifference(s: seq<nat>, t: seq<nat>, k: nat)
    requires LexLessAt(s, t, k)
    ensures CmpBytes(s, t) == Less
    decreases k
  {
    if k > 0 {
      assert s[0] == s[..k][0] == t[..k][0] == t[0];
      assert s[1..][..k - 1] == s[..k][1..] == t[..k][1..] == t[1..][..k - 1];
      FirstDifference(s[1..], t[1..], k - 1);
    }
  }

  lemma {:induction false} DifferenceExists(s: seq<nat>, t: seq<nat>) returns (k: nat)
    requires CmpBytes(s, t) == Less
    ensures LexLessAt(s, t, k)
  {
    if s == [] || s[0] < t[0] {
      k := 0;
    } else {
      var j := DifferenceExists(s[1..], t[1..]);
      k := j + 1;
      assert s[..k] == [s[0]] + s[1..][..j] && t[..k] == [t[0]] + t[1..][..j];
    }
  }

  /** Strings are in the order of the dictionary, byte by byte. */
  lemma StringOrder(s: seq<nat>, t: seq<nat>, total: bool)
    ensures Cmp(Str(s), Str(t), total) == Less <==> LexLess(s, t)
    ensures Cmp(Str(s), Str(t), total) == Greater <==> LexLess(t, s)
    ensures Cmp(Str(s), Str(t), total) == Equal <==> s == t
  {
    BytesPair(s, t);
    assert Cmp(Str(s), Str(t), total) == CmpBytes(s, t);
    hide Cmp, CmpBytes;
    if CmpBytes(s, t) == Less { var k := DifferenceExists(s, t); }
    if CmpBytes(t, s) == Less { var k := DifferenceExists(t, s); }
    if k :| LexLessAt(s, t, k) { FirstDifference(s, t, k); }
    if k :| LexLessAt(t, s, k) { FirstDifference(t, s, k); }
  }

  // ----- Sequences decided by their first difference -------------------------

  lemma {:induction false} FloatsDecidedAt(s: seq<Float>, t: seq<Float>, k: nat, total: bool)
    requires |s| == |t| && k <= |s| && forall i :: 0 <= i < k ==> CmpFloat(s[i], t[i], total) == Equal
    ensures k == |s| ==> CmpFloats(s, t, total) == Equal
    ensures k < |s| && CmpFloat(s[k], t[k], total) != Equal ==> CmpFloats(s, t, total) == CmpFloat(s[k], t[k], total)
  {
    hide CmpFloat;
    if k > 0 {
      forall i | 0 <= i < k - 1 ensures CmpFloat(s[1..][i], t[1..][i], total) == Equal {
        assert s[1..][i] == s[i + 1] && t[1..][i] == t[i + 1];
      }
      FloatsDecidedAt(s[1..], t[1..], k - 1, total);
    }
  }

  /** Float arrays: by size, then by the first floats that are not equal. */
  lemma FloatArrayOrder(s: seq<Float>, t: seq<Float>, k: nat, total: bool)
    requires |s| == |t| ==> k <= |s| && forall i :: 0 <= i < k ==> CmpFloat(s[i], t[i], total) == Equal
    ensures |s| < |t| ==> Cmp(DblArray(s), DblArray(t), total) == Less
    ensures |s| > |t| ==> Cmp(DblArray(s), DblArray(t), total) == Greater
    ensures |s| == |t| == k ==> Cmp(DblArray(s), DblArray(t), total) == Equal
    ensures |s| == |t| && k < |s| && CmpFloat(s[k], t[k], total) != Equal ==>
      Cmp(DblArray(s), DblArray(t), total) == CmpFloat(s[k], t[k], total)
  {
    hide CmpFloat;
    if |s| == |t| { FloatsDecidedAt(s, t, k, total); }
  }

  lemma {:induction false} FieldsDecidedAt(v1: Value, v2: Value, i: nat, k: nat, total: bool)
    requires v1.Block? && v2.Block? && |v1.fields| == |v2.fields| && i <= k <= |v1.fields|
    requires forall j :: i <= j < k ==> Cmp(v1.fields[j], v2.fields[j], total) == Equal
    ensures k == |v1.fields| ==> CmpFrom(v1, v2, i, total) == Equal
    ensures k < |v1.fields| && Cmp(v1.fields[k], v2.fields[k], total) != Equal ==>
      CmpFrom(v1, v2, i, total) == Cmp(v1.fields[k], v2.fields[k], total)
    decreases k - i
  {
    hide Cmp;
    if i < k { FieldsDecidedAt(v1, v2, i + 1, k, total); }
  }

  /** Blocks of one tag: by size, then by the first fields that are not equal. */
  lemma BlockOrder(tag: Tag, fs: seq<Value>, gs: seq<Value>, k: nat, total: bool)
    requires |fs| == |gs| ==> k <= |fs| && forall j :: 0 <= j < k ==> Cmp(fs[j], gs[j], total) == Equal
    ensures |fs| < |gs| ==> Cmp(Block(tag, fs), Block(tag, gs), total) == Less
    ensures |fs| > |gs| ==> Cmp(Block(tag, fs), Block(tag, gs), total) == Greater
    ensures |fs| == |gs| == k ==> Cmp(Block(tag, fs), Block(tag, gs), total) == Equal
    ensures |fs| == |gs| && k < |fs| && Cmp(fs[k], gs[k], total) != Equal ==>
      Cmp(Block(tag, fs), Block(tag, gs), total) == Cmp(fs[k], gs[k], total)
  {
    if |fs| == |gs| {
      assert Cmp(Block(tag, fs), Block(tag, gs), total) == CmpFrom(Block(tag, fs), Block(tag, gs), 0, total);
      hide Cmp;
      FieldsDecidedAt(Block(tag, fs), Block(tag, gs), 0, k, total);
    }
  }

  // ----- Floats by their values ----------------------------------------------

  /** The 64 bits as one number. */
  function BitsOf(d: Float): nat {
    d.hi * 0x1_0000_0000 + d.lo
  }

  function Negative(d: Float): bool {
    BitsOf(d) >= 0x8000_0000_0000_0000
  }

  function ExpField(d: Float): nat {
    BitsOf(d) / HexFloat.TWO52 % 0x800
  }

  function Fraction(d: Float): nat {
    BitsOf(d) % HexFloat.TWO52
  }

  /** The value of exponent field and fraction, in units of the smallest double 2^-1074; infinity as 2^1024. */
  function Magnitude(field: nat, fraction: nat): nat {
    HexFloat.Mantissa(field, fraction) * HexFloat.Pow2(if field == 0 then 0 else field - 1)
  }

  function SignedValue(d: Float): int {
    var m: int := Magnitude(ExpField(d), Fraction(d));
    if Negative(d) then -m else m
  }

  /** Larger fields, or a larger fraction in the same field, make a larger number. */
  lemma MagnitudeGrows(f1: nat, x1: nat, f2: nat, x2: nat)
    requires x1 < HexFloat.TWO52 && x2 < HexFloat.TWO52 && (f1 < f2 || (f1 == f2 && x1 < x2))
    ensures Magnitude(f1, x1) < Magnitude(f2, x2)
  {
    var e1, e2 := if f1 == 0 then 0 else f1 - 1, if f2 == 0 then 0 else f2 - 1;
    var m1, m2, p1, p2 := HexFloat.Mantissa(f1, x1), HexFloat.Mantissa(f2, x2), HexFloat.Pow2(e1), HexFloat.Pow2(e2);
    if f1 == f2 || f1 == 0 {
      if f1 == f2 { LessTimes(m1, m2, p1); } else { assert HexFloat.Pow2(0) == 1; AtLeast(m2, p2); }
    } else {
      HexFloat.Pow2Grows(e1 + 1, e2);
      assert HexFloat.Pow2(e1 + 1) == 2 * p1;
      LessTimes(m1, 2 * HexFloat.TWO52, p1);
      Assoc(HexFloat.TWO52, 2, p1);
      Times(2 * p1, p2, HexFloat.TWO52);
      Times(HexFloat.TWO52, m2, p2);
    }
  }

  lemma LessTimes(a: nat, b: nat, p: nat)
    requires a < b && p > 0
    ensures a * p < b * p
  {
    Times(a + 1, b, p);
    Spread(a, 1, p);
  }

  /** The bits without the sign are field and fraction side by side. */
  lemma KeyFields(d: Float)
    ensures var k := ExpField(d) * HexFloat.TWO52 + Fraction(d); Key(d) == if Negative(d) then -k else k
  {
    var top := d.hi % 0x8000_0000;
    assert d.hi == (if d.hi >= 0x8000_0000 then 0x8000_0000 else 0) + top;
    var k := top * 0x1_0000_0000 + d.lo;
    assert BitsOf(d) == k + if d.hi >= 0x8000_0000 then 0x8000_0000_0000_0000 else 0;
    assert k < 0x8000_0000_0000_0000;
  }

  lemma NaNFields(d: Float)
    ensures IsNaN(d) <==> ExpField(d) == 0x7FF && Fraction(d) != 0
  {
    var top, mid := d.hi / 0x10_0000, d.hi % 0x10_0000;
    assert d.hi == top * 0x10_0000 + mid;
    assert BitsOf(d) == top * HexFloat.TWO52 + (mid * 0x1_0000_0000 + d.lo);
    assert Fraction(d) == mid * 0x1_0000_0000 + d.lo && BitsOf(d) / HexFloat.TWO52 == top;
  }

  lemma MagnitudeByKey(f1: nat, x1: nat, f2: nat, x2: nat)
    requires x1 < HexFloat.TWO52 && x2 < HexFloat.TWO52
    ensures By(f1 * HexFloat.TWO52 + x1, f2 * HexFloat.TWO52 + x2) == By(Magnitude(f1, x1), Magnitude(f2, x2))
    ensures f1 * HexFloat.TWO52 + x1 == 0 <==> Magnitude(f1, x1) == 0
  {
    hide Magnitude;
    if f1 < f2 || (f1 == f2 && x1 < x2) { MagnitudeGrows(f1, x1, f2, x2); }
    if f2 < f1 || (f1 == f2 && x2 < x1) { MagnitudeGrows(f2, x2, f1, x1); }
    if f1 > 0 || x1 > 0 { MagnitudeGrows(0, 0, f1, x1); }
    NoMagnitude();
  }

  lemma NoMagnitude()
    ensures Magnitude(0, 0) == 0
  {
  }

  /** Floats that are no NaNs compare as the numbers they denote; a NaN is unordered, or equal to itself and first. */
  lemma FloatOrder(d1: Float, d2: Float, total: bool)
    ensures !IsNaN(d1) && !IsNaN(d2) ==> Cmp(Dbl(d1), Dbl(d2), total) == By(SignedValue(d1), SignedValue(d2))
    ensures IsNaN(d1) || IsNaN(d2) ==>
      Cmp(Dbl(d1), Dbl(d2), total) == if !total then Unordered else if !IsNaN(d1) then Greater else if !IsNaN(d2) then Less else Equal
  {
    KeyFields(d1);
    KeyFields(d2);
    var f1, x1, f2, x2 := ExpField(d1), Fraction(d1), ExpField(d2), Fraction(d2);
    MagnitudeByKey(f1, x1, f2, x2);
    MagnitudeByKey(f2, x2, f1, x1);
    hide Magnitude, Key, IsNaN, ExpField, Fraction, Negative;
  }

  // ----- The operators -------------------------------------------------------

  /** The result of the comparison as a machine integer. */
  const UNORDERED: int := -0x8000_0000_0000_0000

  function Res(ord: Ord): int {
    match ord
    case Less => -1
    case Equal => 0
    case Greater => 1
    case Unordered => UNORDERED
  }

  /** `caml_compare` */
  function Compare(v1: Value, v2: Value): int {
    var res := Res(Cmp(v1, v2, true));
    if res < 0 then -1 else if res > 0 then 1 else 0
  }

  function EqualTo(v1: Value, v2: Value): bool {
    Res(Cmp(v1, v2, false)) == 0
  }

  function NotEqual(v1: Value, v2: Value): bool {
    Res(Cmp(v1, v2, false)) != 0
  }

  function LessThan(v1: Value, v2: Value): bool {
    var res := Res(Cmp(v1, v2, false));
    res < 0 && res != UNORDERED
  }

  function LessEqual(v1: Value, v2: Value): bool {
    var res := Res(Cmp(v1, v2, false));
    res <= 0 && res != UNORDERED
  }

  function GreaterThan(v1: Value, v2: Value): bool {
    Res(Cmp(v1, v2, false)) > 0
  }

  function GreaterEqual(v1: Value, v2: Value): bool {
    Res(Cmp(v1, v2, false)) >= 0
  }

  lemma FloatFlips(d1: Float, d2: Float, total: bool)
    ensures CmpFloat(d2, d1, total) == Flip(CmpFloat(d1, d2, total))
  {
  }

  lemma {:induction false} FloatsFlip(s: seq<Float>, t: seq<Float>, total: bool)
    requires |s| == |t|
    ensures CmpFloats(t, s, total) == Flip(CmpFloats(s, t, total))
  {
    hide CmpFloat;
    if s != [] {
      FloatFlips(s[0], t[0], total);
      FloatsFlip(s[1..], t[1..], total);
    }
  }

  /** Partial comparison is antisymmetric as well, and unordered both ways. */
  lemma {:induction false} OrderFlips(a: Value, b: Value, total: bool)
    requires Plain(a) && Plain(b)
    ensures Order(b, a, total) == Flip(Order(a, b, total))
    decreases a, b, if a.Block? then |a.fields| + 1 else 0
  {
    if Class(a) == Class(b) {
      hide CmpFloat, CmpBytes, CmpFloats;
      if a.Str? { BytesPair(a.bytes, b.bytes); }
      else if a.Dbl? { FloatFlips(a.d, b.d, total); }
      else if a.DblArray? { if |a.ds| == |b.ds| { FloatsFlip(a.ds, b.ds, total); } }
      else if a.Block? { if |a.fields| == |b.fields| { FieldsFlip(a, b, 0, total); } }
    }
  }

  lemma {:induction false} FieldsFlip(a: Value, b: Value, i: nat, total: bool)
    requires a.Block? && b.Block? && |a.fields| == |b.fields| && i <= |a.fields| && Plain(a) && Plain(b)
    ensures OrderFrom(b, a, i, total) == Flip(OrderFrom(a, b, i, total))
    decreases a, b, |a.fields| - i
  {
    hide Order;
    if i < |a.fields| {
      OrderFlips(a.fields[i], b.fields[i], total);
      FieldsFlip(a, b, i + 1, total);
    }
  }

  lemma CmpFlips(a: Value, b: Value, total: bool)
    requires Clean(a) && Clean(b)
    ensures Cmp(b, a, total) == Flip(Cmp(a, b, total))
  {
    hide Cmp, Order;
    NormIsPlain(a);
    NormIsPlain(b);
    CmpIsOrder(a, b, total);
    CmpIsOrder(b, a, total);
    OrderFlips(Norm(a), Norm(b), total);
  }

  /**
  The operators of one pair of values: at most one of less, equal and greater holds; when one
  does, it is the one `compare` tells; when none does, only `<>` holds.
  */
  lemma OperatorsAgree(a: Value, b: Value)
    ensures NotEqual(a, b) <==> !EqualTo(a, b)
    ensures LessEqual(a, b) <==> LessThan(a, b) || EqualTo(a, b)
    ensures GreaterEqual(a, b) <==> GreaterThan(a, b) || EqualTo(a, b)
    ensures !(LessThan(a, b) && EqualTo(a, b)) && !(LessThan(a, b) && GreaterThan(a, b)) && !(EqualTo(a, b) && GreaterThan(a, b))
    ensures LessThan(a, b) ==> Compare(a, b) == -1
    ensures EqualTo(a, b) ==> Compare(a, b) == 0
    ensures GreaterThan(a, b) ==> Compare(a, b) == 1
    ensures !LessThan(a, b) && !EqualTo(a, b) && !GreaterThan(a, b) <==> Cmp(a, b, false) == Unordered
  {
    hide Cmp;
    PartialAgrees(a, b);
  }

  /** The operators of a pair and of the pair turned round. */
  lemma OperatorsTurned(a: Value, b: Value)
    requires Clean(a) && Clean(b)
    ensures Compare(b, a) == -Compare(a, b) && (Compare(a, b) == 0 <==> Cmp(a, b, true) == Equal)
    ensures LessThan(a, b) <==> GreaterThan(b, a)
    ensures LessEqual(a, b) <==> GreaterEqual(b, a)
    ensures EqualTo(a, b) <==> EqualTo(b, a)
  {
    CmpFlips(a, b, true);
    CmpFlips(a, b, false);
    TotalPreorder(a, b, a);
    hide Cmp, Clean, Fits;
  }
}
