/**
Index arithmetic of bigarrays: where an element lies in the data, in both layouts, and
that slices, sub-arrays, layout changes and reshapings address the elements they should.
*/
module BigarrayIndex {
  import opened Options
  import opened Arithmetic

  /** Row-major with indices from 0, or column-major with indices from 1. */
  datatype Layout = CLayout | FortranLayout

  /** A view: its layout and dimensions, and the element of the buffer at which it starts. */
  datatype Bigarray = Bigarray(layout: Layout, dims: seq<nat>, start: nat)

  const MAX_NUM_DIMS: nat := 16

  // ----- Mixed-radix numbers -------------------------------------------------

  function Product(dims: seq<nat>): nat {
    if dims == [] then 1 else Product(dims[..|dims| - 1]) * dims[|dims| - 1]
  }

  predicate Below(idx: seq<nat>, dims: seq<nat>) {
    |idx| == |dims| && forall i :: 0 <= i < |idx| ==> idx[i] < dims[i]
  }

  /** The number with digits `idx` in the radices `dims`, the last digit being the lowest. */
  function Number(dims: seq<nat>, idx: seq<nat>): nat
    requires |idx| == |dims|
  {
    if dims == [] then 0
    else var n := |dims| - 1; Number(dims[..n], idx[..n]) * dims[n] + idx[n]
  }

  function Digits(dims: seq<nat>, k: nat): (idx: seq<nat>)
    requires k < Product(dims)
    ensures Below(idx, dims)
  {
    if dims == [] then []
    else
      var n := |dims| - 1;
      Quotient(k, Product(dims[..n]), dims[n]);
      Digits(dims[..n], k / dims[n]) + [k % dims[n]]
  }

  lemma Quotient(k: nat, p: nat, d: nat)
    requires k < p * d
    ensures d > 0 && k / d < p
  {
    assert d == 0 ==> p * d == 0;
    Times(p, if d > 0 && k / d >= p then k / d else p, d);
  }

  lemma {:induction false} NumberBelow(dims: seq<nat>, idx: seq<nat>)
    requires Below(idx, dims)
    ensures Number(dims, idx) < Product(dims)
  {
    if dims != [] {
      var n := |dims| - 1;
      NumberBelow(dims[..n], idx[..n]);
      Times(Number(dims[..n], idx[..n]) + 1, Product(dims[..n]), dims[n]);
      assert (Number(dims[..n], idx[..n]) + 1) * dims[n] == Number(dims[..n], idx[..n]) * dims[n] + dims[n];
    }
  }

  /** Digits and number determine each other. */
  lemma {:induction false} DigitsOfNumber(dims: seq<nat>, idx: seq<nat>)
    requires Below(idx, dims)
    ensures Number(dims, idx) < Product(dims) && Digits(dims, Number(dims, idx)) == idx
  {
    NumberBelow(dims, idx);
    if dims != [] {
      var n := |dims| - 1;
      DigitsOfNumber(dims[..n], idx[..n]);
      DivMod(Number(dims[..n], idx[..n]), dims[n], idx[n]);
      assert idx == idx[..n] + [idx[n]];
    }
  }

  lemma {:induction false} NumberOfDigits(dims: seq<nat>, k: nat)
    requires k < Product(dims)
    ensures Number(dims, Digits(dims, k)) == k
  {
    if dims != [] {
      var n := |dims| - 1;
      Quotient(k, Product(dims[..n]), dims[n]);
      NumberOfDigits(dims[..n], k / dims[n]);
      var idx := Digits(dims, k);
      assert idx[..n] == Digits(dims[..n], k / dims[n]) && idx[n] == k % dims[n];
    }
  }

  lemma {:induction false} ProductConcat(d1: seq<nat>, d2: seq<nat>)
    ensures Product(d1 + d2) == Product(d1) * Product(d2)
  {
    if d2 == [] {
      assert d1 + d2 == d1;
    } else {
      var n := |d2| - 1;
      ProductConcat(d1, d2[..n]);
      assert (d1 + d2)[..|d1| + n] == d1 + d2[..n];
      Assoc(Product(d1), Product(d2[..n]), d2[n]);
    }
  }

  lemma {:induction false} NumberConcat(d1: seq<nat>, d2: seq<nat>, i1: seq<nat>, i2: seq<nat>)
    requires |d1| == |i1| && |d2| == |i2|
    ensures Number(d1 + d2, i1 + i2) == Number(d1, i1) * Product(d2) + Number(d2, i2)
  {
    if d2 == [] {
      assert d1 + d2 == d1 && i1 + i2 == i1;
    } else {
      var n := |d2| - 1;
      NumberConcat(d1, d2[..n], i1, i2[..n]);
      assert (d1 + d2)[..|d1| + n] == d1 + d2[..n] && (i1 + i2)[..|d1| + n] == i1 + i2[..n];
      var a, p, x := Number(d1, i1), Product(d2[..n]), Number(d2[..n], i2[..n]);
      Spread(a * p, x, d2[n]);
      Assoc(a, p, d2[n]);
    }
  }

  lemma {:induction false} NumberOfZeros(dims: seq<nat>)
    ensures Number(dims, seq(|dims|, i => 0)) == 0
  {
    if dims != [] {
      var n := |dims| - 1;
      NumberOfZeros(dims[..n]);
      assert seq(|dims|, i => 0)[..n] == seq(n, i => 0);
    }
  }

  // ----- Offsets -------------------------------------------------------------

  function Reversed<T>(s: seq<T>): (r: seq<T>)
    ensures |r| == |s| && forall i :: 0 <= i < |s| ==> r[i] == s[|s| - 1 - i]
  {
    seq(|s|, i requires 0 <= i < |s| => s[|s| - 1 - i])
  }

  /** The smallest index. */
  function Base(layout: Layout): int {
    if layout.CLayout? then 0 else 1
  }

  predicate InDim(layout: Layout, x: int, dim: nat) {
    Base(layout) <= x < Base(layout) + dim
  }

  predicate InRange(b: Bigarray, idx: seq<int>) {
    |idx| == |b.dims| && forall i :: 0 <= i < |idx| ==> InDim(b.layout, idx[i], b.dims[i])
  }

  /** The dimension with the `i`-th slowest index. */
  function Dim(b: Bigarray, i: nat): (j: nat)
    requires i < |b.dims|
    ensures j < |b.dims| && (b.layout.CLayout? ==> j == i) && (b.layout.FortranLayout? ==> j == |b.dims| - 1 - i)
  {
    if b.layout.CLayout? then i else |b.dims| - 1 - i
  }

  /** The dimensions from the slowest to the fastest. */
  function Radices(b: Bigarray): (r: seq<nat>)
    ensures |r| == |b.dims| && forall i :: 0 <= i < |r| ==> r[i] == b.dims[Dim(b, i)]
  {
    seq(|b.dims|, i requires 0 <= i < |b.dims| => b.dims[Dim(b, i)])
  }

  /** The indices in the same order, counted from 0. */
  function DigitsOf(b: Bigarray, idx: seq<int>): (d: seq<nat>)
    requires InRange(b, idx)
    ensures |d| == |b.dims| && forall i :: 0 <= i < |d| ==> d[i] == idx[Dim(b, i)] - Base(b.layout)
  {
    seq(|idx|, i requires 0 <= i < |idx| => assert InDim(b.layout, idx[Dim(b, i)], b.dims[Dim(b, i)]); idx[Dim(b, i)] - Base(b.layout))
  }

  lemma DigitsBelow(b: Bigarray, idx: seq<int>)
    requires InRange(b, idx)
    ensures Below(DigitsOf(b, idx), Radices(b))
  {
    hide DigitsOf, Radices;
    forall i | 0 <= i < |b.dims| ensures DigitsOf(b, idx)[i] < Radices(b)[i] {
      assert InDim(b.layout, idx[Dim(b, i)], b.dims[Dim(b, i)]);
    }
  }

  /** The position of an element, counted from the start of the view. */
  function Position(b: Bigarray, idx: seq<int>): nat
    requires InRange(b, idx)
  {
    Number(Radices(b), DigitsOf(b, idx))
  }

  /** The element of the buffer that an index of the view stands for. */
  function Element(b: Bigarray, idx: seq<int>): nat
    requires InRange(b, idx)
  {
    b.start + Position(b, idx)
  }

  lemma NumberSnoc(dims: seq<nat>, idx: seq<nat>, i: nat)
    requires |idx| == |dims| && i < |dims|
    ensures Number(dims[..i + 1], idx[..i + 1]) == Number(dims[..i], idx[..i]) * dims[i] + idx[i]
    ensures Number(dims[..0], idx[..0]) == 0
  {
    assert dims[..i + 1][..i] == dims[..i] && idx[..i + 1][..i] == idx[..i];
  }

  /** The digits of an index that may be out of range. */
  ghost function Clamped(b: Bigarray, idx: seq<int>): (d: seq<nat>)
    requires |idx| == |b.dims|
    ensures |d| == |b.dims|
    ensures forall i :: 0 <= i < |d| ==> d[i] == if idx[Dim(b, i)] >= Base(b.layout) then idx[Dim(b, i)] - Base(b.layout) else 0
  {
    seq(|idx|, i requires 0 <= i < |idx| => if idx[Dim(b, i)] >= Base(b.layout) then idx[Dim(b, i)] - Base(b.layout) else 0)
  }

  lemma ClampedInRange(b: Bigarray, idx: seq<int>)
    requires InRange(b, idx)
    ensures Clamped(b, idx) == DigitsOf(b, idx)
  {
    hide Clamped, DigitsOf;
    forall i | 0 <= i < |b.dims| ensures Clamped(b, idx)[i] == DigitsOf(b, idx)[i] {
      assert InDim(b.layout, idx[Dim(b, i)], b.dims[Dim(b, i)]);
    }
  }

  /** `caml_ba_offset`: the position, or a bound error. */
  method Offset(b: Bigarray, idx: seq<int>) returns (offset: Option<nat>)
    requires |idx| == |b.dims|
    ensures offset.Some? <==> InRange(b, idx)
    ensures offset.Some? ==> offset.value == Position(b, idx)
  {
    hide Number, DigitsOf, Radices;
    if b.layout.CLayout? { offset := OffsetRowMajor(b, idx); } else { offset := OffsetColumnMajor(b, idx); }
  }

  method OffsetRowMajor(b: Bigarray, idx: seq<int>) returns (offset: Option<nat>)
    requires |idx| == |b.dims| && b.layout.CLayout?
    ensures offset.Some? <==> InRange(b, idx)
    ensures offset.Some? ==> offset.value == Position(b, idx)
  {
    hide Number, DigitsOf, Radices, Clamped;
    var n, k: nat := |b.dims|, 0;
    ghost var digits, radices := Clamped(b, idx), Radices(b);
    NumberOfNone();
    assert radices[..0] == [] && digits[..0] == [];
    for i := 0 to n
      invariant forall j :: 0 <= j < i ==> InDim(b.layout, idx[j], b.dims[j])
      invariant k == Number(radices[..i], digits[..i])
    {
      if idx[i] < 0 || idx[i] >= b.dims[i] {
        assert !InDim(b.layout, idx[i], b.dims[i]);
        return None;
      }
      NumberSnoc(radices, digits, i);
      assert Dim(b, i) == i;
      k := k * b.dims[i] + idx[i];
    }
    assert radices[..n] == radices && digits[..n] == digits;
    ClampedInRange(b, idx);
    return Some(k);
  }

  method OffsetColumnMajor(b: Bigarray, idx: seq<int>) returns (offset: Option<nat>)
    requires |idx| == |b.dims| && b.layout.FortranLayout?
    ensures offset.Some? <==> InRange(b, idx)
    ensures offset.Some? ==> offset.value == Position(b, idx)
  {
    hide Number, DigitsOf, Radices, Clamped;
    var n, k: nat := |b.dims|, 0;
    ghost var digits, radices := Clamped(b, idx), Radices(b);
    NumberOfNone();
    assert radices[..0] == [] && digits[..0] == [];
    for i := n downto 0
      invariant forall j :: i <= j < n ==> InDim(b.layout, idx[j], b.dims[j])
      invariant k == Number(radices[..n - i], digits[..n - i])
    {
      if idx[i] < 1 || idx[i] > b.dims[i] {
        assert !InDim(b.layout, idx[i], b.dims[i]);
        return None;
      }
      NumberSnoc(radices, digits, n - 1 - i);
      assert Dim(b, n - 1 - i) == i;
      k := k * b.dims[i] + (idx[i] - 1);
    }
    assert radices[..n] == radices && digits[..n] == digits;
    ClampedInRange(b, idx);
    return Some(k);
  }

  lemma NumberOfNone()
    ensures Number([], []) == 0
  {
  }

  // ----- Positions are exactly the numbers below the element count ------------

  function NumElts(b: Bigarray): nat {
    Product(b.dims)
  }

  lemma {:induction false} ProductReversed(dims: seq<nat>)
    ensures Product(Reversed(dims)) == Product(dims)
  {
    if dims != [] {
      var n := |dims| - 1;
      ProductReversed(dims[..n]);
      assert Reversed(dims) == [dims[n]] + Reversed(dims[..n]);
      ProductConcat([dims[n]], Reversed(dims[..n]));
      assert Product([dims[n]]) == dims[n] by { assert [dims[n]][..0] == []; }
    }
  }

  lemma RadicesCount(b: Bigarray)
    ensures Product(Radices(b)) == NumElts(b)
  {
    hide Product, Radices;
    ProductReversed(b.dims);
    assert Radices(b) == if b.layout.CLayout? then b.dims else Reversed(b.dims);
  }

  /** The index with given digits. */
  function FromDigits(b: Bigarray, d: seq<nat>): (idx: seq<int>)
    requires Below(d, Radices(b))
    ensures |idx| == |d| && forall j :: 0 <= j < |d| ==> idx[j] == d[Dim(b, j)] + Base(b.layout)
  {
    seq(|d|, j requires 0 <= j < |d| => d[Dim(b, j)] + Base(b.layout))
  }

  lemma FromDigitsInRange(b: Bigarray, d: seq<nat>)
    requires Below(d, Radices(b))
    ensures InRange(b, FromDigits(b, d))
  {
    hide FromDigits, Radices;
    forall j | 0 <= j < |d| ensures InDim(b.layout, FromDigits(b, d)[j], b.dims[j]) {
      assert Dim(b, Dim(b, j)) == j && d[Dim(b, j)] < Radices(b)[Dim(b, j)];
    }
  }

  lemma DigitsAndBack(b: Bigarray, idx: seq<int>)
    requires InRange(b, idx)
    ensures Below(DigitsOf(b, idx), Radices(b)) && FromDigits(b, DigitsOf(b, idx)) == idx
  {
    DigitsBelow(b, idx);
    hide FromDigits, Radices, DigitsOf, InRange;
    forall j | 0 <= j < |b.dims| ensures FromDigits(b, DigitsOf(b, idx))[j] == idx[j] {
      assert Dim(b, Dim(b, j)) == j;
    }
  }

  lemma IndexAndBack(b: Bigarray, d: seq<nat>)
    requires Below(d, Radices(b))
    ensures InRange(b, FromDigits(b, d)) && DigitsOf(b, FromDigits(b, d)) == d
  {
    FromDigitsInRange(b, d);
    hide FromDigits, Radices, DigitsOf, InRange;
    forall i | 0 <= i < |b.dims| ensures DigitsOf(b, FromDigits(b, d))[i] == d[i] {
      assert Dim(b, Dim(b, i)) == i;
    }
  }

  /** The index at a given position. */
  function IndexAt(b: Bigarray, k: nat): (idx: seq<int>)
    requires k < NumElts(b)
    ensures InRange(b, idx)
  {
    RadicesCount(b);
    FromDigitsInRange(b, Digits(Radices(b), k));
    FromDigits(b, Digits(Radices(b), k))
  }

  /** Positions run through the numbers below the element count, each for exactly one index. */
  lemma OffsetIsBijective(b: Bigarray, idx: seq<int>, k: nat)
    ensures InRange(b, idx) ==> Position(b, idx) < NumElts(b) && IndexAt(b, Position(b, idx)) == idx
    ensures k < NumElts(b) ==> Position(b, IndexAt(b, k)) == k
  {
    hide Number, Product, Digits, DigitsOf, FromDigits, InRange, Below, Radices;
    RadicesCount(b);
    if InRange(b, idx) {
      DigitsAndBack(b, idx);
      DigitsOfNumber(Radices(b), DigitsOf(b, idx));
    }
    if k < NumElts(b) {
      NumberOfDigits(Radices(b), k);
      IndexAndBack(b, Digits(Radices(b), k));
    }
  }

  // ----- Views ---------------------------------------------------------------

  /** `caml_ba_slice`: fix the first indices, or the last ones in column-major layout. */
  method Slice(b: Bigarray, fixed: seq<int>) returns (r: Option<Bigarray>)
    ensures r.Some? <==> |fixed| <= |b.dims| && InRange(b, Padded(b, fixed))
    ensures r.Some? ==> r.value == SliceOf(b, fixed)
  {
    hide InRange, Number, DigitsOf, Radices, Padded;
    if |fixed| > |b.dims| { return None; }
    var offset := Offset(b, Padded(b, fixed));
    if offset.None? { return None; }
    var dims := if b.layout.CLayout? then b.dims[|fixed|..] else b.dims[..|b.dims| - |fixed|];
    return Some(Bigarray(b.layout, dims, b.start + offset.value));
  }

  /** The fixed indices, and the smallest ones for the rest. */
  function Padded(b: Bigarray, fixed: seq<int>): (idx: seq<int>)
    requires |fixed| <= |b.dims|
    ensures |idx| == |b.dims|
  {
    var n := |b.dims| - |fixed|;
    if b.layout.CLayout? then fixed + seq(n, i => 0) else seq(n, i => 1) + fixed
  }

  function SliceOf(b: Bigarray, fixed: seq<int>): Bigarray
    requires |fixed| <= |b.dims| && InRange(b, Padded(b, fixed))
  {
    Bigarray(b.layout, if b.layout.CLayout? then b.dims[|fixed|..] else b.dims[..|b.dims| - |fixed|], Element(b, Padded(b, fixed)))
  }

  /** An index of the slice, completed by the fixed indices. */
  function Completed(b: Bigarray, fixed: seq<int>, idx: seq<int>): seq<int> {
    if b.layout.CLayout? then fixed + idx else idx + fixed
  }

  /** An element of a slice is the element of the array at the completed index. */
  lemma SliceAddresses(b: Bigarray, fixed: seq<int>, idx: seq<int>)
    requires |fixed| <= |b.dims| && InRange(b, Padded(b, fixed)) && InRange(SliceOf(b, fixed), idx)
    ensures InRange(b, Completed(b, fixed, idx))
    ensures Element(SliceOf(b, fixed), idx) == Element(b, Completed(b, fixed, idx))
  {
    hide Number, DigitsOf, Radices, Padded, Completed;
    CompletedInRange(b, fixed, idx);
    var v, n := SliceOf(b, fixed), |b.dims| - |fixed|;
    var d, f := SliceDigits(b, fixed, idx);
    NumberConcat(d, Radices(v), f, seq(n, i => 0));
    NumberConcat(d, Radices(v), f, DigitsOf(v, idx));
    NumberOfZeros(Radices(v));
  }

  lemma EntryInRange(b: Bigarray, idx: seq<int>, i: nat)
    requires InRange(b, idx) && i < |b.dims|
    ensures InDim(b.layout, idx[i], b.dims[i])
  {
  }

  lemma EntriesInRange(b: Bigarray, idx: seq<int>)
    requires |idx| == |b.dims| && forall i :: 0 <= i < |idx| ==> InDim(b.layout, idx[i], b.dims[i])
    ensures InRange(b, idx)
  {
    forall i | 0 <= i < |idx| ensures InDim(b.layout, idx[i], b.dims[i]) {}
  }

  lemma RadixAt(b: Bigarray, i: nat)
    requires i < |b.dims|
    ensures Radices(b)[i] == b.dims[Dim(b, i)]
  {
    hide Radices;
  }

  lemma DigitAt(b: Bigarray, idx: seq<int>, i: nat)
    requires InRange(b, idx) && i < |b.dims|
    ensures DigitsOf(b, idx)[i] == idx[Dim(b, i)] - Base(b.layout)
  {
    hide DigitsOf;
  }

  lemma CompletedInRange(b: Bigarray, fixed: seq<int>, idx: seq<int>)
    requires |fixed| <= |b.dims| && InRange(b, Padded(b, fixed)) && InRange(SliceOf(b, fixed), idx)
    ensures InRange(b, Completed(b, fixed, idx))
  {
    hide Element, InRange, InDim;
    var all, n := Completed(b, fixed, idx), |b.dims| - |fixed|;
    assert |idx| == n by { SliceLength(b, fixed, idx); }
    forall i | 0 <= i < |all| ensures InDim(b.layout, all[i], b.dims[i]) {
      EntryInRange(b, Padded(b, fixed), i);
      if b.layout.CLayout? {
        if i >= |fixed| { EntryInRange(SliceOf(b, fixed), idx, i - |fixed|); }
      } else {
        if i < n { EntryInRange(SliceOf(b, fixed), idx, i); }
      }
    }
    EntriesInRange(b, all);
  }

  lemma SliceLength(b: Bigarray, fixed: seq<int>, idx: seq<int>)
    requires |fixed| <= |b.dims| && InRange(b, Padded(b, fixed)) && InRange(SliceOf(b, fixed), idx)
    ensures |idx| == |b.dims| - |fixed| == |SliceOf(b, fixed).dims|
  {
  }

  lemma Tail(s: seq<nat>, m: nat, t: seq<nat>)
    requires |s| == m + |t| && forall i :: m <= i < |s| ==> s[i] == t[i - m]
    ensures s == s[..m] + t
  {
  }

  lemma EntryOfPadded(b: Bigarray, fixed: seq<int>, idx: seq<int>, i: nat)
    requires |fixed| <= |b.dims| && |idx| == |b.dims| - |fixed| && i < |b.dims|
    ensures |Completed(b, fixed, idx)| == |b.dims|
    ensures var j := Dim(b, i);
      if i < |fixed| then Completed(b, fixed, idx)[j] == Padded(b, fixed)[j]
      else Padded(b, fixed)[j] == Base(b.layout)
  {
  }

  lemma EntryOfSlice(b: Bigarray, fixed: seq<int>, idx: seq<int>, v: Bigarray, i: nat)
    requires |fixed| <= |b.dims| && |idx| == |b.dims| - |fixed| && |fixed| <= i < |b.dims| && v.layout == b.layout
    requires v.dims == if b.layout.CLayout? then b.dims[|fixed|..] else b.dims[..|b.dims| - |fixed|]
    ensures |Completed(b, fixed, idx)| == |b.dims| && |v.dims| == |idx|
    ensures var j, k := Dim(b, i), Dim(v, i - |fixed|);
      v.dims[k] == b.dims[j] && Completed(b, fixed, idx)[j] == idx[k]
  {
  }

  /** Entry `i` of an array's index, when a slice is taken. */
  lemma SliceEntry(b: Bigarray, fixed: seq<int>, idx: seq<int>, i: nat)
    requires |fixed| <= |b.dims| && InRange(b, Padded(b, fixed)) && InRange(SliceOf(b, fixed), idx)
    requires InRange(b, Completed(b, fixed, idx)) && i < |b.dims|
    ensures var v, m := SliceOf(b, fixed), |fixed|;
      if i < m then DigitsOf(b, Completed(b, fixed, idx))[i] == DigitsOf(b, Padded(b, fixed))[i]
      else && i - m < |v.dims| == |idx| && Radices(b)[i] == Radices(v)[i - m]
           && DigitsOf(b, Padded(b, fixed))[i] == 0
           && DigitsOf(b, Completed(b, fixed, idx))[i] == DigitsOf(v, idx)[i - m]
  {
    hide Element, Number, InRange, DigitsOf, Radices, Padded, Completed, Dim;
    SliceLength(b, fixed, idx);
    var v, m := SliceOf(b, fixed), |fixed|;
    RadixAt(b, i);
    DigitAt(b, Padded(b, fixed), i);
    DigitAt(b, Completed(b, fixed, idx), i);
    EntryOfPadded(b, fixed, idx, i);
    if i >= m {
      EntryOfSlice(b, fixed, idx, v, i);
      RadixAt(v, i - m);
      DigitAt(v, idx, i - m);
    }
  }

  /** The digits of the fixed indices come first in both layouts. */
  lemma SliceDigits(b: Bigarray, fixed: seq<int>, idx: seq<int>) returns (d: seq<nat>, f: seq<nat>)
    requires |fixed| <= |b.dims| && InRange(b, Padded(b, fixed)) && InRange(SliceOf(b, fixed), idx)
    requires InRange(b, Completed(b, fixed, idx))
    ensures |d| == |f| && Radices(b) == d + Radices(SliceOf(b, fixed))
    ensures DigitsOf(b, Padded(b, fixed)) == f + seq(|b.dims| - |fixed|, i => 0)
    ensures DigitsOf(b, Completed(b, fixed, idx)) == f + DigitsOf(SliceOf(b, fixed), idx)
  {
    hide Element, Number, InRange, DigitsOf, Radices, Padded, Completed, SliceOf;
    SliceLength(b, fixed, idx);
    var v, m, n := SliceOf(b, fixed), |fixed|, |b.dims| - |fixed|;
    var r, p, c, w := Radices(b), DigitsOf(b, Padded(b, fixed)), DigitsOf(b, Completed(b, fixed, idx)), DigitsOf(v, idx);
    forall i | 0 <= i < |b.dims|
      ensures i >= m ==> r[i] == Radices(v)[i - m] && p[i] == 0 && c[i] == w[i - m]
      ensures i < m ==> c[i] == p[i]
    {
      SliceEntry(b, fixed, idx, i);
    }
    d, f := r[..m], p[..m];
    Tail(r, m, Radices(v));
    Tail(p, m, seq(n, i => 0));
    Tail(c, m, w);
    assert c[..m] == f;
  }

  // ----- Sub-arrays ----------------------------------------------------------

  /** The offset of the sub-array, counted from 0, in the dimension that varies slowest. */
  function FromZero(b: Bigarray, ofs: int): int {
    if b.layout.CLayout? then ofs else ofs - 1
  }

  function SubOf(b: Bigarray, ofs: nat, len: nat): Bigarray
    requires |b.dims| > 0
  {
    Bigarray(b.layout, b.dims[Dim(b, 0) := len], b.start + ofs * Product(Radices(b)[1..]))
  }

  /** `caml_ba_sub`: part of the slowest dimension. */
  method Sub(b: Bigarray, ofs: int, len: int) returns (r: Option<Bigarray>)
    requires |b.dims| > 0
    ensures r.Some? <==> 0 <= len && Base(b.layout) <= ofs && ofs + len <= Base(b.layout) + b.dims[Dim(b, 0)]
    ensures r.Some? ==> r.value == SubOf(b, ofs - Base(b.layout), len)
  {
    hide Product;
    var mul, n := 1, |b.dims|;
    ghost var rest := if b.layout.CLayout? then b.dims[1..] else b.dims[..n - 1];
    ProductOfNone();
    assert rest[..0] == [];
    for i := 0 to n - 1
      invariant mul == Product(rest[..i])
    {
      ProductSnoc(rest, i);
      mul := mul * if b.layout.CLayout? then b.dims[i + 1] else b.dims[i];
    }
    assert rest[..n - 1] == rest;
    ProductReversed(rest);
    assert Radices(b)[1..] == if b.layout.CLayout? then rest else Reversed(rest);
    var first := FromZero(b, ofs);
    var changed := if b.layout.CLayout? then 0 else n - 1;
    if first < 0 || len < 0 || first + len > b.dims[changed] { return None; }
    return Some(Bigarray(b.layout, b.dims[changed := len], b.start + first * mul));
  }

  lemma ProductOfNone()
    ensures Product([]) == 1
  {
  }

  lemma ProductSnoc(dims: seq<nat>, i: nat)
    requires i < |dims|
    ensures Product(dims[..i + 1]) == Product(dims[..i]) * dims[i]
  {
    assert dims[..i + 1][..i] == dims[..i];
  }

  /** The index in the whole array of an index of the sub-array. */
  function Shifted(b: Bigarray, idx: seq<int>, ofs: int): seq<int>
    requires |idx| == |b.dims| > 0
  {
    idx[Dim(b, 0) := idx[Dim(b, 0)] + ofs]
  }

  lemma {:induction false} NumberHead(dims: seq<nat>, idx: seq<nat>)
    requires |idx| == |dims| > 0
    ensures Number(dims, idx) == idx[0] * Product(dims[1..]) + Number(dims[1..], idx[1..])
  {
    assert dims == [dims[0]] + dims[1..] && idx == [idx[0]] + idx[1..];
    NumberConcat([dims[0]], dims[1..], [idx[0]], idx[1..]);
    assert Number([dims[0]], [idx[0]]) == idx[0] by { assert [dims[0]][..0] == []; }
  }

  lemma ShiftedInRange(b: Bigarray, ofs: nat, len: nat, idx: seq<int>)
    requires |b.dims| > 0 && ofs + len <= b.dims[Dim(b, 0)] && InRange(SubOf(b, ofs, len), idx)
    ensures InRange(b, Shifted(b, idx, ofs))
  {
    var v, all := SubOf(b, ofs, len), Shifted(b, idx, ofs);
    hide Product, InRange;
    assert |idx| == |b.dims| by { EntryCount(v, idx); }
    forall i | 0 <= i < |all| ensures InDim(b.layout, all[i], b.dims[i]) { EntryInRange(v, idx, i); }
    EntriesInRange(b, all);
  }

  lemma EntryCount(b: Bigarray, idx: seq<int>)
    requires InRange(b, idx)
    ensures |idx| == |b.dims|
  {
  }

  lemma SubEntry(b: Bigarray, ofs: nat, len: nat, idx: seq<int>, i: nat)
    requires |b.dims| > 0 && ofs + len <= b.dims[Dim(b, 0)] && InRange(SubOf(b, ofs, len), idx)
    requires InRange(b, Shifted(b, idx, ofs)) && i < |b.dims|
    ensures var v := SubOf(b, ofs, len);
      && DigitsOf(b, Shifted(b, idx, ofs))[i] == DigitsOf(v, idx)[i] + (if i == 0 then ofs else 0)
      && (i > 0 ==> Radices(v)[i] == Radices(b)[i])
  {
    var v := SubOf(b, ofs, len);
    hide Product, InRange, DigitsOf, Radices;
    RadixAt(b, i);
    RadixAt(v, i);
    DigitAt(b, Shifted(b, idx, ofs), i);
    DigitAt(v, idx, i);
  }

  /** An element of a sub-array is the element of the array at the shifted index. */
  lemma SubAddresses(b: Bigarray, ofs: nat, len: nat, idx: seq<int>)
    requires |b.dims| > 0 && ofs + len <= b.dims[Dim(b, 0)] && InRange(SubOf(b, ofs, len), idx)
    ensures InRange(b, Shifted(b, idx, ofs))
    ensures Element(SubOf(b, ofs, len), idx) == Element(b, Shifted(b, idx, ofs))
  {
    hide Number, Product, InRange, DigitsOf, Radices, Shifted, Dim;
    var v := SubOf(b, ofs, len);
    EntryCount(v, idx);
    ShiftedInRange(b, ofs, len, idx);
    var r, w, x, y := Radices(b), Radices(v), DigitsOf(b, Shifted(b, idx, ofs)), DigitsOf(v, idx);
    SubDigits(b, ofs, len, idx);
    NumberHead(r, x);
    NumberHead(w, y);
    Spread(y[0], ofs, Product(r[1..]));
  }

  lemma SubDigits(b: Bigarray, ofs: nat, len: nat, idx: seq<int>)
    requires |b.dims| > 0 && ofs + len <= b.dims[Dim(b, 0)] && InRange(SubOf(b, ofs, len), idx)
    requires InRange(b, Shifted(b, idx, ofs))
    ensures var v := SubOf(b, ofs, len); var x, y := DigitsOf(b, Shifted(b, idx, ofs)), DigitsOf(v, idx);
      |v.dims| == |x| == |y| == |b.dims| && x[0] == y[0] + ofs && x[1..] == y[1..] && Radices(v)[1..] == Radices(b)[1..]
  {
    hide Number, Product, InRange, DigitsOf, Radices, Shifted, Dim;
    var v := SubOf(b, ofs, len);
    EntryCount(v, idx);
    var x, y := DigitsOf(b, Shifted(b, idx, ofs)), DigitsOf(v, idx);
    forall i | 0 <= i < |b.dims|
      ensures x[i] == y[i] + (if i == 0 then ofs else 0) && (i > 0 ==> Radices(v)[i] == Radices(b)[i])
    {
      SubEntry(b, ofs, len, idx, i);
    }
    assert x[1..] == y[1..] && Radices(v)[1..] == Radices(b)[1..];
  }

  /** Indices begin with 0 in one layout and with 1 in the other; the slowest is the first or the last. */
  lemma LayoutTable(b: Bigarray)
    ensures Base(CLayout) == 0 && Base(FortranLayout) == 1
    ensures b.dims != [] && b.layout.CLayout? ==> Dim(b, 0) == 0
    ensures b.dims != [] && b.layout.FortranLayout? ==> Dim(b, 0) == |b.dims| - 1
  {
  }

  // ----- Changing the layout -------------------------------------------------

  function OtherLayout(b: Bigarray): Bigarray {
    Bigarray(if b.layout.CLayout? then FortranLayout else CLayout, Reversed(b.dims), b.start)
  }

  /** The index of the same element after the layout has changed. */
  function OtherIndex(b: Bigarray, idx: seq<int>): (r: seq<int>)
    ensures |r| == |idx|
    ensures forall i :: 0 <= i < |idx| ==> r[i] == idx[|idx| - 1 - i] - Base(b.layout) + Base(OtherLayout(b).layout)
  {
    seq(|idx|, i requires 0 <= i < |idx| => idx[|idx| - 1 - i] - Base(b.layout) + Base(OtherLayout(b).layout))
  }

  lemma OtherInRange(b: Bigarray, idx: seq<int>)
    requires InRange(b, idx)
    ensures InRange(OtherLayout(b), OtherIndex(b, idx))
  {
    hide OtherIndex, Reversed;
    forall i | 0 <= i < |idx| ensures InDim(OtherLayout(b).layout, OtherIndex(b, idx)[i], OtherLayout(b).dims[i]) {
      assert InDim(b.layout, idx[|idx| - 1 - i], b.dims[|idx| - 1 - i]);
    }
  }

  /** A change of layout reverses the indices and leaves every element in its place. */
  lemma ChangeLayoutAddresses(b: Bigarray, idx: seq<int>)
    requires InRange(b, idx)
    ensures InRange(OtherLayout(b), OtherIndex(b, idx))
    ensures Element(OtherLayout(b), OtherIndex(b, idx)) == Element(b, idx)
    ensures OtherLayout(OtherLayout(b)) == b
  {
    hide Number, Radices, DigitsOf, InRange, OtherIndex, Reversed;
    OtherInRange(b, idx);
    assert Reversed(Reversed(b.dims)) == b.dims;
    var v, idx' := OtherLayout(b), OtherIndex(b, idx);
    EntryCount(b, idx);
    EntryCount(v, idx');
    forall i | 0 <= i < |b.dims| ensures Radices(v)[i] == Radices(b)[i] && DigitsOf(v, idx')[i] == DigitsOf(b, idx)[i] {
      RadixAt(v, i);
      RadixAt(b, i);
      DigitAt(v, idx', i);
      DigitAt(b, idx, i);
    }
    assert Radices(v) == Radices(b);
    assert DigitsOf(v, idx') == DigitsOf(b, idx);
  }

  // ----- Sizes and reshaping -------------------------------------------------

  /** No multiplication on the way to the size overflows. */
  predicate Fits(dims: seq<nat>, eltSize: nat) {
    && (forall n :: 0 <= n <= |dims| ==> Product(dims[..n]) < WORD)
    && Product(dims) * eltSize < WORD
  }

  /** The checks of `caml_ba_alloc`: the size in bytes, or out of memory. */
  method Size(dims: seq<nat>, eltSize: nat) returns (size: Option<nat>)
    ensures size.Some? <==> Fits(dims, eltSize)
    ensures size.Some? ==> size.value == Product(dims) * eltSize
  {
    hide Product;
    ProductOfNone();
    var num := 1;
    assert dims[..0] == [];
    for i := 0 to |dims|
      invariant num == Product(dims[..i]) && forall n :: 0 <= n <= i ==> Product(dims[..n]) < WORD
    {
      ProductSnoc(dims, i);
      num := num * dims[i];
      if num >= WORD { return None; }
    }
    assert dims[..|dims|] == dims;
    if num * eltSize >= WORD { return None; }
    return Some(num * eltSize);
  }

  /** A product in machine words. */
  function Wrapped(dims: seq<nat>): nat {
    if dims == [] then 1 else Wrapped(dims[..|dims| - 1]) * dims[|dims| - 1] % WORD
  }

  lemma {:induction false} WrappedIsExact(dims: seq<nat>)
    requires forall n :: 0 <= n <= |dims| ==> Product(dims[..n]) < WORD
    ensures Wrapped(dims) == Product(dims)
  {
    if dims != [] {
      var n := |dims| - 1;
      forall m | 0 <= m <= n ensures Product(dims[..n][..m]) < WORD { assert dims[..n][..m] == dims[..m]; }
      WrappedIsExact(dims[..n]);
      assert dims[..|dims|] == dims;
    }
  }

  /** Where no dimension is zero, the products only grow. */
  lemma {:induction false} ProductGrows(dims: seq<nat>, n: nat)
    requires n <= |dims| && forall i :: 0 <= i < |dims| ==> dims[i] > 0
    ensures 0 < Product(dims[..n]) <= Product(dims)
    decreases |dims| - n
  {
    if n == |dims| {
      assert dims[..n] == dims;
      ProductPositive(dims);
    } else {
      ProductGrows(dims, n + 1);
      ProductSnoc(dims, n);
      ProductPositive(dims[..n]);
      Times(1, dims[n], Product(dims[..n]));
    }
  }

  lemma {:induction false} ProductPositive(dims: seq<nat>)
    requires forall i :: 0 <= i < |dims| ==> dims[i] > 0
    ensures Product(dims) > 0
  {
    if dims != [] { ProductPositive(dims[..|dims| - 1]); }
  }

  predicate Positive(dims: seq<int>) {
    forall i :: 0 <= i < |dims| ==> dims[i] > 0
  }

  predicate NonNegative(dims: seq<int>) {
    forall i :: 0 <= i < |dims| ==> dims[i] >= 0
  }

  lemma PositiveFits(dims: seq<nat>, b: Bigarray, eltSize: nat)
    requires Fits(b.dims, eltSize) && Positive(dims) && Product(dims) == NumElts(b)
    ensures Fits(dims, eltSize)
  {
    assert b.dims[..|b.dims|] == b.dims;
    forall n | 0 <= n <= |dims| ensures Product(dims[..n]) < WORD { ProductGrows(dims, n); }
  }

  /**
  `caml_ba_reshape`. The element counts are compared in machine words, without a check for
  overflow; the checks of the allocation make up for that, so the exact counts agree.
  */
  method Reshape(b: Bigarray, dims: seq<int>, eltSize: nat) returns (r: Option<Bigarray>)
    requires Fits(b.dims, eltSize)
    ensures r.Some? ==> NonNegative(dims) && r.value == Bigarray(b.layout, dims, b.start) && Product(dims) == NumElts(b)
    ensures r.Some? <==>
      |dims| <= 16 && NonNegative(dims) && Product(dims) == NumElts(b) && Fits(dims, eltSize)
    ensures |dims| <= 16 && Positive(dims) && Product(dims) == NumElts(b) ==> r.Some?
  {
    hide Product, Fits;
    if |dims| > MAX_NUM_DIMS { return None; }
    var num: nat := 1;
    NoneWrapped();
    assert dims[..0] == [];
    for i := 0 to |dims|
      invariant NonNegative(dims[..i]) && num == Wrapped(dims[..i])
    {
      if dims[i] < 0 {
        assert !Positive(dims);
        return None;
      }
      assert dims[..i + 1][..i] == dims[..i];
      num := num * dims[i] % WORD;
    }
    assert dims[..|dims|] == dims;
    FitsExactly(b.dims, eltSize);
    if Positive(dims) && Product(dims) == NumElts(b) { PositiveFits(dims, b, eltSize); }
    if Fits(dims, eltSize) { FitsExactly(dims, eltSize); }
    if num != Wrapped(b.dims) { return None; }
    var size := Size(dims, eltSize);
    if size.None? { return None; }
    return Some(Bigarray(b.layout, dims, b.start));
  }

  lemma NoneWrapped()
    ensures Wrapped([]) == 1
  {
  }

  lemma FitsExactly(dims: seq<nat>, eltSize: nat)
    requires Fits(dims, eltSize)
    ensures Wrapped(dims) == Product(dims)
  {
    WrappedIsExact(dims);
  }

  /** Reshaping keeps the order of the elements: the same position is the same element. */
  lemma ReshapeKeepsOrder(b: Bigarray, v: Bigarray, k: nat)
    requires v.start == b.start && NumElts(v) == NumElts(b) && k < NumElts(b)
    ensures Element(v, IndexAt(v, k)) == Element(b, IndexAt(b, k)) == b.start + k
  {
    hide Number, Product, IndexAt, Position, InRange;
    OffsetIsBijective(b, [], k);
    OffsetIsBijective(v, [], k);
  }

  /** The unchecked product alone would not do: too many elements may seem to be none. */
  lemma WrappedAlone()
    ensures Wrapped([0x1_0000_0000, 0x1_0000_0000]) == 0 && Product([0x1_0000_0000, 0x1_0000_0000]) == WORD
    ensures !Fits([0x1_0000_0000, 0x1_0000_0000], 1)
  {
    var d := [0x1_0000_0000, 0x1_0000_0000];
    assert d[..1] == [0x1_0000_0000] && d[..1][..0] == [];
    assert Product(d[..1]) == 0x1_0000_0000 && Wrapped(d[..1]) == 0x1_0000_0000;
    assert d[..2] == d;
  }

  // ----- Allocating views ----------------------------------------------------

  /**
  `caml_ba_change_layout`. The view is allocated, and the check of the allocation multiplies
  the dimensions in their new order.
  */
  method ChangeLayout(b: Bigarray, layout: Layout, eltSize: nat) returns (r: Option<Bigarray>)
    ensures r.Some? <==> layout == b.layout || Fits(Reversed(b.dims), eltSize)
    ensures r.Some? ==> r.value == if layout == b.layout then b else OtherLayout(b)
  {
    hide Fits, Reversed;
    if layout == b.layout { return Some(b); }
    var dims: seq<nat> := [];
    for i := 0 to |b.dims|
      invariant |dims| == i && forall j :: 0 <= j < i ==> dims[j] == b.dims[|b.dims| - 1 - j]
    {
      dims := dims + [b.dims[|b.dims| - i - 1]];
    }
    assert dims == Reversed(b.dims);
    var size := Size(dims, eltSize);
    if size.None? { return None; }
    return Some(Bigarray(layout, dims, b.start));
  }

  /** The first dimension that is zero, or the number of dimensions. */
  function FirstZero(dims: seq<nat>): (n: nat)
    ensures n <= |dims| && Positive(dims[..n]) && (n < |dims| ==> dims[n] == 0)
  {
    if dims == [] || dims[0] == 0 then 0 else 1 + FirstZero(dims[1..])
  }

  lemma {:induction false} ProductWithZero(dims: seq<nat>, i: nat)
    requires i < |dims| && dims[i] == 0
    ensures Product(dims) == 0
  {
    var n := |dims| - 1;
    if i < n { ProductWithZero(dims[..n], i); }
  }

  /**
  Only the dimensions before the first zero are ever multiplied: the size is checked to fit
  exactly when their product does.
  */
  lemma FitsUpToZero(dims: seq<nat>, eltSize: nat)
    ensures Fits(dims, eltSize) <==> Product(dims[..FirstZero(dims)]) < WORD && Product(dims) * eltSize < WORD
  {
    hide FirstZero, Product;
    var z := FirstZero(dims);
    if Product(dims[..z]) < WORD {
      forall n | 0 <= n <= |dims| ensures Product(dims[..n]) < WORD {
        if n <= z {
          assert dims[..z][..n] == dims[..n];
          ProductGrows(dims[..z], n);
        } else {
          ProductWithZero(dims[..n], z);
        }
      }
    }
  }

  /**
  An array that could be allocated can change its layout exactly when the dimensions behind
  its last zero do not overflow; without a zero dimension, always.
  */
  lemma ChangeLayoutFits(b: Bigarray, eltSize: nat)
    requires Fits(b.dims, eltSize)
    ensures var dims := Reversed(b.dims); Fits(dims, eltSize) <==> Product(dims[..FirstZero(dims)]) < WORD
    ensures Positive(b.dims) ==> Fits(Reversed(b.dims), eltSize)
  {
    hide Reversed, FirstZero, Product;
    ProductReversed(b.dims);
    assert b.dims[..|b.dims|] == b.dims;
    FitsUpToZero(Reversed(b.dims), eltSize);
    if Positive(b.dims) { PositiveFits(Reversed(b.dims), b, eltSize); }
  }

  /** With one it may not: an empty array, allocated without complaint, runs out of memory. */
  lemma EmptyMayNotChangeLayout()
    ensures Fits([0, 0x100_0000_0000, 0x100_0000_0000], 8)
    ensures !Fits(Reversed([0, 0x100_0000_0000, 0x100_0000_0000]), 8)
  {
    var d: seq<nat> := [0, 0x100_0000_0000, 0x100_0000_0000];
    FitsUpToZero(d, 8);
    assert d[..0] == [];
    ProductWithZero(d, 0);
    var r := Reversed(d);
    assert r[..2][..1] == [r[0]] && r[..1] == [r[0]] && [r[0]][..0] == [];
    assert Product(r[..1]) == 0x100_0000_0000;
    assert Product(r[..2]) == 0x100_0000_0000 * 0x100_0000_0000;
  }

  lemma {:induction false} ProductMonotone(d1: seq<nat>, d2: seq<nat>)
    requires |d1| == |d2| && forall i :: 0 <= i < |d1| ==> d1[i] <= d2[i]
    ensures Product(d1) <= Product(d2)
  {
    if d1 != [] {
      var n := |d1| - 1;
      ProductMonotone(d1[..n], d2[..n]);
      Times(Product(d1[..n]), Product(d2[..n]), d1[n]);
      Times(d1[n], d2[n], Product(d2[..n]));
    }
  }

  /** A sub-array stays within the check, which is made with the dimensions of the whole array. */
  lemma SubFits(b: Bigarray, ofs: nat, len: nat, eltSize: nat)
    requires |b.dims| > 0 && ofs + len <= b.dims[Dim(b, 0)] && Fits(b.dims, eltSize)
    ensures Fits(SubOf(b, ofs, len).dims, eltSize)
  {
    hide Product;
    var dims := SubOf(b, ofs, len).dims;
    forall n | 0 <= n <= |dims| ensures Product(dims[..n]) < WORD { ProductMonotone(dims[..n], b.dims[..n]); }
    ProductMonotone(dims, b.dims);
    Times(Product(dims), Product(b.dims), eltSize);
  }

  /** The allocation of a slice never runs into it: when there is a slice, no dimension is zero. */
  lemma SliceFits(b: Bigarray, fixed: seq<int>, eltSize: nat)
    requires |fixed| <= |b.dims| && InRange(b, Padded(b, fixed)) && Fits(b.dims, eltSize)
    ensures Fits(SliceOf(b, fixed).dims, eltSize)
  {
    hide Product, Padded, InRange, Element;
    var k := |b.dims| - |fixed|;
    var front := if b.layout.CLayout? then b.dims[..|fixed|] else b.dims[k..];
    var dims := SliceOf(b, fixed).dims;
    forall i | 0 <= i < |b.dims| ensures b.dims[i] > 0 { EntryInRange(b, Padded(b, fixed), i); }
    assert b.dims == if b.layout.CLayout? then front + dims else dims + front;
    ProductConcat(front, dims);
    ProductConcat(dims, front);
    ProductPositive(front);
    ProductPositive(dims);
    Times(1, Product(front), Product(dims));
    assert b.dims[..|b.dims|] == b.dims;
    forall n | 0 <= n <= |dims| ensures Product(dims[..n]) < WORD { ProductGrows(dims, n); }
    Times(Product(dims), Product(b.dims), eltSize);
  }
}
