/**
Structural comparison of values. The runtime walks both values with an explicit stack and
looks through forwarding blocks on the way; here the walk is related to a plain recursive
comparison, and that to a lexicographic order on values without forwarding blocks.
*/
module StructuralCompare {

  // ----- Floats --------------------------------------------------------------

  type Half = x: nat | x < 0x1_0000_0000

  /** A double by the two halves of its 64 bits. */
  datatype Float = Float(hi: Half, lo: Half)

  predicate IsNaN(d: Float) {
    d.hi % 0x8000_0000 / 0x10_0000 == 0x7FF && (d.lo != 0 || d.hi % 0x10_0000 != 0)
  }

  /** Doubles that are no NaNs are ordered like these integers; both zeros have key 0. */
  function Key(d: Float): int {
    var magnitude := (d.hi % 0x8000_0000) * 0x1_0000_0000 + d.lo;
    if d.hi >= 0x8000_0000 then -magnitude else magnitude
  }

  /** `d1 < d2` */
  predicate FloatLess(d1: Float, d2: Float) {
    !IsNaN(d1) && !IsNaN(d2) && Key(d1) < Key(d2)
  }

  /** `d1 == d2` */
  predicate FloatSame(d1: Float, d2: Float) {
    !IsNaN(d1) && !IsNaN(d2) && Key(d1) == Key(d2)
  }

  // ----- Outcomes ------------------------------------------------------------

  datatype Ord = Less | Equal | Greater | Unordered

  function By(a: int, b: int): Ord {
    if a < b then Less else if a > b then Greater else Equal
  }

  function Then(a: Ord, b: Ord): Ord {
    if a == Equal then b else a
  }

  function Flip(a: Ord): Ord {
    match a
    case Less => Greater
    case Greater => Less
    case Equal => Equal
    case Unordered => Unordered
  }

  function CmpFloat(d1: Float, d2: Float, total: bool): Ord {
    if FloatLess(d1, d2) then Less
    else if FloatLess(d2, d1) then Greater
    else if FloatSame(d1, d2) then Equal
    else if !total then Unordered
    else if FloatSame(d1, d1) then Greater
    else if FloatSame(d2, d2) then Less
    else Equal
  }

  function CmpFloats(s: seq<Float>, t: seq<Float>, total: bool): Ord
    requires |s| == |t|
  {
    if s == [] then Equal else Then(CmpFloat(s[0], t[0], total), CmpFloats(s[1..], t[1..], total))
  }

  /** Bytes in turn, as `memcmp` does, then the lengths. */
  function CmpBytes(s: seq<nat>, t: seq<nat>): Ord {
    if s == [] || t == [] then By(|s|, |t|) else Then(By(s[0], t[0]), CmpBytes(s[1..], t[1..]))
  }

  // ----- Values --------------------------------------------------------------

  /** Tags of blocks that are compared field by field. */
  type Tag = t: nat | t <= 244 || t == 246

  datatype Value =
    | Null
    | Int(n: int)
    | Str(bytes: seq<nat>)
    | Dbl(d: Float)
    | DblArray(ds: seq<Float>)
    | Object(oid: int)
    | Block(tag: Tag, fields: seq<Value>)
    | Forward(v: Value)

  predicate IsLong(v: Value) {
    v.Null? || v.Int?
  }

  function TagOf(v: Value): nat
    requires !IsLong(v)
  {
    match v
    case Str(_) => 252
    case Dbl(_) => 253
    case DblArray(_) => 254
    case Object(_) => 248
    case Block(tag, _) => tag
    case Forward(_) => 250
  }

  // ----- The comparison, by recursion ----------------------------------------

  function Cmp(v1: Value, v2: Value, total: bool): Ord
    decreases v1, v2, if v1.Block? then |v1.fields| + 1 else 0
  {
    if v1.Null? then (if v2.Null? then Equal else Less)
    else if v1.Int? then
      if v2.Null? then Greater
      else if v2.Int? then By(v1.n, v2.n)
      else if v2.Forward? then Cmp(v1, v2.v, total)
      else Less
    else if IsLong(v2) then (if v1.Forward? then Cmp(v1.v, v2, total) else Greater)
    else if v1.Forward? then Cmp(v1.v, if v2.Forward? then v2.v else v2, total)
    else if v2.Forward? then Cmp(v1, v2.v, total)
    else if TagOf(v1) != TagOf(v2) then By(TagOf(v1), TagOf(v2))
    else match v1
      case Str(s) => CmpBytes(s, v2.bytes)
      case Dbl(d) => CmpFloat(d, v2.d, total)
      case DblArray(ds) => if |ds| != |v2.ds| then By(|ds|, |v2.ds|) else CmpFloats(ds, v2.ds, total)
      case Object(oid) => By(oid, v2.oid)
      case Block(_, fs) => if |fs| != |v2.fields| then By(|fs|, |v2.fields|) else CmpFrom(v1, v2, 0, total)
  }

  /** The fields of two blocks from `i` on. */
  function CmpFrom(v1: Value, v2: Value, i: nat, total: bool): Ord
    requires v1.Block? && v2.Block? && |v1.fields| == |v2.fields| && i <= |v1.fields|
    decreases v1, v2, |v1.fields| - i
  {
    if i == |v1.fields| then Equal
    else Then(Cmp(v1.fields[i], v2.fields[i], total), CmpFrom(v1, v2, i + 1, total))
  }

  // ----- The order it is meant to be -----------------------------------------

  /** The value without its forwarding blocks. */
  function Norm(v: Value): (r: Value)
    ensures !r.Forward?
  {
    match v
    case Forward(w) => Norm(w)
    case Block(tag, fs) => Block(tag, seq(|fs|, i requires 0 <= i < |fs| => Norm(fs[i])))
    case Null => v
    case Int(_) => v
    case Str(_) => v
    case Dbl(_) => v
    case DblArray(_) => v
    case Object(_) => v
  }

  /** No forwarding block leads to null. */
  predicate Clean(v: Value) {
    match v
    case Forward(w) => Clean(w) && !Norm(w).Null?
    case Block(_, fs) => forall i :: 0 <= i < |fs| ==> Clean(fs[i])
    case Null => true
    case Int(_) => true
    case Str(_) => true
    case Dbl(_) => true
    case DblArray(_) => true
    case Object(_) => true
  }

  /** Null comes first, then integers, then blocks by their tags. */
  function Class(v: Value): int {
    if v.Null? then -2 else if v.Int? then -1 else TagOf(v)
  }

  /** Values without forwarding blocks: by class, then by size and contents. */
  function Order(v1: Value, v2: Value, total: bool): Ord
    requires !v1.Forward? && !v2.Forward?
    decreases v1, v2, if v1.Block? then |v1.fields| + 1 else 0
  {
    Then(By(Class(v1), Class(v2)),
         if Class(v1) != Class(v2) then Equal
         else match v1
           case Null => Equal
           case Int(n) => By(n, v2.n)
           case Str(s) => CmpBytes(s, v2.bytes)
           case Dbl(d) => CmpFloat(d, v2.d, total)
           case DblArray(ds) => if |ds| != |v2.ds| then By(|ds|, |v2.ds|) else CmpFloats(ds, v2.ds, total)
           case Object(oid) => By(oid, v2.oid)
           case Block(_, fs) => if |fs| != |v2.fields| then By(|fs|, |v2.fields|) else OrderFrom(v1, v2, 0, total))
  }

  function OrderFrom(v1: Value, v2: Value, i: nat, total: bool): Ord
    requires v1.Block? && v2.Block? && |v1.fields| == |v2.fields| && i <= |v1.fields|
    decreases v1, v2, |v1.fields| - i
  {
    if i == |v1.fields| then Equal
    else if v1.fields[i].Forward? || v2.fields[i].Forward? then Unordered
    else Then(Order(v1.fields[i], v2.fields[i], total), OrderFrom(v1, v2, i + 1, total))
  }

  // ----- Looking through forwarding blocks -----------------------------------

  lemma {:induction false} NormField(v: Value, i: nat)
    requires v.Block? && i < |v.fields|
    ensures Norm(v).Block? && |Norm(v).fields| == |v.fields| && Norm(v).fields[i] == Norm(v.fields[i])
  {
  }

  /** The comparison is the order, except that null comes before a forwarded null. */
  lemma {:induction false} CmpIsOrder(v1: Value, v2: Value, total: bool)
    ensures Cmp(v1, v2, total) == Order(Norm(v1), Norm(v2), total) || (Cmp(v1, v2, total) == Less && !Clean(v2))
    decreases v1, v2, if v1.Block? then |v1.fields| + 1 else 0
  {
    if v1.Null? {
      if v2.Forward? { NullFirst(v2, total); }
    } else if v2.Forward? && !v1.Forward? {
      CmpIsOrder(v1, v2.v, total);
    } else if v1.Forward? {
      CmpIsOrder(v1.v, if v2.Forward? then v2.v else v2, total);
    } else if v1.Block? && v2.Block? && v1.tag == v2.tag && |v1.fields| == |v2.fields| {
      CmpFromIsOrder(v1, v2, 0, total);
    }
  }

  lemma NullFirst(v2: Value, total: bool)
    requires v2.Forward?
    ensures Order(Null, Norm(v2), total) == (if Norm(v2).Null? then Equal else Less)
    ensures Norm(v2).Null? ==> !Clean(v2)
  {
  }

  lemma {:induction false} CmpFromIsOrder(v1: Value, v2: Value, i: nat, total: bool)
    requires v1.Block? && v2.Block? && |v1.fields| == |v2.fields| && i <= |v1.fields|
    ensures CmpFrom(v1, v2, i, total) == OrderFrom(Norm(v1), Norm(v2), i, total)
         || (CmpFrom(v1, v2, i, total) == Less && !Clean(v2))
    decreases v1, v2, |v1.fields| - i
  {
    if i < |v1.fields| {
      NormField(v1, i);
      NormField(v2, i);
      CmpIsOrder(v1.fields[i], v2.fields[i], total);
      CmpFromIsOrder(v1, v2, i + 1, total);
    }
  }

  // ----- The order is a total preorder ---------------------------------------

  /** No forwarding block anywhere. */
  predicate Plain(v: Value) {
    match v
    case Forward(_) => false
    case Block(_, fs) => forall i :: 0 <= i < |fs| ==> Plain(fs[i])
    case Null => true
    case Int(_) => true
    case Str(_) => true
    case Dbl(_) => true
    case DblArray(_) => true
    case Object(_) => true
  }

  lemma {:induction false} NormIsPlain(v: Value)
    ensures Plain(Norm(v)) && Clean(Norm(v)) && (Plain(v) ==> Norm(v) == v)
    decreases v
  {
    if v.Forward? {
      NormIsPlain(v.v);
    } else if v.Block? {
      forall i | 0 <= i < |v.fields|
        ensures Plain(Norm(v).fields[i]) && Clean(Norm(v).fields[i]) && (Plain(v.fields[i]) ==> Norm(v).fields[i] == v.fields[i])
      {
        NormIsPlain(v.fields[i]);
      }
    }
  }

  /** The rank of a double among all: NaNs are equal and come first. */
  function Rank(d: Float): int {
    if IsNaN(d) then -0x8000_0000_0000_0000 else Key(d)
  }

  lemma FloatByRank(d1: Float, d2: Float)
    ensures CmpFloat(d1, d2, true) == By(Rank(d1), Rank(d2))
  {
    assert Key(d1) > -0x8000_0000_0000_0000 && Key(d2) > -0x8000_0000_0000_0000;
  }

  /** Three outcomes fit: if neither of the first two is greater, the third follows from them. */
  predicate Fits(x: Ord, y: Ord, z: Ord) {
    && x != Unordered && y != Unordered && z != Unordered
    && (x != Greater && y != Greater ==> z == if x == Less || y == Less then Less else Equal)
  }

  lemma ThenFits(x: Ord, y: Ord, z: Ord, x': Ord, y': Ord, z': Ord)
    requires Fits(x, y, z) && (x == Equal && y == Equal && z == Equal ==> Fits(x', y', z'))
    requires x' != Unordered && y' != Unordered && z' != Unordered
    ensures Fits(Then(x, x'), Then(y, y'), Then(z, z'))
  {
  }

  lemma {:induction false} BytesPair(s: seq<nat>, t: seq<nat>)
    ensures CmpBytes(s, t) != Unordered && CmpBytes(t, s) == Flip(CmpBytes(s, t))
    ensures CmpBytes(s, t) == Equal <==> s == t
  {
    if s != [] && t != [] {
      BytesPair(s[1..], t[1..]);
      assert s == [s[0]] + s[1..] && t == [t[0]] + t[1..];
    }
  }

  lemma {:induction false} BytesFit(s: seq<nat>, t: seq<nat>, u: seq<nat>)
    ensures Fits(CmpBytes(s, t), CmpBytes(t, u), CmpBytes(s, u))
  {
    BytesPair(s, t);
    BytesPair(t, u);
    BytesPair(s, u);
    if s != [] && t != [] && u != [] {
      BytesFit(s[1..], t[1..], u[1..]);
      ThenFits(By(s[0], t[0]), By(t[0], u[0]), By(s[0], u[0]),
               CmpBytes(s[1..], t[1..]), CmpBytes(t[1..], u[1..]), CmpBytes(s[1..], u[1..]));
    }
  }

  lemma {:induction false} FloatsPair(s: seq<Float>, t: seq<Float>)
    requires |s| == |t|
    ensures CmpFloats(s, t, true) != Unordered && CmpFloats(t, s, true) == Flip(CmpFloats(s, t, true))
    ensures s == t ==> CmpFloats(s, t, true) == Equal
  {
    hide CmpFloat, Rank;
    if s != [] {
      FloatByRank(s[0], t[0]);
      FloatByRank(t[0], s[0]);
      FloatsPair(s[1..], t[1..]);
    }
  }

  lemma {:induction false} FloatsFit(s: seq<Float>, t: seq<Float>, u: seq<Float>)
    requires |s| == |t| == |u|
    ensures Fits(CmpFloats(s, t, true), CmpFloats(t, u, true), CmpFloats(s, u, true))
  {
    hide CmpFloat, Rank;
    if s != [] {
      FloatByRank(s[0], t[0]);
      FloatByRank(t[0], u[0]);
      FloatByRank(s[0], u[0]);
      FloatsFit(s[1..], t[1..], u[1..]);
      ThenFits(CmpFloat(s[0], t[0], true), CmpFloat(t[0], u[0], true), CmpFloat(s[0], u[0], true),
               CmpFloats(s[1..], t[1..], true), CmpFloats(t[1..], u[1..], true), CmpFloats(s[1..], u[1..], true));
    }
  }

  /** Antisymmetric in sign; a value equals itself. */
  lemma {:induction false} OrderPair(a: Value, b: Value)
    requires Plain(a) && Plain(b)
    ensures Order(a, b, true) != Unordered && Order(b, a, true) == Flip(Order(a, b, true))
    ensures a == b ==> Order(a, b, true) == Equal
    decreases a, b, if a.Block? then |a.fields| + 1 else 0
  {
    if Class(a) == Class(b) {
      hide CmpFloat, CmpBytes, CmpFloats, Rank;
      if a.Str? { BytesPair(a.bytes, b.bytes); }
      else if a.Dbl? { FloatByRank(a.d, b.d); FloatByRank(b.d, a.d); }
      else if a.DblArray? { if |a.ds| == |b.ds| { FloatsPair(a.ds, b.ds); } }
      else if a.Block? { if |a.fields| == |b.fields| { OrderFromPair(a, b, 0); } }
    }
  }

  lemma {:induction false} OrderFromPair(a: Value, b: Value, i: nat)
    requires a.Block? && b.Block? && |a.fields| == |b.fields| && i <= |a.fields| && Plain(a) && Plain(b)
    ensures OrderFrom(a, b, i, true) != Unordered && OrderFrom(b, a, i, true) == Flip(OrderFrom(a, b, i, true))
    ensures a == b ==> OrderFrom(a, b, i, true) == Equal
    decreases a, b, |a.fields| - i
  {
    hide Order;
    if i < |a.fields| {
      OrderPair(a.fields[i], b.fields[i]);
      OrderFromPair(a, b, i + 1);
    }
  }

  /** Transitive. */
  lemma {:induction false} OrderFit(a: Value, b: Value, c: Value)
    requires Plain(a) && Plain(b) && Plain(c)
    ensures Fits(Order(a, b, true), Order(b, c, true), Order(a, c, true))
    decreases a, b, c, if a.Block? then |a.fields| + 1 else 0, 1
  {
    hide Order, Class;
    OrderPair(a, b);
    OrderPair(b, c);
    OrderPair(a, c);
    ClassFirst(a, b);
    ClassFirst(b, c);
    ClassFirst(a, c);
    if Class(a) == Class(b) == Class(c) { OrderFitWithin(a, b, c); }
  }

  lemma ClassFirst(a: Value, b: Value)
    requires !a.Forward? && !b.Forward?
    ensures Class(a) != Class(b) ==> Order(a, b, true) == By(Class(a), Class(b))
  {
  }

  lemma {:induction false} OrderFitWithin(a: Value, b: Value, c: Value)
    requires Plain(a) && Plain(b) && Plain(c) && Class(a) == Class(b) == Class(c)
    ensures Fits(Order(a, b, true), Order(b, c, true), Order(a, c, true))
    decreases a, b, c, if a.Block? then |a.fields| + 1 else 0, 0
  {
    OrderPair(a, b);
    OrderPair(b, c);
    OrderPair(a, c);
    hide CmpFloat, CmpBytes, CmpFloats, Rank, OrderFrom;
    if a.Str? { BytesFit(a.bytes, b.bytes, c.bytes); }
    else if a.Dbl? { FloatByRank(a.d, b.d); FloatByRank(b.d, c.d); FloatByRank(a.d, c.d); }
    else if a.DblArray? { if |a.ds| == |b.ds| == |c.ds| { FloatsFit(a.ds, b.ds, c.ds); } }
    else if a.Block? { if |a.fields| == |b.fields| == |c.fields| { OrderFromFit(a, b, c, 0); } }
  }

  lemma {:induction false} OrderFromFit(a: Value, b: Value, c: Value, i: nat)
    requires a.Block? && b.Block? && c.Block? && |a.fields| == |b.fields| == |c.fields| && i <= |a.fields|
    requires Plain(a) && Plain(b) && Plain(c)
    ensures Fits(OrderFrom(a, b, i, true), OrderFrom(b, c, i, true), OrderFrom(a, c, i, true))
    decreases a, b, c, |a.fields| - i, 0
  {
    hide Order;
    if i < |a.fields| {
      OrderFit(a.fields[i], b.fields[i], c.fields[i]);
      OrderFromFit(a, b, c, i + 1);
      ThenFits(Order(a.fields[i], b.fields[i], true), Order(b.fields[i], c.fields[i], true), Order(a.fields[i], c.fields[i], true),
               OrderFrom(a, b, i + 1, true), OrderFrom(b, c, i + 1, true), OrderFrom(a, c, i + 1, true));
    }
  }

  // ----- What follows for the comparison -------------------------------------

  /** On values where no forwarding block leads to null, total comparison is a total preorder. */
  lemma {:induction false} TotalPreorder(a: Value, b: Value, c: Value)
    requires Clean(a) && Clean(b) && Clean(c)
    ensures Cmp(a, a, true) == Equal
    ensures Cmp(a, b, true) != Unordered && Cmp(b, a, true) == Flip(Cmp(a, b, true))
    ensures Fits(Cmp(a, b, true), Cmp(b, c, true), Cmp(a, c, true))
  {
    hide Cmp, Order;
    NormIsPlain(a);
    NormIsPlain(b);
    NormIsPlain(c);
    CmpIsOrder(a, a, true);
    CmpIsOrder(a, b, true);
    CmpIsOrder(b, a, true);
    CmpIsOrder(b, c, true);
    CmpIsOrder(a, c, true);
    OrderPair(Norm(a), Norm(a));
    OrderPair(Norm(a), Norm(b));
    OrderFit(Norm(a), Norm(b), Norm(c));
  }

  /** A value always compares equal to its form without forwarding blocks, seen from its side. */
  lemma {:induction false} EqualToNorm(v: Value)
    ensures Cmp(v, Norm(v), true) == Equal
  {
    hide Cmp, Order;
    NormIsPlain(v);
    CmpIsOrder(v, Norm(v), true);
    NormIsPlain(Norm(v));
    OrderPair(Norm(v), Norm(v));
  }

  /** Seen from the other side it does exactly when no forwarding block in it leads to null. */
  lemma {:induction false} NormToValue(v: Value)
    ensures Cmp(Norm(v), v, true) == if Clean(v) then Equal else Less
    decreases v
  {
    NormIsPlain(v);
    NormIsPlain(Norm(v));
    OrderPair(Norm(v), Norm(v));
    if Clean(v) {
      CmpIsOrder(Norm(v), v, true);
    } else if v.Forward? {
      ForwardFromPlain(Norm(v), v);
      if !Norm(v).Null? { NormToValue(v.v); }
    } else {
      NormToFields(v, 0);
    }
  }

  lemma ForwardFromPlain(p: Value, v: Value)
    requires !p.Forward? && v.Forward?
    ensures Cmp(p, v, true) == if p.Null? then Less else Cmp(p, v.v, true)
  {
  }

  lemma {:induction false} NormToFields(v: Value, i: nat)
    requires v.Block? && i <= |v.fields|
    ensures Norm(v).Block? && |Norm(v).fields| == |v.fields|
    ensures CmpFrom(Norm(v), v, i, true) == if forall k :: i <= k < |v.fields| ==> Clean(v.fields[k]) then Equal else Less
    decreases v, |v.fields| - i
  {
    if i < |v.fields| {
      NormField(v, i);
      NormToValue(v.fields[i]);
      NormToFields(v, i + 1);
    }
  }

  /** So the comparison is antisymmetric at `v` exactly when `v` is clean. */
  lemma AntisymmetricIffClean(v: Value)
    ensures Clean(v) <==> forall w :: Clean(w) ==> Cmp(w, v, true) == Flip(Cmp(v, w, true))
  {
    if Clean(v) {
      forall w | Clean(w) ensures Cmp(w, v, true) == Flip(Cmp(v, w, true)) { TotalPreorder(v, w, v); }
    } else {
      NormIsPlain(v);
      EqualToNorm(v);
      NormToValue(v);
      assert Clean(Norm(v)) && Cmp(Norm(v), v, true) != Flip(Cmp(v, Norm(v), true));
    }
  }

  /** The smallest failure: null is less than a forwarded null, which equals it the other way round. */
  lemma ForwardedNull(total: bool)
    ensures Cmp(Null, Forward(Null), total) == Less && Cmp(Forward(Null), Null, total) == Equal
  {
  }

  // ----- Partial comparison --------------------------------------------------

  lemma FloatPartial(d1: Float, d2: Float)
    ensures CmpFloat(d1, d2, false) != Unordered ==> CmpFloat(d1, d2, false) == CmpFloat(d1, d2, true)
    ensures CmpFloat(d1, d2, false) == Unordered <==> IsNaN(d1) || IsNaN(d2)
  {
  }

  lemma {:induction false} FloatsPartial(s: seq<Float>, t: seq<Float>)
    requires |s| == |t|
    ensures CmpFloats(s, t, false) != Unordered ==> CmpFloats(s, t, false) == CmpFloats(s, t, true)
  {
    hide CmpFloat;
    if s != [] {
      FloatPartial(s[0], t[0]);
      FloatsPartial(s[1..], t[1..]);
    }
  }

  /** A partial comparison that meets no NaN has the outcome of the total one. */
  lemma {:induction false} PartialAgrees(v1: Value, v2: Value)
    ensures Cmp(v1, v2, false) != Unordered ==> Cmp(v1, v2, false) == Cmp(v1, v2, true)
    decreases v1, v2, if v1.Block? then |v1.fields| + 1 else 0
  {
    hide CmpFloat, CmpFloats, CmpBytes;
    if v1.Forward? { PartialAgrees(v1.v, if v2.Forward? then v2.v else v2); }
    else if v2.Forward? { if !v1.Null? { PartialAgrees(v1, v2.v); } }
    else if v1.Dbl? && v2.Dbl? { FloatPartial(v1.d, v2.d); }
    else if v1.DblArray? && v2.DblArray? { if |v1.ds| == |v2.ds| { FloatsPartial(v1.ds, v2.ds); } }
    else if v1.Block? && v2.Block? { if |v1.fields| == |v2.fields| { PartialFrom(v1, v2, 0); } }
  }

  lemma {:induction false} PartialFrom(v1: Value, v2: Value, i: nat)
    requires v1.Block? && v2.Block? && |v1.fields| == |v2.fields| && i <= |v1.fields|
    ensures CmpFrom(v1, v2, i, false) != Unordered ==> CmpFrom(v1, v2, i, false) == CmpFrom(v1, v2, i, true)
    decreases v1, v2, |v1.fields| - i
  {
    hide Cmp;
    if i < |v1.fields| {
      PartialAgrees(v1.fields[i], v2.fields[i]);
      PartialFrom(v1, v2, i + 1);
    }
  }

  // ----- The walk with an explicit stack -------------------------------------

  const COMPARE_STACK_INIT_SIZE: nat := 8
  const COMPARE_STACK_MIN_ALLOC_SIZE: nat := 32
  const COMPARE_STACK_MAX_SIZE: nat := 1024 * 1024

  /** Two blocks whose fields from `offset` on are still to be compared. */
  datatype Item = Item(v1: Value, v2: Value, offset: nat)

  predicate ItemOk(it: Item) {
    it.v1.Block? && it.v2.Block? && |it.v1.fields| == |it.v2.fields| && it.offset < |it.v1.fields|
  }

  /** What one turn of the loop finds out about the two values in hand. */
  datatype Finding = Answer(ord: Ord) | Same | Look(w1: Value, w2: Value) | Descend

  function Decide(ord: Ord): Finding {
    if ord == Equal then Same else Answer(ord)
  }

  function Inspect(v1: Value, v2: Value, total: bool): Finding {
    if IsLong(v1) then
      if v1 == v2 then Same
      else if v1.Null? then Answer(Less)
      else if v2.Null? then Answer(Greater)
      else if v2.Int? then Decide(By(v1.n, v2.n))
      else if v2.Forward? then Look(v1, v2.v)
      else Answer(Less)
    else if IsLong(v2) then (if v1.Forward? then Look(v1.v, v2) else Answer(Greater))
    else if TagOf(v1) != TagOf(v2) then
      if v1.Forward? then Look(v1.v, v2)
      else if v2.Forward? then Look(v1, v2.v)
      else Decide(By(TagOf(v1), TagOf(v2)))
    else match v1
      case Forward(w1) => Look(w1, v2.v)
      case Str(s) => Decide(CmpBytes(s, v2.bytes))
      case Dbl(d) => Decide(CmpFloat(d, v2.d, total))
      case DblArray(ds) => if |ds| != |v2.ds| then Decide(By(|ds|, |v2.ds|)) else Decide(CmpFloats(ds, v2.ds, total))
      case Object(oid) => Decide(By(oid, v2.oid))
      case Block(_, fs) =>
        if |fs| != |v2.fields| then Decide(By(|fs|, |v2.fields|)) else if |fs| == 0 then Same else Descend
  }

  lemma {:induction false} InspectIsCmp(v1: Value, v2: Value, total: bool)
    ensures var f := Inspect(v1, v2, total);
      && (f.Answer? ==> Cmp(v1, v2, total) == f.ord && f.ord != Equal)
      && (f.Same? ==> Cmp(v1, v2, total) == Equal)
      && (f.Look? ==> Cmp(v1, v2, total) == Cmp(f.w1, f.w2, total)
                      && Weight(f.w1) + Weight(f.w2) < Weight(v1) + Weight(v2) && Depth(f.w1) <= Depth(v1))
      && (f.Descend? ==> ItemOk(Item(v1, v2, 0)) && Cmp(v1, v2, total) == CmpFrom(v1, v2, 0, total))
  {
    hide CmpBytes, CmpFloat, CmpFloats, WeightFrom, DepthFrom;
  }

  /** Equal values compare equal in total mode, so the test for physical equality changes nothing. */
  lemma {:induction false} CmpReflexive(v: Value)
    ensures Cmp(v, v, true) == Equal
  {
    if v.Forward? {
      CmpReflexive(v.v);
    } else {
      hide CmpBytes, CmpFloat, CmpFloats, Rank;
      if v.Str? { BytesPair(v.bytes, v.bytes); }
      else if v.Dbl? { FloatByRank(v.d, v.d); }
      else if v.DblArray? { FloatsPair(v.ds, v.ds); }
      else if v.Block? { CmpFromReflexive(v, 0); }
    }
  }

  lemma {:induction false} CmpFromReflexive(v: Value, i: nat)
    requires v.Block? && i <= |v.fields|
    ensures CmpFrom(v, v, i, true) == Equal
    decreases v, |v.fields| - i
  {
    hide Cmp;
    if i < |v.fields| {
      CmpReflexive(v.fields[i]);
      CmpFromReflexive(v, i + 1);
    }
  }

  predicate StackOk(stack: seq<Item>) {
    forall k :: 0 <= k < |stack| ==> ItemOk(stack[k])
  }

  /** What the items on the stack still have to say, the last one first. */
  ghost function CmpStack(stack: seq<Item>, total: bool): Ord
    requires StackOk(stack)
  {
    if stack == [] then Equal
    else
      var top := stack[|stack| - 1];
      assert ItemOk(top);
      Then(CmpFrom(top.v1, top.v2, top.offset, total), CmpStack(stack[..|stack| - 1], total))
  }

  ghost function Weight(v: Value): nat
    decreases v, if v.Block? then |v.fields| + 1 else 0
  {
    if v.Forward? then 1 + Weight(v.v) else if v.Block? then 1 + WeightFrom(v, 0) else 1
  }

  ghost function WeightFrom(v: Value, i: nat): nat
    requires v.Block? && i <= |v.fields|
    decreases v, |v.fields| - i
  {
    if i == |v.fields| then 0 else Weight(v.fields[i]) + WeightFrom(v, i + 1)
  }

  ghost function StackWeight(stack: seq<Item>): nat
    requires StackOk(stack)
  {
    if stack == [] then 0
    else
      var top := stack[|stack| - 1];
      assert ItemOk(top);
      WeightFrom(top.v1, top.offset) + WeightFrom(top.v2, top.offset) + StackWeight(stack[..|stack| - 1])
  }

  ghost function Depth(v: Value): nat
    decreases v, if v.Block? then |v.fields| + 1 else 0
  {
    if v.Forward? then 1 + Depth(v.v) else if v.Block? then 1 + DepthFrom(v, 0) else 1
  }

  ghost function DepthFrom(v: Value, i: nat): nat
    requires v.Block? && i <= |v.fields|
    decreases v, |v.fields| - i
  {
    if i == |v.fields| then 0
    else var a, b := Depth(v.fields[i]), DepthFrom(v, i + 1); if a < b then b else a
  }

  lemma {:induction false} FieldDepth(v: Value, i: nat, j: nat)
    requires v.Block? && i <= j < |v.fields|
    ensures Depth(v.fields[j]) <= DepthFrom(v, i)
    decreases j - i
  {
    if i < j { FieldDepth(v, i + 1, j); }
  }

  /** Take the next pair of fields off the stack. */
  function Popped(stack: seq<Item>): seq<Item>
    requires |stack| > 0 && StackOk(stack)
  {
    var top := stack[|stack| - 1];
    stack[..|stack| - 1] + if top.offset + 1 == |top.v1.fields| then [] else [Item(top.v1, top.v2, top.offset + 1)]
  }

  lemma {:induction false} PoppedSays(stack: seq<Item>, total: bool)
    requires |stack| > 0 && StackOk(stack)
    ensures StackOk(Popped(stack))
    ensures var top := stack[|stack| - 1];
      && CmpStack(stack, total) == Then(Cmp(top.v1.fields[top.offset], top.v2.fields[top.offset], total), CmpStack(Popped(stack), total))
      && StackWeight(stack)
         == Weight(top.v1.fields[top.offset]) + Weight(top.v2.fields[top.offset]) + StackWeight(Popped(stack))
  {
    hide Cmp, Weight;
    var low := stack[..|stack| - 1];
    var top := stack[|stack| - 1];
    assert ItemOk(top);
    if top.offset + 1 == |top.v1.fields| {
      assert CmpFrom(top.v1, top.v2, top.offset + 1, total) == Equal;
      assert WeightFrom(top.v1, top.offset + 1) == 0 == WeightFrom(top.v2, top.offset + 1);
      assert Popped(stack) == low;
    } else {
      assert Popped(stack)[..|low|] == low;
    }
  }

  function Pushed(stack: seq<Item>, v1: Value, v2: Value): seq<Item>
    requires v1.Block?
  {
    if |v1.fields| > 1 then stack + [Item(v1, v2, 1)] else stack
  }

  lemma {:induction false} PushedSays(stack: seq<Item>, v1: Value, v2: Value, total: bool)
    requires StackOk(stack) && ItemOk(Item(v1, v2, 0))
    ensures StackOk(Pushed(stack, v1, v2))
    ensures Then(CmpFrom(v1, v2, 0, total), CmpStack(stack, total))
         == Then(Cmp(v1.fields[0], v2.fields[0], total), CmpStack(Pushed(stack, v1, v2), total))
    ensures Weight(v1) + Weight(v2) + StackWeight(stack)
         == 2 + Weight(v1.fields[0]) + Weight(v2.fields[0]) + StackWeight(Pushed(stack, v1, v2))
  {
    hide Cmp;
    if |v1.fields| > 1 {
      assert Pushed(stack, v1, v2)[..|stack|] == stack;
    } else {
      assert CmpFrom(v1, v2, 1, total) == Equal;
      assert WeightFrom(v1, 1) == 0 == WeightFrom(v2, 1);
    }
    assert WeightFrom(v1, 0) == Weight(v1.fields[0]) + WeightFrom(v1, 1);
    assert WeightFrom(v2, 0) == Weight(v2.fields[0]) + WeightFrom(v2, 1);
  }

  /** Items lie inside one another, so the stack is no higher than the first value is deep. */
  ghost predicate Nested(stack: seq<Item>, v1: Value, depth: nat) {
    && |stack| + Depth(v1) <= depth
    && forall k :: 0 <= k < |stack| ==> k + Depth(stack[k].v1) <= depth
  }

  lemma NestedPush(stack: seq<Item>, v1: Value, v2: Value, depth: nat)
    requires StackOk(stack) && ItemOk(Item(v1, v2, 0)) && Nested(stack, v1, depth)
    ensures Nested(Pushed(stack, v1, v2), v1.fields[0], depth)
  {
    hide DepthFrom;
    FieldDepth(v1, 0, 0);
  }

  lemma NestedPop(stack: seq<Item>, v1: Value, depth: nat)
    requires |stack| > 0 && StackOk(stack) && Nested(stack, v1, depth)
    ensures var top := stack[|stack| - 1]; Nested(Popped(stack), top.v1.fields[top.offset], depth)
  {
    hide DepthFrom;
    var top := stack[|stack| - 1];
    FieldDepth(top.v1, 0, top.offset);
    assert |stack| - 1 + Depth(top.v1) <= depth;
  }

  /** `compare_resize_stack`: the new room for items, or 0 when the stack may not grow. */
  function NewLimit(limit: nat): (r: nat)
    requires limit >= COMPARE_STACK_INIT_SIZE
    ensures r > limit || (r == 0 && limit >= COMPARE_STACK_MAX_SIZE / 2)
  {
    if limit == COMPARE_STACK_INIT_SIZE then COMPARE_STACK_MIN_ALLOC_SIZE
    else if 2 * limit >= COMPARE_STACK_MAX_SIZE then 0
    else 2 * limit
  }

  datatype Result = Done(ord: Ord) | StackOverflow

  /** `do_compare_val`: the comparison by recursion, unless the first value is too deep for the stack. */
  method DoCompare(a: Value, b: Value, total: bool) returns (r: Result)
    ensures r.Done? ==> r.ord == Cmp(a, b, total)
    ensures r.StackOverflow? ==> Depth(a) > COMPARE_STACK_MAX_SIZE / 2
  {
    hide Cmp, CmpFrom, CmpStack, Weight, StackWeight, Depth, Inspect;
    var v1, v2, stack: seq<Item>, limit := a, b, [], COMPARE_STACK_INIT_SIZE;
    EmptyStack(total);
    while true
      invariant StackOk(stack) && Nested(stack, v1, Depth(a)) && limit >= COMPARE_STACK_INIT_SIZE
      invariant Cmp(a, b, total) == Then(Cmp(v1, v2, total), CmpStack(stack, total))
      decreases Weight(v1) + Weight(v2) + StackWeight(stack)
    {
      InspectIsCmp(v1, v2, total);
      CmpReflexive(v1);
      var sameBlock: bool := *;
      var f := if sameBlock && v1 == v2 && total then Same else Inspect(v1, v2, total);
      match f {
        case Answer(ord) => return Done(ord);
        case Look(w1, w2) => v1, v2 := w1, w2;
        case Descend =>
          PushedSays(stack, v1, v2, total);
          NestedPush(stack, v1, v2, Depth(a));
          Positive(v1);
          if |v1.fields| > 1 && |stack| >= limit {
            limit := NewLimit(limit);
            if limit == 0 { return StackOverflow; }
          }
          stack := Pushed(stack, v1, v2);
          v1, v2 := v1.fields[0], v2.fields[0];
        case Same =>
          EmptyStack(total);
          if |stack| == 0 { return Done(Equal); }
          PoppedSays(stack, total);
          NestedPop(stack, v1, Depth(a));
          Positive(v1);
          var top := stack[|stack| - 1];
          assert ItemOk(top);
          stack := Popped(stack);
          v1, v2 := top.v1.fields[top.offset], top.v2.fields[top.offset];
      }
    }
  }

  lemma EmptyStack(total: bool)
    ensures CmpStack([], total) == Equal && StackWeight([]) == 0
  {
  }

  lemma Positive(v: Value)
    ensures Weight(v) > 0 && Depth(v) > 0
  {
  }
}
