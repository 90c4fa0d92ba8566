/**
The generic hash: a breadth-first walk through a bounded queue that mixes what it meets
into 32 bits. It must give values that compare equal the same hash, although the comparison
walks depth first and looks through forwarding blocks.
*/
module GenericHash {
  import opened Options
  import opened WordBits
  import opened StructuralCompare

  const HASH_QUEUE_SIZE: nat := 256
  const MAX_FORWARD_DEREFERENCE: nat := 1000

  // ----- Mixing --------------------------------------------------------------

  function Scaled1(d: bv32): bv32 {
    d * 0xcc9e2d51
  }

  function Rotated15(d: bv32): bv32 {
    (d << 15) | (d >> 17)
  }

  function Scaled2(d: bv32): bv32 {
    d * 0x1b873593
  }

  function Combined(h: bv32, d: bv32): bv32 {
    h ^ d
  }

  function Rotated13(h: bv32): bv32 {
    (h << 13) | (h >> 19)
  }

  function Stretched(h: bv32): bv32 {
    h * 5 + 0xe6546b64
  }

  /** One round of MurmurHash 3. */
  function Mix(h: bv32, d: bv32): bv32 {
    Stretched(Rotated13(Combined(h, Scaled2(Rotated15(Scaled1(d))))))
  }

  function Folded16(h: bv32): bv32 {
    h ^ (h >> 16)
  }

  function Folded13(h: bv32): bv32 {
    h ^ (h >> 13)
  }

  function Scaled3(h: bv32): bv32 {
    h * 0x85ebca6b
  }

  function Scaled4(h: bv32): bv32 {
    h * 0xc2b2ae35
  }

  function FinalMix(h: bv32): bv32 {
    Folded16(Scaled4(Folded13(Scaled3(Folded16(h)))))
  }

  /** All ones for a negative word. */
  function SignMask(w: nat): bv32 {
    if w >= 0x8000_0000_0000_0000 then 0xFFFF_FFFF else 0
  }

  /** `caml_hash_mix_intnat`, for a word as a signed integer. */
  function MixIntnat(h: bv32, d: int): bv32 {
    var w := d % 0x1_0000_0000_0000_0000;
    Mix(h, Combined(Combined(Low(w / 0x1_0000_0000), SignMask(w)), Low(w)))
  }

  /** All NaNs become one, and the negative zero becomes zero. */
  function Normalized(d: Float): Float {
    if IsNaN(d) then Float(0x7FF0_0000, 1)
    else if d.hi == 0x8000_0000 && d.lo == 0 then Float(0, 0)
    else d
  }

  /** `caml_hash_mix_double` */
  function MixDouble(h: bv32, d: Float): bv32 {
    var n := Normalized(d);
    Mix(Mix(h, Low(n.lo)), Low(n.hi))
  }

  /** `caml_hash_mix_string`: words of four bytes from `i` on, the rest, and the length. */
  function MixBytes(h: bv32, s: seq<nat>, i: nat): bv32
    requires i <= |s|
    decreases |s| - i
  {
    if i + 4 <= |s| then
      MixBytes(Mix(h, Low(s[i] + 0x100 * s[i + 1] + 0x1_0000 * s[i + 2] + 0x100_0000 * s[i + 3])), s, i + 4)
    else
      var h1 := match |s| - i {
        case 3 => Mix(h, Low(s[i] + 0x100 * s[i + 1] + 0x1_0000 * s[i + 2]))
        case 2 => Mix(h, Low(s[i] + 0x100 * s[i + 1]))
        case 1 => Mix(h, Low(s[i]))
        case _ => h
      };
      Combined(h1, Low(|s|))
  }

  /** The floats of an array, until `num` is used up. */
  function MixDoubles(h: bv32, num: int, ds: seq<Float>, i: nat): (bv32, int)
    requires i <= |ds|
    decreases |ds| - i
  {
    if i == |ds| then (h, num)
    else if num - 1 <= 0 then (MixDouble(h, ds[i]), num - 1)
    else MixDoubles(MixDouble(h, ds[i]), num - 1, ds, i + 1)
  }

  /** The word that stands for an integer or null. */
  function WordOf(v: Value): int
    requires IsLong(v)
  {
    if v.Null? then 0 else 2 * v.n + 1
  }

  /** `Cleanhd_hd`: size and tag. */
  function HeaderOf(tag: nat, size: nat): int {
    size * 0x400 + tag
  }

  // ----- The walk ------------------------------------------------------------

  /** Behind at most `n` forwarding links. */
  function Strip(v: Value, n: nat): Option<Value> {
    if !v.Forward? then Some(v) else if n == 0 then None else Strip(v.v, n - 1)
  }

  /** What remains to be done: the queue from `rd` on, how many more values count, and the hash so far. */
  datatype Walk = Walk(queue: seq<Value>, rd: nat, num: int, h: bv32)

  predicate WalkOk(w: Walk, sz: nat) {
    w.rd <= |w.queue| <= HASH_QUEUE_SIZE && sz <= HASH_QUEUE_SIZE
  }

  /** Fields go to the end of the queue as long as there is room. */
  function Enqueue(queue: seq<Value>, fields: seq<Value>, sz: nat): (q: seq<Value>)
    requires |queue| <= HASH_QUEUE_SIZE && sz <= HASH_QUEUE_SIZE
    ensures |queue| <= |q| <= HASH_QUEUE_SIZE
  {
    if |queue| >= sz then queue
    else if |fields| <= sz - |queue| then queue + fields
    else queue + fields[..sz - |queue|]
  }

  /** Mix in one value behind its forwarding links. */
  function Examine(w: Walk, v: Value, sz: nat): (r: Walk)
    requires WalkOk(w, sz) && !v.Forward?
    ensures WalkOk(r, sz) && r.rd == w.rd
  {
    match v
    case Null => w.(h := MixIntnat(w.h, WordOf(v)), num := w.num - 1)
    case Int(_) => w.(h := MixIntnat(w.h, WordOf(v)), num := w.num - 1)
    case Str(s) => w.(h := MixBytes(w.h, s, 0), num := w.num - 1)
    case Dbl(d) => w.(h := MixDouble(w.h, d), num := w.num - 1)
    case DblArray(ds) => var (h, num) := MixDoubles(w.h, w.num, ds, 0); w.(h := h, num := num)
    case Object(oid) => w.(h := MixIntnat(w.h, oid), num := w.num - 1)
    case Block(tag, fs) => w.(h := Mix(w.h, Low(HeaderOf(tag, |fs|))), queue := Enqueue(w.queue, fs, sz))
  }

  function Next(w: Walk, sz: nat): (r: Walk)
    requires WalkOk(w, sz) && w.rd < |w.queue|
    ensures WalkOk(r, sz) && r.rd == w.rd + 1
  {
    var v := Strip(w.queue[w.rd], MAX_FORWARD_DEREFERENCE);
    var w1 := w.(rd := w.rd + 1);
    if v.None? then w1 else StripGivesPlain(w.queue[w.rd], MAX_FORWARD_DEREFERENCE); Examine(w1, v.value, sz)
  }

  lemma {:induction false} StripGivesPlain(v: Value, n: nat)
    ensures Strip(v, n).Some? ==> !Strip(v, n).value.Forward? && Norm(Strip(v, n).value) == Norm(v)
  {
    if v.Forward? && n > 0 { StripGivesPlain(v.v, n - 1); }
  }

  function Finish(w: Walk, sz: nat): bv32
    requires WalkOk(w, sz)
    decreases HASH_QUEUE_SIZE - w.rd
  {
    if w.rd == |w.queue| || w.num <= 0 then w.h else Finish(Next(w, sz), sz)
  }

  function QueueLimit(limit: int): (sz: nat)
    ensures sz <= HASH_QUEUE_SIZE
  {
    if limit < 0 || limit > HASH_QUEUE_SIZE then HASH_QUEUE_SIZE else limit
  }

  /** `caml_hash_exn` */
  function Hash(count: int, limit: int, seed: int, v: Value): bv32 {
    Digest(Finish(Walk([v], 0, count, Low(seed)), QueueLimit(limit)))
  }

  /** The final mixing, folded to 30 bits. */
  function Digest(h: bv32): bv32 {
    FinalMix(h) & 0x3FFF_FFFF
  }

  // ----- Alike values hash alike ---------------------------------------------

  /** Forwarding chains are short enough for the walk to follow, everywhere in the value. */
  predicate Shallow(v: Value) {
    && Strip(v, MAX_FORWARD_DEREFERENCE).Some?
    && match v
       case Forward(w) => Shallow(w)
       case Block(_, fs) => forall i :: 0 <= i < |fs| ==> Shallow(fs[i])
       case Null => true
       case Int(_) => true
       case Str(_) => true
       case Dbl(_) => true
       case DblArray(_) => true
       case Object(_) => true
  }

  lemma {:induction false} StripShallow(v: Value, n: nat)
    requires Shallow(v) && Strip(v, n).Some?
    ensures Shallow(Strip(v, n).value)
  {
    if v.Forward? { StripShallow(v.v, n - 1); }
  }

  /** Equal but for forwarding blocks, the sign of zeros and the choice of NaNs. */
  ghost predicate Alike(v1: Value, v2: Value) {
    Order(Norm(v1), Norm(v2), true) == Equal
  }

  lemma SameDouble(h: bv32, d1: Float, d2: Float)
    requires CmpFloat(d1, d2, true) == Equal
    ensures MixDouble(h, d1) == MixDouble(h, d2)
  {
    hide Mix, Low;
    assert Normalized(d1) == Normalized(d2) by { SameNormalized(d1, d2); }
  }

  lemma SameNormalized(d1: Float, d2: Float)
    requires CmpFloat(d1, d2, true) == Equal
    ensures Normalized(d1) == Normalized(d2)
  {
    FloatByRank(d1, d2);
    RankAboveNaN(d1);
    RankAboveNaN(d2);
    hide IsNaN, Key, CmpFloat;
    if !IsNaN(d1) { SameKey(d1, d2); }
  }

  lemma RankAboveNaN(d: Float)
    ensures Key(d) > -0x8000_0000_0000_0000
  {
  }

  /** The key tells the bits, except for the sign of zero. */
  lemma SameKey(d1: Float, d2: Float)
    requires Key(d1) == Key(d2)
    ensures d1 == d2 || (d1.lo == 0 == d2.lo && d1.hi % 0x8000_0000 == 0 == d2.hi % 0x8000_0000)
  {
    var m1, m2 := d1.hi % 0x8000_0000, d2.hi % 0x8000_0000;
    if d1.hi >= 0x8000_0000 <==> d2.hi >= 0x8000_0000 { HalvesTell(m1, d1.lo, m2, d2.lo); }
  }

  lemma HalvesTell(h1: nat, l1: Half, h2: nat, l2: Half)
    requires h1 * 0x1_0000_0000 + l1 == h2 * 0x1_0000_0000 + l2
    ensures h1 == h2 && l1 == l2
  {
  }

  lemma {:induction false} SameDoubles(h: bv32, num: int, s: seq<Float>, t: seq<Float>, i: nat)
    requires |s| == |t| && i <= |s| && CmpFloats(s[i..], t[i..], true) == Equal
    ensures MixDoubles(h, num, s, i) == MixDoubles(h, num, t, i)
    decreases |s| - i
  {
    hide CmpFloat, MixDouble;
    if i < |s| {
      assert s[i..][1..] == s[i + 1..] && t[i..][1..] == t[i + 1..];
      SameDouble(h, s[i], t[i]);
      if num - 1 > 0 { SameDoubles(MixDouble(h, s[i]), num - 1, s, t, i + 1); }
    }
  }

  /** What alike values have in common on the outside. */
  lemma {:induction false} AlikeOutside(v1: Value, v2: Value)
    requires Alike(v1, v2) && !v1.Forward? && !v2.Forward?
    ensures IsLong(v1) || IsLong(v2) || v1.Str? || v2.Str? || v1.Object? || v2.Object? ==> v1 == v2
    ensures v1.Dbl? <==> v2.Dbl?
    ensures v1.Dbl? ==> CmpFloat(v1.d, v2.d, true) == Equal
    ensures v1.DblArray? <==> v2.DblArray?
    ensures v1.DblArray? ==> |v1.ds| == |v2.ds| && CmpFloats(v1.ds, v2.ds, true) == Equal
    ensures v1.Block? <==> v2.Block?
    ensures v1.Block? ==> v1.tag == v2.tag && |v1.fields| == |v2.fields| && OrderFrom(Norm(v1), Norm(v2), 0, true) == Equal
  {
    hide CmpFloat, CmpFloats, CmpBytes, OrderFrom;
    if v1.Str? && v2.Str? { BytesPair(v1.bytes, v2.bytes); }
    if v1.Block? && v2.Block? && |v1.fields| > 0 { NormField(v1, 0); }
    if v1.Block? && v2.Block? && |v2.fields| > 0 { NormField(v2, 0); }
  }

  lemma {:induction false} AlikeFields(v1: Value, v2: Value, i: nat, k: nat)
    requires v1.Block? && v2.Block? && |v1.fields| == |v2.fields| && i <= k < |v1.fields|
    requires OrderFrom(Norm(v1), Norm(v2), i, true) == Equal
    ensures Alike(v1.fields[k], v2.fields[k])
    decreases k - i
  {
    hide Order;
    NormField(v1, i);
    NormField(v2, i);
    if i < k { AlikeFields(v1, v2, i + 1, k); }
  }

  ghost predicate AlikeQueues(q1: seq<Value>, q2: seq<Value>) {
    |q1| == |q2| && forall i :: 0 <= i < |q1| ==> Alike(q1[i], q2[i]) && Shallow(q1[i]) && Shallow(q2[i])
  }

  ghost predicate AlikeWalks(w1: Walk, w2: Walk) {
    w1.rd == w2.rd && w1.num == w2.num && w1.h == w2.h && AlikeQueues(w1.queue, w2.queue)
  }

  lemma EnqueueAlike(q1: seq<Value>, q2: seq<Value>, f1: seq<Value>, f2: seq<Value>, sz: nat)
    requires AlikeQueues(q1, q2) && AlikeQueues(f1, f2) && |q1| <= HASH_QUEUE_SIZE && sz <= HASH_QUEUE_SIZE
    ensures AlikeQueues(Enqueue(q1, f1, sz), Enqueue(q2, f2, sz))
  {
    hide Alike, Shallow;
  }

  lemma {:induction false} FieldsAlike(v1: Value, v2: Value)
    requires Alike(v1, v2) && v1.Block? && v2.Block? && Shallow(v1) && Shallow(v2)
    ensures AlikeQueues(v1.fields, v2.fields)
  {
    AlikeOutside(v1, v2);
    forall k | 0 <= k < |v1.fields| ensures Alike(v1.fields[k], v2.fields[k]) { AlikeFields(v1, v2, 0, k); }
  }

  lemma {:induction false} ExamineAlike(w1: Walk, w2: Walk, v1: Value, v2: Value, sz: nat)
    requires WalkOk(w1, sz) && WalkOk(w2, sz) && AlikeWalks(w1, w2)
    requires !v1.Forward? && !v2.Forward? && Alike(v1, v2) && Shallow(v1) && Shallow(v2)
    ensures AlikeWalks(Examine(w1, v1, sz), Examine(w2, v2, sz))
  {
    hide Alike, Shallow, Mix, Low, MixIntnat, MixBytes, MixDouble, MixDoubles, CmpFloat, CmpFloats, AlikeQueues, Norm, OrderFrom, Enqueue;
    AlikeOutside(v1, v2);
    if v1.Dbl? {
      SameDouble(w1.h, v1.d, v2.d);
    } else if v1.DblArray? {
      assert v1.ds[0..] == v1.ds && v2.ds[0..] == v2.ds;
      SameDoubles(w1.h, w1.num, v1.ds, v2.ds, 0);
    } else if v1.Block? {
      FieldsAlike(v1, v2);
      EnqueueAlike(w1.queue, w2.queue, v1.fields, v2.fields, sz);
    } else {
      assert v1 == v2;
    }
  }

  lemma StripAlike(v1: Value, v2: Value)
    requires Alike(v1, v2) && Shallow(v1) && Shallow(v2)
    ensures var s1, s2 := Strip(v1, MAX_FORWARD_DEREFERENCE), Strip(v2, MAX_FORWARD_DEREFERENCE);
      && s1.Some? && s2.Some? && !s1.value.Forward? && !s2.value.Forward?
      && Alike(s1.value, s2.value) && Shallow(s1.value) && Shallow(s2.value)
  {
    StripGivesPlain(v1, MAX_FORWARD_DEREFERENCE);
    StripGivesPlain(v2, MAX_FORWARD_DEREFERENCE);
    StripShallow(v1, MAX_FORWARD_DEREFERENCE);
    StripShallow(v2, MAX_FORWARD_DEREFERENCE);
  }

  lemma {:induction false} FinishAlike(w1: Walk, w2: Walk, sz: nat)
    requires WalkOk(w1, sz) && WalkOk(w2, sz) && AlikeWalks(w1, w2)
    ensures Finish(w1, sz) == Finish(w2, sz)
    decreases HASH_QUEUE_SIZE - w1.rd
  {
    hide Alike, Shallow, Examine, Strip;
    if w1.rd < |w1.queue| && w1.num > 0 {
      var v1, v2 := w1.queue[w1.rd], w2.queue[w2.rd];
      StripAlike(v1, v2);
      ExamineAlike(w1.(rd := w1.rd + 1), w2.(rd := w2.rd + 1),
                   Strip(v1, MAX_FORWARD_DEREFERENCE).value, Strip(v2, MAX_FORWARD_DEREFERENCE).value, sz);
      FinishAlike(Next(w1, sz), Next(w2, sz), sz);
    }
  }

  /** Values that compare equal have equal hashes, for every count, limit and seed. */
  lemma {:induction false} EqualValuesHashAlike(v1: Value, v2: Value, count: int, limit: int, seed: int)
    requires Cmp(v1, v2, true) == Equal && Shallow(v1) && Shallow(v2)
    ensures Hash(count, limit, seed, v1) == Hash(count, limit, seed, v2)
  {
    CmpIsOrder(v1, v2, true);
    hide Shallow, Order, Finish, Digest;
    FinishAlike(Walk([v1], 0, count, Low(seed)), Walk([v2], 0, count, Low(seed)), QueueLimit(limit));
  }

  /** A value behind `n` forwarding links. */
  function Chain(v: Value, n: nat): Value {
    if n == 0 then v else Forward(Chain(v, n - 1))
  }

  lemma {:induction false} ChainStrips(v: Value, n: nat, m: nat)
    requires !v.Forward?
    ensures Strip(Chain(v, n), m) == if n <= m then Some(v) else None
    ensures Norm(Chain(v, n)) == Norm(v)
  {
    if n > 0 {
      if m > 0 { ChainStrips(v, n - 1, m - 1); } else { ChainStrips(v, n - 1, m); }
    }
  }

  /** Behind more links than the walk follows, an integer still compares equal but is not mixed in. */
  lemma {:induction false} LongChainIsIgnored(n: int, k: nat, count: int, limit: int, seed: int)
    requires count > 0
    ensures Cmp(Chain(Int(n), k), Int(n), true) == Equal
    ensures Hash(count, limit, seed, Chain(Int(n), k)) ==
      Digest(if k <= 1000 then MixIntnat(Low(seed), 2 * n + 1) else Low(seed))
  {
    hide Digest, MixIntnat, Low;
    var v := Chain(Int(n), k);
    ChainStrips(Int(n), k, MAX_FORWARD_DEREFERENCE);
    CmpIsOrder(v, Int(n), true);
    var w := Walk([v], 0, count, Low(seed));
    var sz := QueueLimit(limit);
    assert Finish(w, sz) == Finish(Next(w, sz), sz) == Next(w, sz).h;
  }

  /** So beyond the limit equal values may hash differently. */
  lemma {:induction false} LongChainsBreakHashing(n: int, k: nat, count: int, limit: int, seed: int)
    requires n == 0 && seed == 0 && k > MAX_FORWARD_DEREFERENCE && count > 0
    ensures Cmp(Chain(Int(n), k), Int(n), true) == Equal
    ensures Hash(count, limit, seed, Chain(Int(n), k)) != Hash(count, limit, seed, Int(n))
  {
    hide Chain, Hash, Cmp, Digest, MixIntnat, Low;
    LongChainIsIgnored(n, k, count, limit, seed);
    LongChainIsIgnored(n, 0, count, limit, seed);
    NoLinks(Int(n));
    MixOfZero();
  }

  lemma NoLinks(v: Value)
    ensures Chain(v, 0) == v
  {
  }

  lemma MixOne()
    ensures Mix(0, 1) == 0x26cf0576
  {
  }

  lemma FinalOne()
    ensures FinalMix(0x26cf0576) & 0x3FFF_FFFF != 0
  {
  }

  lemma FinalZero()
    ensures FinalMix(0) == 0
  {
  }

  lemma LowSmall()
    ensures Low(0) == 0 && Low(1) == 1
  {
    WordOfBytes(0, 0, 0, 0, 0);
    WordOfBytes(1, 1, 0, 0, 0);
    assert Octet(0) == 0 && Octet(1) == 1;
    hide Octet;
  }

  lemma IntnatOne(h: bv32)
    ensures MixIntnat(h, 1) == Mix(h, Combined(Combined(Low(0), 0), Low(1)))
  {
    hide Mix, Low, Combined;
    assert 1 / 0x1_0000_0000 == 0;
  }

  lemma MixOfZero()
    ensures Digest(MixIntnat(Low(0), 1)) != Digest(Low(0))
  {
    hide Mix, FinalMix, Low, MixIntnat;
    IntnatOne(Low(0));
    LowSmall();
    MixOne();
    FinalOne();
    FinalZero();
  }

  // ----- The loop ------------------------------------------------------------

  /** Follow forwarding links, but not too many. */
  method Follow(obj: Value) returns (v: Value)
    ensures Strip(obj, MAX_FORWARD_DEREFERENCE) == if v.Forward? then None else Some(v)
  {
    v := obj;
    var i := MAX_FORWARD_DEREFERENCE;
    while v.Forward? && i > 0
      invariant Strip(v, i) == Strip(obj, MAX_FORWARD_DEREFERENCE)
      decreases i
    {
      v, i := v.v, i - 1;
    }
  }

  method MixArray(h: bv32, num: int, ds: seq<Float>) returns (h': bv32, num': int)
    ensures (h', num') == MixDoubles(h, num, ds, 0)
  {
    hide MixDouble;
    h', num' := h, num;
    var i := 0;
    while i < |ds|
      invariant i <= |ds| && MixDoubles(h', num', ds, i) == MixDoubles(h, num, ds, 0)
    {
      h', num' := MixDouble(h', ds[i]), num' - 1;
      if num' <= 0 { return; }
      i := i + 1;
    }
  }

  method EnqueueFields(queue: array<Value>, wr: nat, sz: nat, fields: seq<Value>) returns (wr': nat)
    requires queue.Length == HASH_QUEUE_SIZE && wr <= HASH_QUEUE_SIZE && sz <= HASH_QUEUE_SIZE
    modifies queue
    ensures wr <= wr' <= HASH_QUEUE_SIZE && queue[..wr'] == Enqueue(old(queue[..wr]), fields, sz)
  {
    wr' := wr;
    var i := 0;
    while i < |fields| && wr' < sz
      invariant i <= |fields| && wr' == wr + i <= HASH_QUEUE_SIZE && (i > 0 ==> wr' <= sz)
      invariant queue[..wr'] == old(queue[..wr]) + fields[..i]
    {
      queue[wr'] := fields[i];
      assert queue[..wr' + 1] == queue[..wr'] + [fields[i]];
      wr', i := wr' + 1, i + 1;
    }
  }

  /** `caml_hash_exn` as the runtime computes it. */
  method HashExn(count: int, limit: int, seed: int, obj: Value) returns (r: bv32)
    ensures r == Hash(count, limit, seed, obj)
  {
    hide Low, Digest, Strip, Examine;
    var queue := new Value[HASH_QUEUE_SIZE](_ => obj);
    var sz, num, h := QueueLimit(limit), count, Low(seed);
    var rd: nat, wr: nat := 0, 1;
    assert queue[..1] == [obj];
    while rd < wr && num > 0
      invariant rd <= wr <= HASH_QUEUE_SIZE && queue.Length == HASH_QUEUE_SIZE
      invariant Finish(Walk(queue[..wr], rd, num, h), sz) == Finish(Walk([obj], 0, count, Low(seed)), sz)
      decreases HASH_QUEUE_SIZE - rd
    {
      ghost var w := Walk(queue[..wr], rd, num, h);
      var v := Follow(queue[rd]);
      rd := rd + 1;
      if !v.Forward? {
        wr, num, h := ExamineOne(queue, wr, sz, num, h, v, rd);
      }
      assert Walk(queue[..wr], rd, num, h) == Next(w, sz);
    }
    r := Digest(h);
  }

  /** The `switch` of the loop, for a value behind its forwarding links. */
  method ExamineOne(queue: array<Value>, wr: nat, sz: nat, num: int, h: bv32, v: Value, ghost rd: nat)
    returns (wr': nat, num': int, h': bv32)
    requires queue.Length == HASH_QUEUE_SIZE && rd <= wr <= HASH_QUEUE_SIZE && sz <= HASH_QUEUE_SIZE && !v.Forward?
    modifies queue
    ensures wr <= wr' <= HASH_QUEUE_SIZE
    ensures Walk(queue[..wr'], rd, num', h') == Examine(Walk(old(queue[..wr]), rd, num, h), v, sz)
  {
    hide Mix, MixIntnat, MixBytes, MixDouble, MixDoubles, Low, Enqueue;
    wr', num', h' := wr, num, h;
    match v {
      case Null => h', num' := MixIntnat(h, WordOf(v)), num - 1;
      case Int(_) => h', num' := MixIntnat(h, WordOf(v)), num - 1;
      case Str(s) => h', num' := MixBytes(h, s, 0), num - 1;
      case Dbl(d) => h', num' := MixDouble(h, d), num - 1;
      case DblArray(ds) => h', num' := MixArray(h, num, ds);
      case Object(oid) => h', num' := MixIntnat(h, oid), num - 1;
      case Block(tag, fs) =>
        h' := Mix(h, Low(HeaderOf(tag, |fs|)));
        wr' := EnqueueFields(queue, wr, sz, fs);
    }
  }
}
