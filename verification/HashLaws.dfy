/**
What the generic hash keeps apart: mixing can be undone, so a difference in one word is
never lost before the final folding; and the hashes that are promised on all platforms.
*/
module HashLaws {
  import opened WordBits
  import opened StructuralCompare
  import opened GenericHash

  // ----- Mixing can be undone ------------------------------------------------

  function Unscaled1(d: bv32): bv32 {
    d * 0xdee13bb1
  }

  function Unrotated15(d: bv32): bv32 {
    (d << 17) | (d >> 15)
  }

  function Unscaled2(d: bv32): bv32 {
    d * 0x56ed309b
  }

  function Unrotated13(h: bv32): bv32 {
    (h << 19) | (h >> 13)
  }

  function Unstretched(h: bv32): bv32 {
    (h - 0xe6546b64) * 0xcccccccd
  }

  lemma Unscales1(x: bv32)
    ensures Unscaled1(Scaled1(x)) == x
  {
    assert Unscaled1(x * 0xcc9e2d51) == x;
    hide Unscaled1;
  }

  lemma Unscales2(x: bv32)
    ensures Unscaled2(Scaled2(x)) == x
  {
    assert Unscaled2(x * 0x1b873593) == x;
    hide Unscaled2;
  }

  lemma Unrotates(x: bv32)
    ensures Unrotated15(Rotated15(x)) == x && Unrotated13(Rotated13(x)) == x
  {
  }

  lemma Unstretches(x: bv32)
    ensures Unstretched(Stretched(x)) == x
  {
    assert Unstretched(x * 5 + 0xe6546b64) == x;
    hide Unstretched;
  }

  lemma Uncombines(a: bv32, b: bv32)
    ensures Combined(Combined(a, b), b) == a && Combined(Combined(a, b), a) == b
  {
  }

  /** The hash before a word was mixed in. */
  function Unmix(r: bv32, d: bv32): bv32 {
    Combined(Unrotated13(Unstretched(r)), Scaled2(Rotated15(Scaled1(d))))
  }

  /** The word that was mixed into a hash. */
  function MixedIn(r: bv32, h: bv32): bv32 {
    Unscaled1(Unrotated15(Unscaled2(Combined(Unrotated13(Unstretched(r)), h))))
  }

  lemma MixUndone(h: bv32, d: bv32)
    ensures Unmix(Mix(h, d), d) == h && MixedIn(Mix(h, d), h) == d
  {
    hide Scaled1, Rotated15, Scaled2, Rotated13, Stretched, Combined,
      Unscaled1, Unrotated15, Unscaled2, Unrotated13, Unstretched;
    var d1 := Scaled1(d);
    var d2 := Rotated15(d1);
    var d3 := Scaled2(d2);
    var x := Combined(h, d3);
    Uncombines(h, d3);
    Unscales1(d);
    Unrotates(d1);
    Unscales2(d2);
    Unrotates(x);
    Unstretches(Rotated13(x));
  }

  /** Different words, or different hashes before, stay different. */
  lemma MixSeparates(h1: bv32, d1: bv32, h2: bv32, d2: bv32)
    requires Mix(h1, d1) == Mix(h2, d2)
    ensures h1 == h2 <==> d1 == d2
  {
    hide Mix, Unmix, MixedIn;
    MixUndone(h1, d1);
    MixUndone(h2, d2);
  }

  function Unfolded16(h: bv32): bv32 {
    h ^ (h >> 16)
  }

  function Unfolded13(h: bv32): bv32 {
    h ^ (h >> 13) ^ (h >> 26)
  }

  function Unscaled3(h: bv32): bv32 {
    h * 0xa5cb9243
  }

  function Unscaled4(h: bv32): bv32 {
    h * 0x7ed1b41d
  }

  lemma Unfolds16(x: bv32)
    ensures Unfolded16(Folded16(x)) == x
  {
    assert Unfolded16(x ^ (x >> 16)) == x;
    hide Unfolded16;
  }

  lemma Unfolds13(x: bv32)
    ensures Unfolded13(Folded13(x)) == x
  {
    assert Unfolded13(x ^ (x >> 13)) == x;
    hide Unfolded13;
  }

  lemma Unscales3(x: bv32)
    ensures Unscaled3(Scaled3(x)) == x
  {
    assert Unscaled3(x * 0x85ebca6b) == x;
    hide Unscaled3;
  }

  lemma Unscales4(x: bv32)
    ensures Unscaled4(Scaled4(x)) == x
  {
    assert Unscaled4(x * 0xc2b2ae35) == x;
    hide Unscaled4;
  }

  /** The final mixing loses nothing; only the folding to thirty bits does. */
  lemma FinalUndone(h: bv32)
    ensures Unfolded16(Unscaled3(Unfolded13(Unscaled4(Unfolded16(FinalMix(h)))))) == h
  {
    hide Folded16, Folded13, Scaled3, Scaled4, Unfolded16, Unfolded13, Unscaled3, Unscaled4;
    var h1 := Folded16(h);
    var h2 := Scaled3(h1);
    var h3 := Folded13(h2);
    Unfolds16(h);
    Unscales3(h1);
    Unfolds13(h2);
    Unscales4(h3);
    Unfolds16(Scaled4(h3));
  }

  // ----- Strings -------------------------------------------------------------

  predicate IsBytes(s: seq<nat>) {
    forall i :: 0 <= i < |s| ==> s[i] < 256
  }

  /** The number in up to four bytes from `i` on, the lowest first. */
  function Group(s: seq<nat>, i: nat): nat
    requires i <= |s|
  {
    (if i < |s| then s[i] else 0) + 0x100 * (if i + 1 < |s| then s[i + 1] else 0)
      + 0x1_0000 * (if i + 2 < |s| then s[i + 2] else 0) + 0x100_0000 * (if i + 3 < |s| then s[i + 3] else 0)
  }

  /** One turn of the loop, or the end. */
  lemma MixBytesStep(h: bv32, s: seq<nat>, i: nat)
    requires i <= |s|
    ensures i == |s| ==> MixBytes(h, s, i) == Combined(h, Low(|s|))
    ensures i < |s| < i + 4 ==> MixBytes(h, s, i) == Combined(Mix(h, Low(Group(s, i))), Low(|s|))
    ensures i + 4 <= |s| ==> MixBytes(h, s, i) == MixBytes(Mix(h, Low(Group(s, i))), s, i + 4)
  {
    hide Mix, Low, Combined;
  }

  lemma GroupTells(s: seq<nat>, t: seq<nat>, i: nat)
    requires i < |s| == |t| && IsBytes(s) && IsBytes(t) && Low(Group(s, i)) == Low(Group(t, i))
    ensures forall j :: i <= j < |s| && j < i + 4 ==> s[j] == t[j]
  {
    hide Word, Low;
    GroupBelow(s, i);
    GroupBelow(t, i);
    WordTells(Group(s, i), Group(t, i));
    var n := |s|;
    FourTell(s[i], if i + 1 < n then s[i + 1] else 0, if i + 2 < n then s[i + 2] else 0, if i + 3 < n then s[i + 3] else 0,
             t[i], if i + 1 < n then t[i + 1] else 0, if i + 2 < n then t[i + 2] else 0, if i + 3 < n then t[i + 3] else 0);
  }

  lemma FourTell(a: nat, b: nat, c: nat, d: nat, a': nat, b': nat, c': nat, d': nat)
    requires a < 256 && b < 256 && c < 256 && d < 256 && a' < 256 && b' < 256 && c' < 256 && d' < 256
    requires a + 0x100 * b + 0x1_0000 * c + 0x100_0000 * d == a' + 0x100 * b' + 0x1_0000 * c' + 0x100_0000 * d'
    ensures a == a' && b == b' && c == c' && d == d'
  {
    var n := a + 0x100 * b + 0x1_0000 * c + 0x100_0000 * d;
    BytesOf(n, a, b, c, d);
    BytesOf(n, a', b', c', d');
  }

  lemma GroupBelow(s: seq<nat>, i: nat)
    requires i <= |s| && IsBytes(s)
    ensures Group(s, i) < 0x1_0000_0000 && Low(Group(s, i)) == Word(Group(s, i))
  {
    hide Word;
  }

  lemma XorSeparates(a: bv32, b: bv32, c: bv32)
    requires Combined(a, c) == Combined(b, c)
    ensures a == b
  {
    hide Combined;
    Uncombines(a, c);
    Uncombines(b, c);
  }

  /** What follows does not bring different hashes together again. */
  lemma {:induction false} StaysApart(h1: bv32, h2: bv32, s: seq<nat>, t: seq<nat>, i: nat)
    requires h1 != h2 && i <= |s| == |t| && forall j :: i <= j < |s| ==> s[j] == t[j]
    ensures MixBytes(h1, s, i) != MixBytes(h2, t, i)
    decreases |s| - i
  {
    hide Mix, Low, MixBytes, Combined;
    MixBytesStep(h1, s, i);
    MixBytesStep(h2, t, i);
    var d := Low(Group(s, i));
    assert Group(s, i) == Group(t, i);
    if Mix(h1, d) == Mix(h2, d) { MixSeparates(h1, d, h2, d); }
    if i + 4 <= |s| {
      StaysApart(Mix(h1, d), Mix(h2, d), s, t, i + 4);
    } else if MixBytes(h1, s, i) == MixBytes(h2, t, i) {
      XorSeparates(if i == |s| then h1 else Mix(h1, d), if i == |s| then h2 else Mix(h2, d), Low(|s|));
    }
  }

  /** The strings agree outside the group of four bytes that begins at `g`. */
  ghost predicate AgreeBut(s: seq<nat>, t: seq<nat>, g: nat) {
    |s| == |t| && forall j :: 0 <= j < |s| && !(g <= j < g + 4) ==> s[j] == t[j]
  }

  /** Strings of one length that differ within one group of four bytes, the rest at the end included, are mixed in differently. */
  lemma {:induction false} StringsApart(h: bv32, s: seq<nat>, t: seq<nat>, i: nat, g: nat)
    requires IsBytes(s) && IsBytes(t) && AgreeBut(s, t, g) && s != t && i <= g < |s| && (g - i) % 4 == 0
    ensures MixBytes(h, s, i) != MixBytes(h, t, i)
    decreases |s| - i
  {
    hide Mix, Low, MixBytes, Combined;
    MixBytesStep(h, s, i);
    MixBytesStep(h, t, i);
    if i < g {
      assert Group(s, i) == Group(t, i);
      StringsApart(Mix(h, Low(Group(s, i))), s, t, i + 4, g);
    } else {
      ApartHere(h, s, t, i);
    }
  }

  lemma ApartHere(h: bv32, s: seq<nat>, t: seq<nat>, i: nat)
    requires IsBytes(s) && IsBytes(t) && AgreeBut(s, t, i) && s != t && i < |s|
    ensures MixBytes(h, s, i) != MixBytes(h, t, i)
  {
    hide Mix, Low, MixBytes, Group, Combined;
    MixBytesStep(h, s, i);
    MixBytesStep(h, t, i);
    var d1, d2 := Low(Group(s, i)), Low(Group(t, i));
    if d1 == d2 { GroupTells(s, t, i); }
    assert d1 != d2;
    if Mix(h, d1) == Mix(h, d2) { MixSeparates(h, d1, h, d2); }
    if i + 4 <= |s| {
      StaysApart(Mix(h, d1), Mix(h, d2), s, t, i + 4);
    } else if MixBytes(h, s, i) == MixBytes(h, t, i) {
      XorSeparates(Mix(h, d1), Mix(h, d2), Low(|s|));
    }
  }

  // ----- Integers, headers and floats ----------------------------------------

  lemma AllOnes()
    ensures Low(0) == 0 && Low(0xFFFF_FFFF) == 0xFFFF_FFFF
  {
    WordOfBytes(0, 0, 0, 0, 0);
    WordOfBytes(0xFFFF_FFFF, 255, 255, 255, 255);
    assert Octet(0) == 0 && Octet(255) == 255;
    hide Octet;
  }

  /** Integers in the range of 32 bits are mixed in as on a 32-bit platform. */
  lemma IntnatIsWord(h: bv32, d: int)
    requires -0x8000_0000 <= d < 0x8000_0000
    ensures MixIntnat(h, d) == Mix(h, Low(d))
  {
    hide Mix, Low, Combined;
    AllOnes();
    TwosComplement(d);
    SameLow(d);
    SignFolds(if d >= 0 then 0 else 0xFFFF_FFFF, Low(d));
  }

  lemma SignFolds(a: bv32, c: bv32)
    ensures Combined(Combined(a, a), c) == c
  {
  }

  lemma TwosComplement(d: int)
    requires -0x8000_0000 <= d < 0x8000_0000
    ensures var w := d % 0x1_0000_0000_0000_0000;
      && w / 0x1_0000_0000 == (if d >= 0 then 0 else 0xFFFF_FFFF) && (w >= 0x8000_0000_0000_0000 <==> d < 0)
      && w % 0x1_0000_0000 == d % 0x1_0000_0000
  {
    if d >= 0 {
      assert d % 0x1_0000_0000_0000_0000 == d;
    } else {
      assert d % 0x1_0000_0000_0000_0000 == d + 0x1_0000_0000_0000_0000;
    }
  }

  lemma SameLow(d: int)
    requires -0x8000_0000 <= d < 0x8000_0000
    ensures Low(d % 0x1_0000_0000_0000_0000) == Low(d)
  {
    hide Word;
    TwosComplement(d);
  }

  /** Other integers of a word are folded: the halves are combined, the high one complemented when it is negative. */
  lemma IntnatFolds(h: bv32, hi: int, lo: nat)
    requires -0x8000_0000 <= hi < 0x8000_0000 && lo < 0x1_0000_0000
    ensures MixIntnat(h, hi * 0x1_0000_0000 + lo) == Mix(h, Combined(if hi >= 0 then Low(hi) else !Low(hi), Low(lo)))
  {
    hide Mix, Low, Combined;
    WordHalves(hi, lo);
    SameHalves(hi, lo);
    Complement(Low(hi));
  }

  lemma Complement(a: bv32)
    ensures Combined(a, 0xFFFF_FFFF) == !a && Combined(a, 0) == a
  {
  }

  lemma WordHalves(hi: int, lo: nat)
    requires -0x8000_0000 <= hi < 0x8000_0000 && lo < 0x1_0000_0000
    ensures var w := (hi * 0x1_0000_0000 + lo) % 0x1_0000_0000_0000_0000;
      && w / 0x1_0000_0000 == hi % 0x1_0000_0000 && w % 0x1_0000_0000 == lo
      && (w >= 0x8000_0000_0000_0000 <==> hi < 0)
  {
    SignedResidue(hi);
    var top := hi % 0x1_0000_0000;
    assert (hi * 0x1_0000_0000 + lo) % 0x1_0000_0000_0000_0000 == top * 0x1_0000_0000 + lo;
  }

  lemma SameHalves(hi: int, lo: nat)
    requires -0x8000_0000 <= hi < 0x8000_0000 && lo < 0x1_0000_0000
    ensures var w := (hi * 0x1_0000_0000 + lo) % 0x1_0000_0000_0000_0000;
      Low(w / 0x1_0000_0000) == Low(hi) && Low(w) == Low(lo)
  {
    hide Word;
    WordHalves(hi, lo);
    SignedResidue(hi);
  }

  /** Null is mixed in differently from every integer of 31 bits. */
  lemma NullApart(h: bv32, n: int)
    requires -0x4000_0000 <= n < 0x4000_0000
    ensures MixIntnat(h, WordOf(Null)) != MixIntnat(h, WordOf(Int(n)))
  {
    hide Mix, MixIntnat, Low;
    IntnatIsWord(h, 0);
    IntnatIsWord(h, 2 * n + 1);
    var a, b := Low(0), Low(2 * n + 1);
    if a == b { LowTells(0, 2 * n + 1); }
    if Mix(h, a) == Mix(h, b) { MixSeparates(h, a, h, b); }
  }

  /** Different integers of 31 bits are mixed in differently. */
  lemma IntsApart(h: bv32, n: int, m: int)
    requires -0x4000_0000 <= n < 0x4000_0000 && -0x4000_0000 <= m < 0x4000_0000 && n != m
    ensures MixIntnat(h, WordOf(Int(n))) != MixIntnat(h, WordOf(Int(m)))
  {
    hide Mix, MixIntnat, Low;
    IntnatIsWord(h, 2 * n + 1);
    IntnatIsWord(h, 2 * m + 1);
    var a, b := Low(2 * n + 1), Low(2 * m + 1);
    if a == b { LowTells(2 * n + 1, 2 * m + 1); }
    if Mix(h, a) == Mix(h, b) { MixSeparates(h, a, h, b); }
  }

  lemma LowTells(n: int, m: int)
    requires -0x8000_0000 <= n < 0x8000_0000 && -0x8000_0000 <= m < 0x8000_0000 && Low(n) == Low(m)
    ensures n == m
  {
    hide Word;
    WordTells(n % 0x1_0000_0000, m % 0x1_0000_0000);
    SignedResidue(n);
    SignedResidue(m);
  }

  lemma SignedResidue(n: int)
    requires -0x8000_0000 <= n < 0x8000_0000
    ensures n % 0x1_0000_0000 == if n >= 0 then n else n + 0x1_0000_0000
  {
  }

  /** Blocks of a different tag or size are told apart before their fields are looked at. */
  lemma HeadersApart(h: bv32, t1: nat, s1: nat, t2: nat, s2: nat)
    requires t1 < 256 && t2 < 256 && s1 < 0x40_0000 && s2 < 0x40_0000 && (t1 != t2 || s1 != s2)
    ensures Mix(h, Low(HeaderOf(t1, s1))) != Mix(h, Low(HeaderOf(t2, s2)))
  {
    hide Mix, Low;
    var a, b := HeaderOf(t1, s1), HeaderOf(t2, s2);
    HeaderTells(t1, s1, t2, s2);
    if Low(a) == Low(b) { LowTellsAll(a, b); }
    if Mix(h, Low(a)) == Mix(h, Low(b)) { MixSeparates(h, Low(a), h, Low(b)); }
  }

  lemma HeaderTells(t1: nat, s1: nat, t2: nat, s2: nat)
    requires t1 < 256 && t2 < 256 && s1 < 0x40_0000 && s2 < 0x40_0000
    ensures HeaderOf(t1, s1) == HeaderOf(t2, s2) ==> t1 == t2 && s1 == s2
    ensures 0 <= HeaderOf(t1, s1) < 0x1_0000_0000 && 0 <= HeaderOf(t2, s2) < 0x1_0000_0000
  {
  }

  lemma LowTellsAll(n: int, m: int)
    requires 0 <= n < 0x1_0000_0000 && 0 <= m < 0x1_0000_0000 && Low(n) == Low(m)
    ensures n == m
  {
    hide Word;
    WordTells(n, m);
  }

  /** Floats whose normal forms differ in one half of their bits are mixed in differently. */
  lemma DoublesApart(h: bv32, d1: Float, d2: Float)
    requires var n1, n2 := Normalized(d1), Normalized(d2); n1 != n2 && (n1.hi == n2.hi || n1.lo == n2.lo)
    ensures MixDouble(h, d1) != MixDouble(h, d2)
  {
    hide Mix, Low, Normalized;
    var n1, n2 := Normalized(d1), Normalized(d2);
    var l1, l2, h1, h2 := Low(n1.lo), Low(n2.lo), Low(n1.hi), Low(n2.hi);
    if l1 == l2 { LowTellsAll(n1.lo, n2.lo); }
    if h1 == h2 { LowTellsAll(n1.hi, n2.hi); }
    if Mix(h, l1) == Mix(h, l2) { MixSeparates(h, l1, h, l2); }
    if Mix(Mix(h, l1), h1) == Mix(Mix(h, l2), h2) { MixSeparates(Mix(h, l1), h1, Mix(h, l2), h2); }
  }

  /** Normal forms differ exactly where the comparison does, a NaN being equal to every other. */
  lemma NormalFormsTell(d1: Float, d2: Float)
    ensures Normalized(d1) == Normalized(d2) <==> CmpFloat(d1, d2, true) == Equal
  {
    if CmpFloat(d1, d2, true) == Equal { SameNormalized(d1, d2); }
    FloatByRank(d1, d2);
    hide CmpFloat, Key, IsNaN;
    ZeroKeys(d1);
    ZeroKeys(d2);
    NormalNaN();
  }

  lemma ZeroKeys(d: Float)
    ensures d.lo == 0 && (d.hi == 0 || d.hi == 0x8000_0000) ==> Key(d) == 0 && !IsNaN(d)
  {
  }

  lemma NormalNaN()
    ensures IsNaN(Float(0x7FF0_0000, 1))
  {
  }

  // ----- The bounds of the walk ----------------------------------------------

  /** The queue has 256 places; a limit within that is respected, zero included. */
  lemma QueueBounds(limit: int)
    ensures 0 <= limit <= 256 ==> QueueLimit(limit) == limit
    ensures limit < 0 || limit > 256 ==> QueueLimit(limit) == 256
  {
  }

  /** Fields enter in order, as many as there is room for. */
  lemma EnqueueTakes(queue: seq<Value>, fields: seq<Value>, sz: nat)
    requires |queue| <= 256 && sz <= 256
    ensures var q := Enqueue(queue, fields, sz);
      && q[..|queue|] == queue && (forall i :: |queue| <= i < |q| ==> i - |queue| < |fields| && q[i] == fields[i - |queue|])
      && |q| == if |queue| + |fields| <= sz then |queue| + |fields| else if |queue| <= sz then sz else |queue|
  {
  }

  /** Values without forwarding blocks, and integers behind up to 1000 of them, are within the reach of the walk. */
  lemma {:induction false} PlainIsShallow(v: Value)
    requires Plain(v)
    ensures Shallow(v)
    decreases v
  {
    if v.Block? {
      forall i | 0 <= i < |v.fields| ensures Shallow(v.fields[i]) { PlainIsShallow(v.fields[i]); }
    }
  }

  lemma {:induction false} ChainIsShallow(n: int, k: nat)
    ensures Shallow(Chain(Int(n), k)) <==> k <= 1000
  {
    ChainStrips(Int(n), k, 1000);
    if 0 < k <= 1000 { ChainIsShallow(n, k - 1); }
  }
}
