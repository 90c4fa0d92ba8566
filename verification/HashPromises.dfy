/**
The hashes that the runtime promises to be the same on all platforms, and how lists of
integers are hashed: in order, as long as elements count.
*/
module HashPromises {
  import opened Options
  import opened WordBits
  import opened StructuralCompare
  import opened GenericHash
  import opened HashLaws

  /** The hash of a value that is mixed in as a whole. */
  lemma HashOfOne(count: int, limit: int, seed: int, v: Value)
    requires count > 0 && (v.Int? || v.Str? || v.Dbl?)
    ensures Hash(count, limit, seed, v) == Digest(
      match v
      case Int(n) => MixIntnat(Low(seed), 2 * n + 1)
      case Str(s) => MixBytes(Low(seed), s, 0)
      case Dbl(d) => MixDouble(Low(seed), d)
      case _ => 0)
  {
    hide Mix, Low, Digest, MixIntnat, MixBytes, MixDouble;
    var w, sz := Walk([v], 0, count, Low(seed)), QueueLimit(limit);
    assert Strip(v, MAX_FORWARD_DEREFERENCE) == Some(v);
    assert Finish(w, sz) == Finish(Next(w, sz), sz) == Next(w, sz).h;
  }

  // ----- Lists ---------------------------------------------------------------

  /** A list of integers: cells of tag 0 with two fields, and the integer 0 at the end. */
  function ListOf(ns: seq<int>): Value {
    if ns == [] then Int(0) else Block(0, [Int(ns[0]), ListOf(ns[1..])])
  }

  /** The elements in order, each behind the header of its cell, as long as `num` lasts. */
  function ListHash(ns: seq<int>, num: int, h: bv32): bv32 {
    if ns == [] then MixIntnat(h, 1)
    else
      var h1 := MixIntnat(Mix(h, Low(0x800)), 2 * ns[0] + 1);
      if num <= 1 then h1 else ListHash(ns[1..], num - 1, h1)
  }

  lemma ListStep(ns: seq<int>, num: int, h: bv32)
    requires ns != [] && -0x4000_0000 <= ns[0] < 0x4000_0000
    ensures ListHash(ns, num, h) ==
      var h1 := Mix(Mix(h, Low(0x800)), Low(2 * ns[0] + 1)); if num <= 1 then h1 else ListHash(ns[1..], num - 1, h1)
  {
    hide Mix, Low, MixIntnat;
    IntnatIsWord(Mix(h, Low(0x800)), 2 * ns[0] + 1);
  }

  /** The walk at the cell that the queue ends with. */
  lemma {:induction false} FinishList(ns: seq<int>, queue: seq<Value>, num: int, h: bv32, sz: nat)
    requires num > 0 && |queue| + 1 + 2 * |ns| <= sz <= HASH_QUEUE_SIZE
    ensures Finish(Walk(queue + [ListOf(ns)], |queue|, num, h), sz) == ListHash(ns, num, h)
    decreases |ns|
  {
    hide Mix, Low, MixIntnat;
    var w := Walk(queue + [ListOf(ns)], |queue|, num, h);
    assert w.queue[w.rd] == ListOf(ns) && Strip(ListOf(ns), MAX_FORWARD_DEREFERENCE) == Some(ListOf(ns));
    if ns == [] {
      assert Finish(w, sz) == Finish(Next(w, sz), sz) == Next(w, sz).h;
    } else {
      var first, rest := Int(ns[0]), ListOf(ns[1..]);
      var queue' := queue + [ListOf(ns), first];
      var w1 := Next(w, sz);
      assert w1.queue == queue' + [rest] && w1.rd == |queue| + 1 && w1.num == num;
      assert w1.queue[w1.rd] == first && Strip(first, MAX_FORWARD_DEREFERENCE) == Some(first);
      var w2 := Next(w1, sz);
      assert w2 == Walk(queue' + [rest], |queue'|, num - 1, w2.h);
      assert Finish(w, sz) == Finish(w1, sz) == Finish(w2, sz);
      if num > 1 { FinishList(ns[1..], queue', num - 1, w2.h, sz); }
    }
  }

  /** A list is hashed by its elements in order, as long as the queue has room for it and elements count. */
  lemma HashOfList(ns: seq<int>, count: int, limit: int, seed: int)
    requires count > 0 && 1 + 2 * |ns| <= QueueLimit(limit)
    ensures Hash(count, limit, seed, ListOf(ns)) == Digest(ListHash(ns, count, Low(seed)))
  {
    hide Digest, Low, ListHash, ListOf, Finish;
    assert [] + [ListOf(ns)] == [ListOf(ns)];
    FinishList(ns, [], count, Low(seed), QueueLimit(limit));
  }

  /** Only the first `num` elements count. */
  lemma {:induction false} FirstElements(ns: seq<int>, ms: seq<int>, num: nat, h: bv32)
    requires 0 < num <= |ns| && num <= |ms| && ns[..num] == ms[..num]
    ensures ListHash(ns, num, h) == ListHash(ms, num, h)
    decreases num
  {
    hide Mix, Low, MixIntnat;
    assert ns[0] == ns[..num][0] == ms[..num][0] == ms[0];
    if num > 1 {
      assert ns[1..][..num - 1] == ns[..num][1..] == ms[..num][1..] == ms[1..][..num - 1];
      FirstElements(ns[1..], ms[1..], num - 1, MixIntnat(Mix(h, Low(0x800)), 2 * ns[0] + 1));
    }
  }

  // ----- The values of the test suite ----------------------------------------

  lemma SomeOctets()
    ensures Octet(0) == 0 && Octet(1) == 1 && Octet(3) == 3 && Octet(5) == 5 && Octet(7) == 7 && Octet(8) == 8 && Octet(9) == 9
    ensures Octet(11) == 11 && Octet(13) == 13 && Octet(15) == 15 && Octet(17) == 17 && Octet(19) == 19 && Octet(21) == 21 && Octet(32) == 32
    ensures Octet(72) == 72 && Octet(85) == 85 && Octet(100) == 100 && Octet(101) == 101 && Octet(108) == 108 && Octet(111) == 111 && Octet(114) == 114
    ensures Octet(119) == 119 && Octet(127) == 127 && Octet(128) == 128 && Octet(240) == 240 && Octet(255) == 255
  {
    hide Octet;
    Octets1();
    Octets2();
    Octets3();
    Octets4();
  }

  lemma Octets1()
    ensures Octet(0) == 0 && Octet(1) == 1 && Octet(3) == 3 && Octet(5) == 5 && Octet(7) == 7 && Octet(8) == 8 && Octet(9) == 9
  {
  }

  lemma Octets2()
    ensures Octet(11) == 11 && Octet(13) == 13 && Octet(15) == 15 && Octet(17) == 17 && Octet(19) == 19 && Octet(21) == 21 && Octet(32) == 32
  {
  }

  lemma Octets3()
    ensures Octet(72) == 72 && Octet(85) == 85 && Octet(100) == 100 && Octet(101) == 101 && Octet(108) == 108 && Octet(111) == 111 && Octet(114) == 114
  {
  }

  lemma Octets4()
    ensures Octet(119) == 119 && Octet(127) == 127 && Octet(128) == 128 && Octet(240) == 240 && Octet(255) == 255
  {
  }

  lemma TextWords()
    ensures Low(1819043144) == 1819043144 && Low(1870078063) == 1870078063 && Low(6581362) == 6581362 && Low(11) == 11 && Low(0) == 0
  {
    hide Octet, Low;
    SomeOctets();
    WordOfBytes(1819043144, 72, 101, 108, 108);
    WordOfBytes(1870078063, 111, 32, 119, 111);
    WordOfBytes(6581362, 114, 108, 100, 0);
    WordOfBytes(11, 11, 0, 0, 0);
    WordOfBytes(0, 0, 0, 0, 0);
  }

  lemma TextMixes()
    ensures Mix(0x0, 1819043144) == 0xcb5bec36
    ensures Mix(0xcb5bec36, 1870078063) == 0xd8cc6150
    ensures Mix(0xd8cc6150, 6581362) == 0x9d0be9c5
  {
  }

  lemma TextDigests()
    ensures Digest(0x0) == 0x0
    ensures Digest(0x9d0be9ce) == 0x364b8272
  {
  }

  /** The strings of the test of the hash function. */
  lemma PromisedStrings()
    ensures Hash(10, 100, 0, Str([])) == 0
    ensures Hash(10, 100, 0, Str([72, 101, 108, 108, 111, 32, 119, 111, 114, 108, 100])) == 0x364b_8272
  {
    hide Mix, Low, Digest, MixBytes;
    var s := [72, 101, 108, 108, 111, 32, 119, 111, 114, 108, 100];
    TextWords();
    TextMixes();
    TextDigests();
    MixBytesStep(0, [], 0);
    MixBytesStep(0, s, 0);
    MixBytesStep(0xcb5bec36, s, 4);
    MixBytesStep(0xd8cc6150, s, 8);
    HashOfOne(10, 100, 0, Str([]));
    HashOfOne(10, 100, 0, Str(s));
  }

  lemma IntWords()
    ensures Low(1) == 1 && Low(4294967295) == 4294967295 && Low(85) == 85 && Low(2147483647) == 2147483647 && Low(2147483649) == 2147483649
  {
    hide Octet, Low;
    SomeOctets();
    WordOfBytes(1, 1, 0, 0, 0);
    WordOfBytes(4294967295, 255, 255, 255, 255);
    WordOfBytes(85, 85, 0, 0, 0);
    WordOfBytes(2147483647, 255, 255, 255, 127);
    WordOfBytes(2147483649, 1, 0, 0, 128);
  }

  lemma IntMixes()
    ensures Mix(0x0, 1) == 0x26cf0576
    ensures Mix(0x0, 4294967295) == 0x145ee0d5
    ensures Mix(0x0, 85) == 0x9443ad7
    ensures Mix(0x0, 2147483647) == 0xc5ec136
    ensures Mix(0x0, 2147483649) == 0x2ecf2515
  {
  }

  lemma IntDigests()
    ensures Digest(0x26cf0576) == 0x7be548a
    ensures Digest(0x145ee0d5) == 0x3653e015
    ensures Digest(0x9443ad7) == 0x1792870b
    ensures Digest(0xc5ec136) == 0x23c392d0
    ensures Digest(0x2ecf2515) == 0xc66fde3
  {
  }

  /** The integers. */
  lemma PromisedInts()
    ensures Hash(10, 100, 0, Int(0)) == 0x7be548a
    ensures Hash(10, 100, 0, Int(-1)) == 0x3653e015
    ensures Hash(10, 100, 0, Int(42)) == 0x1792870b
    ensures Hash(10, 100, 0, Int(1073741823)) == 0x23c392d0
    ensures Hash(10, 100, 0, Int(-1073741824)) == 0xc66fde3
  {
    hide Mix, Low, Digest, MixIntnat;
    IntWords();
    IntMixes();
    IntDigests();
    TextWords();
    IntnatIsWord(0, 1);
    IntnatIsWord(0, -1);
    IntnatIsWord(0, 85);
    IntnatIsWord(0, 2147483647);
    IntnatIsWord(0, -2147483647);
    Residues();
    HashOfOne(10, 100, 0, Int(0));
    HashOfOne(10, 100, 0, Int(-1));
    HashOfOne(10, 100, 0, Int(42));
    HashOfOne(10, 100, 0, Int(1073741823));
    HashOfOne(10, 100, 0, Int(-1073741824));
  }

  lemma Residues()
    ensures Low(-1) == Low(4294967295) && Low(-2147483647) == Low(2147483649)
  {
    hide Word;
  }

  lemma FloatWords()
    ensures Low(0) == 0 && Low(1) == 1 && Low(2146435072) == 2146435072 && Low(4293918720) == 4293918720
  {
    hide Octet, Low;
    SomeOctets();
    WordOfBytes(0, 0, 0, 0, 0);
    WordOfBytes(1, 1, 0, 0, 0);
    WordOfBytes(2146435072, 0, 0, 240, 127);
    WordOfBytes(4293918720, 0, 0, 240, 255);
  }

  lemma FloatMixes()
    ensures Mix(0x0, 0) == 0xe6546b64
    ensures Mix(0xe6546b64, 0) == 0xa9737b56
    ensures Mix(0xe6546b64, 2146435072) == 0xf6ac05ef
    ensures Mix(0xe6546b64, 4293918720) == 0x4eabfabe
    ensures Mix(0x0, 1) == 0x26cf0576
    ensures Mix(0x26cf0576, 2146435072) == 0x9b77be30
  {
  }

  lemma FloatDigests()
    ensures Digest(0xa9737b56) == 0xf478b8c
    ensures Digest(0xf6ac05ef) == 0x23ea56fb
    ensures Digest(0x4eabfabe) == 0x59f7872
    ensures Digest(0x9b77be30) == 0x3228858d
  {
  }

  /** Both zeros, both infinities, and any NaN. */
  lemma PromisedFloats(d: Float)
    ensures Hash(10, 100, 0, Dbl(Float(0, 0))) == Hash(10, 100, 0, Dbl(Float(0x8000_0000, 0))) == 0x0f47_8b8c
    ensures Hash(10, 100, 0, Dbl(Float(0x7FF0_0000, 0))) == 0x23ea_56fb
    ensures Hash(10, 100, 0, Dbl(Float(0xFFF0_0000, 0))) == 0x059f_7872
    ensures IsNaN(d) ==> Hash(10, 100, 0, Dbl(d)) == 0x3228_858d
  {
    NormalForms(d);
    hide Mix, Low, Digest, IsNaN, Normalized;
    FloatWords();
    FloatMixes();
    FloatDigests();
    HashOfOne(10, 100, 0, Dbl(Float(0, 0)));
    HashOfOne(10, 100, 0, Dbl(Float(0x8000_0000, 0)));
    HashOfOne(10, 100, 0, Dbl(Float(0x7FF0_0000, 0)));
    HashOfOne(10, 100, 0, Dbl(Float(0xFFF0_0000, 0)));
    HashOfOne(10, 100, 0, Dbl(d));
  }

  lemma NormalForms(d: Float)
    ensures Normalized(Float(0, 0)) == Normalized(Float(0x8000_0000, 0)) == Float(0, 0)
    ensures Normalized(Float(0x7FF0_0000, 0)) == Float(0x7FF0_0000, 0)
    ensures Normalized(Float(0xFFF0_0000, 0)) == Float(0xFFF0_0000, 0)
    ensures IsNaN(d) ==> Normalized(d) == Float(0x7FF0_0000, 1)
  {
  }

  lemma CellWords()
    ensures Low(2048) == 2048 && Low(1) == 1 && Low(3) == 3 && Low(5) == 5 && Low(7) == 7 && Low(9) == 9 && Low(11) == 11 && Low(13) == 13 && Low(15) == 15 && Low(17) == 17 && Low(19) == 19 && Low(21) == 21
  {
    hide Octet, Low;
    SomeOctets();
    WordOfBytes(2048, 0, 8, 0, 0);
    WordOfBytes(1, 1, 0, 0, 0);
    WordOfBytes(3, 3, 0, 0, 0);
    WordOfBytes(5, 5, 0, 0, 0);
    WordOfBytes(7, 7, 0, 0, 0);
    WordOfBytes(9, 9, 0, 0, 0);
    WordOfBytes(11, 11, 0, 0, 0);
    WordOfBytes(13, 13, 0, 0, 0);
    WordOfBytes(15, 15, 0, 0, 0);
    WordOfBytes(17, 17, 0, 0, 0);
    WordOfBytes(19, 19, 0, 0, 0);
    WordOfBytes(21, 21, 0, 0, 0);
  }

  lemma UpwardMixes()
    ensures Mix(0x0, 2048) == 0x83ea59b2
    ensures Mix(0x83ea59b2, 1) == 0xc9f3d7
    ensures Mix(0xc9f3d7, 2048) == 0x8b57f98f
    ensures Mix(0x8b57f98f, 3) == 0x873cee2
    ensures Mix(0x873cee2, 2048) == 0xaa1d1ebc
    ensures Mix(0xaa1d1ebc, 5) == 0x48b8f5db
    ensures Mix(0x48b8f5db, 2048) == 0x2c955649
    ensures Mix(0x2c955649, 7) == 0xfb8dfa01
    ensures Mix(0xfb8dfa01, 2048) == 0x6293a87
    ensures Mix(0x6293a87, 9) == 0xed2e120c
    ensures Mix(0xed2e120c, 2048) == 0x4f225483
    ensures Mix(0x4f225483, 11) == 0x1fc26445
    ensures Mix(0x1fc26445, 2048) == 0xb23f492a
    ensures Mix(0xb23f492a, 13) == 0x11b458eb
    ensures Mix(0x11b458eb, 2048) == 0xe05782a4
    ensures Mix(0xe05782a4, 15) == 0xf099af7e
    ensures Mix(0xf099af7e, 2048) == 0xa70f175d
    ensures Mix(0xa70f175d, 17) == 0xd3f6e5e6
    ensures Mix(0xd3f6e5e6, 2048) == 0xe27a298c
    ensures Mix(0xe27a298c, 19) == 0x48ce6dfe
  {
  }

  lemma DownwardMixes()
    ensures Mix(0x0, 2048) == 0x83ea59b2
    ensures Mix(0x83ea59b2, 21) == 0x3a68c5d8
    ensures Mix(0x3a68c5d8, 2048) == 0xe97538b
    ensures Mix(0xe97538b, 19) == 0x728b5f6f
    ensures Mix(0x728b5f6f, 2048) == 0x504c627
    ensures Mix(0x504c627, 17) == 0x86c4eb2b
    ensures Mix(0x86c4eb2b, 2048) == 0x9caf2aca
    ensures Mix(0x9caf2aca, 15) == 0x59b437e5
    ensures Mix(0x59b437e5, 2048) == 0x25bb1fa4
    ensures Mix(0x25bb1fa4, 13) == 0x72c5f6fb
    ensures Mix(0x72c5f6fb, 2048) == 0xd21464a
    ensures Mix(0xd21464a, 11) == 0xb725dd85
    ensures Mix(0xb725dd85, 2048) == 0xf3b6e03e
    ensures Mix(0xf3b6e03e, 9) == 0xcec17e8b
    ensures Mix(0xcec17e8b, 2048) == 0xd85307ca
    ensures Mix(0xd85307ca, 7) == 0x9ddd6109
    ensures Mix(0x9ddd6109, 2048) == 0x50847a65
    ensures Mix(0x50847a65, 5) == 0x22651ddc
    ensures Mix(0x22651ddc, 2048) == 0x6b94c486
    ensures Mix(0x6b94c486, 3) == 0xcd8f5b5a
  {
  }

  lemma ListDigests()
    ensures Digest(0x48ce6dfe) == 0xade0fc9
    ensures Digest(0xcd8f5b5a) == 0xcd6259d
  {
  }

  /** The lists: only the first ten elements count. */
  lemma PromisedLists()
    ensures Hash(10, 100, 0, ListOf([0, 1, 2, 3, 4, 5, 6, 7, 8, 9, 10])) == 0x0ade_0fc9
    ensures Hash(10, 100, 0, ListOf([0, 1, 2, 3, 4, 5, 6, 7, 8, 9, 10, 11, 12])) == 0x0ade_0fc9
    ensures Hash(10, 100, 0, ListOf([10, 9, 8, 7, 6, 5, 4, 3, 2, 1, 0])) == 0x0cd6_259d
  {
    hide Mix, Low, Digest, ListOf, ListHash, Hash;
    var up, more, down := [0, 1, 2, 3, 4, 5, 6, 7, 8, 9, 10], [0, 1, 2, 3, 4, 5, 6, 7, 8, 9, 10, 11, 12],
      [10, 9, 8, 7, 6, 5, 4, 3, 2, 1, 0];
    CellWords();
    HashOfList(up, 10, 100, 0);
    HashOfList(more, 10, 100, 0);
    HashOfList(down, 10, 100, 0);
    FirstElements(up, more, 10, 0);
    UpwardList(up);
    DownwardList(down);
    ListDigests();
    TextWords();
  }

  lemma UpwardList(ns: seq<int>)
    requires ns == [0, 1, 2, 3, 4, 5, 6, 7, 8, 9, 10]
    ensures ListHash(ns, 10, 0) == 0x48ce6dfe
  {
    hide Mix, Low, MixIntnat, ListHash;
    CellWords();
    UpwardMixes();
    assert ns[0..] == ns;
    ListStep(ns[0..], 10, 0x0);
    assert ns[0..][1..] == ns[1..];
    ListStep(ns[1..], 9, 0xc9f3d7);
    assert ns[1..][1..] == ns[2..];
    ListStep(ns[2..], 8, 0x873cee2);
    assert ns[2..][1..] == ns[3..];
    ListStep(ns[3..], 7, 0x48b8f5db);
    assert ns[3..][1..] == ns[4..];
    ListStep(ns[4..], 6, 0xfb8dfa01);
    assert ns[4..][1..] == ns[5..];
    ListStep(ns[5..], 5, 0xed2e120c);
    assert ns[5..][1..] == ns[6..];
    ListStep(ns[6..], 4, 0x1fc26445);
    assert ns[6..][1..] == ns[7..];
    ListStep(ns[7..], 3, 0x11b458eb);
    assert ns[7..][1..] == ns[8..];
    ListStep(ns[8..], 2, 0xf099af7e);
    assert ns[8..][1..] == ns[9..];
    ListStep(ns[9..], 1, 0xd3f6e5e6);
  }

  lemma DownwardList(ns: seq<int>)
    requires ns == [10, 9, 8, 7, 6, 5, 4, 3, 2, 1, 0]
    ensures ListHash(ns, 10, 0) == 0xcd8f5b5a
  {
    hide Mix, Low, MixIntnat, ListHash;
    CellWords();
    DownwardMixes();
    assert ns[0..] == ns;
    ListStep(ns[0..], 10, 0x0);
    assert ns[0..][1..] == ns[1..];
    ListStep(ns[1..], 9, 0x3a68c5d8);
    assert ns[1..][1..] == ns[2..];
    ListStep(ns[2..], 8, 0x728b5f6f);
    assert ns[2..][1..] == ns[3..];
    ListStep(ns[3..], 7, 0x86c4eb2b);
    assert ns[3..][1..] == ns[4..];
    ListStep(ns[4..], 6, 0x59b437e5);
    assert ns[4..][1..] == ns[5..];
    ListStep(ns[5..], 5, 0x72c5f6fb);
    assert ns[5..][1..] == ns[6..];
    ListStep(ns[6..], 4, 0xb725dd85);
    assert ns[6..][1..] == ns[7..];
    ListStep(ns[7..], 3, 0xcec17e8b);
    assert ns[7..][1..] == ns[8..];
    ListStep(ns[8..], 2, 0x9ddd6109);
    assert ns[8..][1..] == ns[9..];
    ListStep(ns[9..], 1, 0x22651ddc);
  }
}
