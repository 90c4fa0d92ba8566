/**
BLAKE2b as a stream: a context collects data in a buffer of one block, and compresses a
block only when more data follows, because the last block is treated specially. However
the data is cut into pieces, the digest is that of section 3.3 of RFC 7693.
*/
module Blake2 {
  import opened Arithmetic
  import opened ByteOrder

  const BLOCKSIZE: nat := 128
  const MAX_KEY: nat := 64
  const MAX_HASH: nat := 64

  /** The two words of the 128-bit offset counter. */
  function LowWord(t: nat): nat {
    t % WORD
  }

  function HighWord(t: nat): nat {
    t / WORD % WORD
  }

  /** A chain value: eight words. */
  type Words = h: seq<nat> | |h| == 8 && forall i :: 0 <= i < 8 ==> h[i] < WORD witness seq(8, i => 0)

  /**
  The compression function, of the chain value, a block, the offset counter and the flag of
  the last block; and the initial chain value for a parameter word.
  */
  datatype Core = Core(compress: (Words, seq<Byte>, nat, nat, bool) -> Words, init: nat -> Words)

  /** Key length and digest length go into the parameter word. */
  function ParameterWord(keyLength: nat, hashLength: nat): nat {
    0x0101_0000 + keyLength * 0x100 + hashLength
  }

  // ----- Section 3.3 of RFC 7693 ---------------------------------------------

  function Padded(s: seq<Byte>): (r: seq<Byte>)
    requires |s| <= BLOCKSIZE
    ensures |r| == BLOCKSIZE
  {
    s + seq(BLOCKSIZE - |s|, i => 0)
  }

  /** What is hashed: the padded key, if there is one, and the data. */
  function Message(key: seq<Byte>, data: seq<Byte>): seq<Byte>
    requires |key| <= MAX_KEY
  {
    if key == [] then data else Padded(key) + data
  }

  /** The number of blocks before the last one; the empty message is one empty block. */
  function FullBlocks(n: nat): (k: nat)
    ensures BLOCKSIZE * k <= n <= BLOCKSIZE * (k + 1) && (n > 0 ==> BLOCKSIZE * k < n)
    ensures n == 0 ==> k == 0
  {
    if n == 0 then 0 else (n - 1) / BLOCKSIZE
  }

  /** The chain value after the first `k` blocks. */
  ghost function Chain(core: Core, h: Words, m: seq<Byte>, k: nat): Words
    requires BLOCKSIZE * k <= |m|
  {
    if k == 0 then h
    else
      var t := BLOCKSIZE * k;
      core.compress(Chain(core, h, m, k - 1), m[t - BLOCKSIZE..t], LowWord(t), HighWord(t), false)
  }

  /** The chain value after the last block of `m`. */
  ghost function Last(core: Core, start: Words, m: seq<Byte>): Words {
    var k := FullBlocks(|m|);
    core.compress(Chain(core, start, m, k), Padded(m[BLOCKSIZE * k..]), LowWord(|m|), HighWord(|m|), true)
  }

  /** The first word of the parameter block of section 2.5: digest length, key length, fanout 1, depth 1. */
  function ParameterBytes(keyLength: nat, hashLength: nat): (b: seq<Byte>)
    requires keyLength <= MAX_KEY && hashLength <= MAX_HASH
  {
    [hashLength, keyLength, 1, 1, 0, 0, 0, 0]
  }

  /** The chain value before the first block. */
  function Start(core: Core, keyLength: nat, hashLength: nat): Words
    requires keyLength <= MAX_KEY && hashLength <= MAX_HASH
  {
    core.init(FromLittleEndian(ParameterBytes(keyLength, hashLength)))
  }

  /** The digest in one go: the first bytes of the words of the last chain value. */
  ghost function Digest(core: Core, key: seq<Byte>, data: seq<Byte>, hashLength: nat): seq<Byte>
    requires |key| <= MAX_KEY && hashLength <= MAX_HASH
  {
    WordBytes(Last(core, Start(core, |key|, hashLength), Message(key, data)))[..hashLength]
  }

  lemma {:induction false} ChainOfPrefix(core: Core, h: Words, m: seq<Byte>, more: seq<Byte>, k: nat)
    requires BLOCKSIZE * k <= |m|
    ensures Chain(core, h, m + more, k) == Chain(core, h, m, k)
  {
    if k > 0 {
      ChainOfPrefix(core, h, m, more, k - 1);
      SliceOfPrefix(m, more, BLOCKSIZE * k - BLOCKSIZE, BLOCKSIZE * k);
      hide LowWord, HighWord;
    }
  }

  lemma SliceOfPrefix(m: seq<Byte>, more: seq<Byte>, i: nat, j: nat)
    requires i <= j <= |m|
    ensures (m + more)[i..j] == m[i..j]
  {
  }

  lemma UniqueFullBlocks(n: nat, k: nat)
    requires BLOCKSIZE * k < n <= BLOCKSIZE * (k + 1)
    ensures FullBlocks(n) == k
  {
  }

  // ----- The definition in literals ------------------------------------------

  /** The word that is mixed into the initial vector is the first of the parameter block. */
  lemma ParameterBlock(keyLength: nat, hashLength: nat)
    requires keyLength <= 64 && hashLength <= 64
    ensures LittleEndian(ParameterWord(keyLength, hashLength), 8) == [hashLength, keyLength, 1, 1, 0, 0, 0, 0]
    ensures FromLittleEndian(ParameterBytes(keyLength, hashLength)) == ParameterWord(keyLength, hashLength)
  {
    Widths();
    LittleEndianBack(ParameterWord(keyLength, hashLength), 8);
    var w := ParameterWord(keyLength, hashLength);
    var w1 := 0x0101_00 + keyLength;
    assert w / 256 == w1 && w % 256 == hashLength;
    assert w1 / 256 == 0x0101 && w1 % 256 == keyLength;
    Unrolled(w);
  }

  lemma Unrolled(w: nat)
    requires w < 0x1_0000_0000
    ensures LittleEndian(w, 8) == [w % 256, w / 256 % 256, w / 256 / 256 % 256, w / 256 / 256 / 256 % 256, 0, 0, 0, 0]
  {
    var w4 := w / 256 / 256 / 256 / 256;
    assert w4 == 0;
    assert LittleEndian(0, 4) == [0, 0, 0, 0] by { ZeroBytes(4); }
    assert LittleEndian(w / 256 / 256 / 256, 5) == [w / 256 / 256 / 256 % 256] + LittleEndian(w4, 4);
    assert LittleEndian(w / 256 / 256, 6) == [w / 256 / 256 % 256] + LittleEndian(w / 256 / 256 / 256, 5);
    assert LittleEndian(w / 256, 7) == [w / 256 % 256] + LittleEndian(w / 256 / 256, 6);
  }

  lemma {:induction false} ZeroBytes(k: nat)
    ensures LittleEndian(0, k) == seq(k, i => 0)
  {
    if k > 0 { ZeroBytes(k - 1); }
  }

  function Zeros(n: nat): (z: seq<Byte>)
    ensures |z| == n && forall i :: 0 <= i < n ==> z[i] == 0
  {
    seq(n, i => 0)
  }

  lemma CounterSmall(t: nat)
    requires t < WORD
    ensures LowWord(t) == t && HighWord(t) == 0
  {
  }

  lemma OneIsLast(core: Core, h: Words, m: seq<Byte>)
    requires |m| <= 128
    ensures Last(core, h, m) == core.compress(h, Padded(m), |m|, 0, true)
  {
    CounterSmall(|m|);
    hide LowWord, HighWord, Padded;
    assert FullBlocks(|m|) == 0 && m[0..] == m;
  }

  lemma TwoAreLast(core: Core, h: Words, m: seq<Byte>)
    requires 128 < |m| <= 256
    ensures Last(core, h, m) == core.compress(core.compress(h, m[..128], 128, 0, false), Padded(m[128..]), |m|, 0, true)
  {
    CounterSmall(|m|);
    CounterSmall(128);
    UniqueFullBlocks(|m|, 1);
    hide LowWord, HighWord, Padded, FullBlocks;
    assert Chain(core, h, m, 0) == h;
    assert Chain(core, h, m, 1) == core.compress(h, m[0..128], 128, 0, false);
    assert m[0..128] == m[..128];
  }

  /** Up to 128 bytes without a key are one block, padded with zeros and marked as the last. */
  lemma OneBlock(core: Core, data: seq<Byte>, n: nat)
    requires |data| <= 128 && n <= 64
    ensures Digest(core, [], data, n) ==
      WordBytes(core.compress(core.init(0x0101_0000 + n), data + Zeros(128 - |data|), |data|, 0, true))[..n]
  {
    hide WordBytes, Last;
    ParameterBlock(0, n);
    OneIsLast(core, core.init(ParameterWord(0, n)), data);
    assert Padded(data) == data + Zeros(128 - |data|);
  }

  /** From 129 to 256 bytes are two blocks, the first with counter 128 and not marked. */
  lemma TwoBlocks(core: Core, data: seq<Byte>, n: nat)
    requires 128 < |data| <= 256 && n <= 64
    ensures Digest(core, [], data, n) ==
      var h := core.compress(core.init(0x0101_0000 + n), data[..128], 128, 0, false);
      WordBytes(core.compress(h, data[128..] + Zeros(256 - |data|), |data|, 0, true))[..n]
  {
    hide WordBytes, Last;
    ParameterBlock(0, n);
    TwoAreLast(core, core.init(ParameterWord(0, n)), data);
    assert Padded(data[128..]) == data[128..] + Zeros(256 - |data|);
  }

  /** A key is a block of its own, the only one when there are no data. */
  lemma KeyedEmpty(core: Core, key: seq<Byte>, n: nat)
    requires 0 < |key| <= 64 && n <= 64
    ensures Digest(core, key, [], n) ==
      WordBytes(core.compress(core.init(0x0101_0000 + 0x100 * |key| + n), key + Zeros(128 - |key|), 128, 0, true))[..n]
  {
    hide WordBytes, Last, Message;
    ParameterBlock(|key|, n);
    KeyedParts(key, []);
    var m := Message(key, []);
    OneIsLast(core, core.init(ParameterWord(|key|, n)), m);
    assert m[..128] == m && Padded(m) == m;
  }

  /** With data the key block is not the last. */
  lemma KeyedBlock(core: Core, key: seq<Byte>, data: seq<Byte>, n: nat)
    requires 0 < |key| <= 64 && 0 < |data| <= 128 && n <= 64
    ensures Digest(core, key, data, n) ==
      var h := core.compress(core.init(0x0101_0000 + 0x100 * |key| + n), key + Zeros(128 - |key|), 128, 0, false);
      WordBytes(core.compress(h, data + Zeros(128 - |data|), 128 + |data|, 0, true))[..n]
  {
    hide WordBytes, Last, Message, Padded;
    ParameterBlock(|key|, n);
    KeyedParts(key, data);
    TwoAreLast(core, core.init(ParameterWord(|key|, n)), Message(key, data));
  }

  lemma KeyedParts(key: seq<Byte>, data: seq<Byte>)
    requires 0 < |key| <= 64 && |data| <= 128
    ensures var m := Message(key, data);
      |m| == 128 + |data| && m[..128] == key + Zeros(128 - |key|) && m[128..] == data && Padded(data) == data + Zeros(128 - |data|)
  {
    assert Padded(key) == key + Zeros(128 - |key|);
  }

  // ----- The counter ---------------------------------------------------------

  /** Adding to the low word and carrying into the high word adds to the counter. */
  lemma CounterAdds(t: nat, n: nat)
    requires n < WORD
    ensures var low := (LowWord(t) + n) % WORD;
      && low == LowWord(t + n)
      && (if low < n then (HighWord(t) + 1) % WORD else HighWord(t)) == HighWord(t + n)
  {
    var q, r := t / WORD, t % WORD;
    assert t == q * WORD + r;
    if r + n < WORD {
      assert (t + n) / WORD == q && (t + n) % WORD == r + n;
    } else {
      assert (t + n) / WORD == q + 1 && (t + n) % WORD == r + n - WORD;
    }
  }

  // ----- The context ---------------------------------------------------------

  class Context {
    const core: Core
    var h: Words
    var len0: nat
    var len1: nat
    var numbytes: nat
    const buffer: array<Byte>
    ghost var start: Words
    ghost var fed: seq<Byte>

    /** All but the last block of what was fed has been compressed; the buffer has the rest. */
    ghost predicate Valid()
      reads this, buffer
    {
      && buffer.Length == BLOCKSIZE
      && var k := FullBlocks(|fed|);
        && numbytes == |fed| - BLOCKSIZE * k
        && buffer[..numbytes] == fed[BLOCKSIZE * k..]
        && h == Chain(core, start, fed, k)
        && len0 == LowWord(BLOCKSIZE * k) && len1 == HighWord(BLOCKSIZE * k)
    }

    /** `caml_BLAKE2Init` */
    constructor (core: Core, hashLength: nat, key: seq<Byte>)
      requires |key| <= MAX_KEY && hashLength <= MAX_HASH
      ensures Valid() && fresh(buffer) && this.core == core
      ensures fed == Message(key, []) && start == Start(core, |key|, hashLength)
    {
      this.core := core;
      h := core.init(ParameterWord(|key|, hashLength));
      start := core.init(ParameterWord(|key|, hashLength));
      len0, len1, numbytes := 0, 0, 0;
      var b := new Byte[BLOCKSIZE](i requires 0 <= i => if i < |key| then key[i] else 0);
      buffer := b;
      fed := Message(key, []);
      if |key| > 0 {
        numbytes := BLOCKSIZE;
      }
      new;
      ParameterBlock(|key|, hashLength);
      if |key| > 0 {
        assert buffer[..BLOCKSIZE] == Padded(key);
        assert fed == Padded(key) && fed[0..] == fed;
        UniqueFullBlocks(BLOCKSIZE, 0);
      }
    }

    /** `caml_BLAKE2Compress`, as far as the counter is concerned. */
    method Compress(block: seq<Byte>, n: nat, last: bool, ghost t: nat)
      requires |block| == BLOCKSIZE && n <= BLOCKSIZE && len0 == LowWord(t) && len1 == HighWord(t)
      modifies this`h, this`len0, this`len1
      ensures len0 == LowWord(t + n) && len1 == HighWord(t + n)
      ensures h == core.compress(old(h), block, LowWord(t + n), HighWord(t + n), last)
    {
      CounterAdds(t, n);
      len0 := (len0 + n) % WORD;
      if len0 < n { len1 := (len1 + 1) % WORD; }
      h := core.compress(h, block, len0, len1, last);
    }

    method Store(at: nat, data: seq<Byte>)
      requires at + |data| <= buffer.Length
      modifies buffer
      ensures buffer[..at] == old(buffer[..at])
      ensures buffer[..at + |data|] == old(buffer[..at]) + data
    {
      forall i | 0 <= i < |data| { buffer[at + i] := data[i]; }
    }

    /** The first `k` blocks of `all` have been compressed. */
    ghost predicate Absorbed(all: seq<Byte>, k: nat)
      reads this
    {
      && BLOCKSIZE * k <= |all|
      && h == Chain(core, start, all, k)
      && len0 == LowWord(BLOCKSIZE * k) && len1 == HighWord(BLOCKSIZE * k)
    }

    method AbsorbBlock(block: seq<Byte>, ghost all: seq<Byte>, ghost k: nat)
      requires Absorbed(all, k) && BLOCKSIZE * (k + 1) <= |all| && block == all[BLOCKSIZE * k..BLOCKSIZE * (k + 1)]
      modifies this`h, this`len0, this`len1
      ensures Absorbed(all, k + 1)
    {
      hide Chain, LowWord, HighWord;
      ChainNext(core, start, all, k);
      Compress(block, BLOCKSIZE, false, BLOCKSIZE * k);
    }

    /** The block loop of `caml_BLAKE2Update`: all that follows but the last block. */
    method AbsorbBlocks(data: seq<Byte>, ghost all: seq<Byte>, ghost k: nat) returns (rest: seq<Byte>)
      requires Absorbed(all, k) && data == all[BLOCKSIZE * k..] && (|all| > 0 ==> |data| > 0)
      modifies this`h, this`len0, this`len1
      ensures Absorbed(all, FullBlocks(|all|)) && rest == all[BLOCKSIZE * FullBlocks(|all|)..]
    {
      hide FullBlocks, Absorbed;
      rest := data;
      ghost var j := k;
      AbsorbedFits(all, k);
      while |rest| > BLOCKSIZE
        invariant Absorbed(all, j) && BLOCKSIZE * j <= |all| && rest == all[BLOCKSIZE * j..] && (|all| > 0 ==> |rest| > 0)
        decreases |rest|
      {
        NextBlock(all, rest, j);
        AbsorbBlock(rest[..BLOCKSIZE], all, j);
        rest, j := rest[BLOCKSIZE..], j + 1;
      }
      LastBlock(all, rest, j);
    }

    lemma AbsorbedFits(all: seq<Byte>, k: nat)
      requires Absorbed(all, k)
      ensures BLOCKSIZE * k <= |all|
    {
    }

    /** Data that fit into a buffer in use are kept there. */
    method Keep(data: seq<Byte>)
      requires Valid() && 0 < numbytes && numbytes + |data| <= BLOCKSIZE
      modifies this, buffer
      ensures Valid() && fed == old(fed) + data && start == old(start)
    {
      hide FullBlocks, Chain, LowWord, HighWord;
      ghost var all, k := fed + data, FullBlocks(|fed|);
      ChainOfPrefix(core, start, fed, data, k);
      assert all[BLOCKSIZE * k..] == fed[BLOCKSIZE * k..] + data;
      UniqueFullBlocks(|all|, k);
      Store(numbytes, data);
      numbytes := numbytes + |data|;
      fed := all;
    }

    /** What is in the buffer is compressed together with the first of more data than fit. */
    method Complete(data: seq<Byte>) returns (rest: seq<Byte>, ghost k: nat)
      requires Valid() && 0 < numbytes && numbytes + |data| > BLOCKSIZE
      modifies this`h, this`len0, this`len1, buffer
      ensures Absorbed(fed + data, k) && rest == (fed + data)[BLOCKSIZE * k..] && |rest| > 0
    {
      hide FullBlocks, Chain, LowWord, HighWord;
      ghost var all := fed + data;
      k := FullBlocks(|fed|);
      ChainOfPrefix(core, start, fed, data, k);
      assert all[BLOCKSIZE * k..] == fed[BLOCKSIZE * k..] + data;
      var n := BLOCKSIZE - numbytes;
      Store(numbytes, data[..n]);
      assert buffer[..] == buffer[..BLOCKSIZE];
      SplitBlock(all, fed[BLOCKSIZE * k..], data, k, n);
      AbsorbBlock(buffer[..], all, k);
      rest, k := data[n..], k + 1;
    }

    /** `caml_BLAKE2Update` */
    method Update(data: seq<Byte>)
      requires Valid()
      modifies this, buffer
      ensures Valid() && fed == old(fed) + data && start == old(start)
    {
      hide FullBlocks, Chain, LowWord, HighWord;
      if numbytes > 0 && |data| <= BLOCKSIZE - numbytes {
        Keep(data);
        return;
      }
      ghost var all, k := fed + data, FullBlocks(|fed|);
      var rest := data;
      if numbytes > 0 {
        rest, k := Complete(data);
      } else {
        NothingKept(fed, data);
        ChainOfPrefix(core, start, fed, data, k);
      }
      rest := AbsorbBlocks(rest, all, k);
      Store(0, rest);
      numbytes := |rest|;
      fed := all;
    }

    /** `caml_BLAKE2Final`: the last block, padded with zeros, and the bytes of the digest. */
    method Final(hashLength: nat) returns (hash: seq<Byte>)
      requires Valid() && hashLength <= MAX_HASH
      modifies this, buffer
      ensures hash == WordBytes(Last(core, old(start), old(fed)))[..hashLength]
    {
      hide FullBlocks, Chain, LowWord, HighWord;
      ghost var k := FullBlocks(|fed|);
      Store(numbytes, seq(BLOCKSIZE - numbytes, i => 0));
      assert buffer[..] == Padded(fed[BLOCKSIZE * k..]);
      Compress(buffer[..], numbytes, true, BLOCKSIZE * k);
      hash := Extract(h, hashLength);
    }
  }

  /** The first bytes of the words, the lowest byte of each word first. */
  method Extract(h: Words, hashLength: nat) returns (hash: seq<Byte>)
    requires hashLength <= MAX_HASH
    ensures hash == WordBytes(h)[..hashLength]
  {
    hide WordBytes, Pow256;
    hash := [];
    for i := 0 to hashLength
      invariant hash == WordBytes(h)[..i]
    {
      ByteOfWords(h, i);
      hash := hash + [h[i / 8] / Pow256(i % 8) % 256];
    }
  }

  lemma ChainNext(core: Core, h: Words, m: seq<Byte>, k: nat)
    requires BLOCKSIZE * (k + 1) <= |m|
    ensures Chain(core, h, m, k + 1) == core.compress(Chain(core, h, m, k), m[BLOCKSIZE * k..BLOCKSIZE * (k + 1)],
                                                      LowWord(BLOCKSIZE * k + BLOCKSIZE), HighWord(BLOCKSIZE * k + BLOCKSIZE), false)
    ensures BLOCKSIZE * (k + 1) == BLOCKSIZE * k + BLOCKSIZE
  {
  }

  /** The buffer is empty only at the very beginning. */
  lemma NothingKept(fed: seq<Byte>, data: seq<Byte>)
    requires |fed| == BLOCKSIZE * FullBlocks(|fed|)
    ensures fed == [] && FullBlocks(|fed|) == 0 && fed + data == data && data[0..] == data
  {
  }

  /** The first block of what follows block `j`. */
  lemma NextBlock(all: seq<Byte>, rest: seq<Byte>, j: nat)
    requires BLOCKSIZE * j <= |all| && rest == all[BLOCKSIZE * j..] && |rest| >= BLOCKSIZE
    ensures BLOCKSIZE * (j + 1) <= |all| && rest[..BLOCKSIZE] == all[BLOCKSIZE * j..BLOCKSIZE * (j + 1)]
    ensures rest[BLOCKSIZE..] == all[BLOCKSIZE * (j + 1)..]
  {
    SkipBlock(all, BLOCKSIZE * j);
  }

  lemma SkipBlock(all: seq<Byte>, at: nat)
    requires at + BLOCKSIZE <= |all|
    ensures all[at..][..BLOCKSIZE] == all[at..at + BLOCKSIZE] && all[at..][BLOCKSIZE..] == all[at + BLOCKSIZE..]
  {
  }

  /** A block made up of what was left in the buffer and of the first `n` bytes of the data. */
  lemma SplitBlock(all: seq<Byte>, left: seq<Byte>, data: seq<Byte>, k: nat, n: nat)
    requires BLOCKSIZE * k <= |all| && all[BLOCKSIZE * k..] == left + data && |left| + n == BLOCKSIZE && n < |data|
    ensures BLOCKSIZE * (k + 1) <= |all| && left + data[..n] == all[BLOCKSIZE * k..BLOCKSIZE * (k + 1)]
    ensures data[n..] == all[BLOCKSIZE * (k + 1)..]
  {
    NextBlock(all, left + data, k);
    assert (left + data)[..BLOCKSIZE] == left + data[..n];
    assert (left + data)[BLOCKSIZE..] == data[n..];
  }

  /** At most one block is left: it is the last. */
  lemma LastBlock(all: seq<Byte>, rest: seq<Byte>, j: nat)
    requires BLOCKSIZE * j <= |all| && rest == all[BLOCKSIZE * j..] && |rest| <= BLOCKSIZE && (|all| > 0 ==> |rest| > 0)
    ensures FullBlocks(|all|) == j
  {
    if |all| > 0 { UniqueFullBlocks(|all|, j); }
  }

  // ----- However the data is cut ---------------------------------------------

  function Concat(chunks: seq<seq<Byte>>): seq<Byte> {
    if chunks == [] then [] else Concat(chunks[..|chunks| - 1]) + chunks[|chunks| - 1]
  }

  lemma MessageOn(key: seq<Byte>, a: seq<Byte>, b: seq<Byte>)
    requires |key| <= MAX_KEY
    ensures Message(key, a + b) == Message(key, a) + b
  {
    assert Padded(key) + (a + b) == Padded(key) + a + b;
  }

  /** Feeding the data in pieces gives the digest of the whole. */
  method HashChunks(core: Core, hashLength: nat, key: seq<Byte>, chunks: seq<seq<Byte>>) returns (digest: seq<Byte>)
    requires |key| <= MAX_KEY && hashLength <= MAX_HASH
    ensures digest == Digest(core, key, Concat(chunks), hashLength)
  {
    hide Chain, FullBlocks, Message, LowWord, HighWord;
    var c := new Context(core, hashLength, key);
    assert chunks[..0] == [];
    for i := 0 to |chunks|
      invariant c.Valid() && fresh(c) && fresh(c.buffer) && c.core == core
      invariant c.fed == Message(key, Concat(chunks[..i])) && c.start == Start(core, |key|, hashLength)
    {
      assert chunks[..i + 1][..i] == chunks[..i];
      MessageOn(key, Concat(chunks[..i]), chunks[i]);
      c.Update(chunks[i]);
    }
    assert chunks[..|chunks|] == chunks;
    digest := c.Final(hashLength);
  }
}
