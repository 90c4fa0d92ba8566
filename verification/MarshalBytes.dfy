/**
The bytes of the marshalled format: each code has several widths, of which the writer
takes the smallest that fits, and the reader finds out from the first byte which it was.
*/
module MarshalBytes {
  import opened Options
  import opened Arithmetic
  import opened ByteOrder
  import opened PositionTable
  import opened Marshal

  const PREFIX_SMALL_BLOCK: nat := 0x80
  const PREFIX_SMALL_INT: nat := 0x40
  const PREFIX_SMALL_STRING: nat := 0x20
  const CODE_INT8: nat := 0x00
  const CODE_INT16: nat := 0x01
  const CODE_INT32: nat := 0x02
  const CODE_INT64: nat := 0x03
  const CODE_SHARED8: nat := 0x04
  const CODE_SHARED16: nat := 0x05
  const CODE_SHARED32: nat := 0x06
  const CODE_DOUBLE_ARRAY32: nat := 0x07
  const CODE_BLOCK32: nat := 0x08
  const CODE_STRING8: nat := 0x09
  const CODE_STRING32: nat := 0x0A
  const CODE_DOUBLE: nat := 0x0C
  const CODE_DOUBLE_ARRAY8: nat := 0x0E
  const CODE_BLOCK64: nat := 0x13
  const CODE_SHARED64: nat := 0x14
  const CODE_STRING64: nat := 0x15
  const CODE_DOUBLE_ARRAY64: nat := 0x17
  const CODE_NULL: nat := 0x1F
  const NOT_MARKABLE: nat := 0x300

  // ----- Numbers of a fixed width --------------------------------------------

  /** Two's complement. */
  function Unsigned(n: int, k: nat): nat {
    n % Pow256(k)
  }

  function Signed(u: nat, k: nat): int {
    if 2 * u >= Pow256(k) then u - Pow256(k) else u
  }

  lemma {:induction false} SignedBack(n: int, k: nat)
    requires 0 <= 2 * n + Pow256(k) && 2 * n < Pow256(k)
    ensures Unsigned(n, k) < Pow256(k) && Signed(Unsigned(n, k), k) == n
  {
    var p := Pow256(k);
    hide Pow256;
    Residue(n, p);
  }

  lemma Residue(n: int, p: nat)
    requires p > 0 && 0 <= 2 * n + p && 2 * n < p
    ensures n % p == if n >= 0 then n else n + p
  {
  }

  /** The number in the next `k` bytes. */
  function Take(b: seq<Byte>, k: nat): Option<(nat, seq<Byte>)> {
    if |b| < k then None else Some((FromBigEndian(b[..k]), b[k..]))
  }

  lemma TakesBack(n: nat, k: nat, rest: seq<Byte>)
    requires n < Pow256(k)
    ensures Take(BigEndian(n, k) + rest, k) == Some((n, rest))
  {
    BigEndianBack(n, k);
    var b := BigEndian(n, k) + rest;
    assert b[..k] == BigEndian(n, k) && b[k..] == rest;
  }

  // ----- Floats --------------------------------------------------------------

  function TakeFloats(b: seq<Byte>, n: nat): Option<(seq<nat>, seq<Byte>)>
    decreases n
  {
    if n == 0 then Some(([], b))
    else if |b| < 8 then None
    else
      var r := TakeFloats(b[8..], n - 1);
      if r.None? then None else Some(([FromLittleEndian(b[..8])] + r.value.0, r.value.1))
  }

  lemma Front(a: seq<Byte>, b: seq<Byte>, c: seq<Byte>)
    ensures (a + b + c)[..|a|] == a && (a + b + c)[|a|..] == b + c
  {
  }

  lemma {:induction false} FloatsBack(fs: seq<nat>, rest: seq<Byte>)
    requires Words(fs)
    ensures TakeFloats(WordBytes(fs) + rest, |fs|) == Some((fs, rest))
    decreases |fs|
  {
    if fs == [] {
      assert WordBytes(fs) + rest == rest;
    } else {
      hide LittleEndian, FromLittleEndian, Pow256;
      Widths();
      LittleEndianBack(fs[0], 8);
      FloatsBack(fs[1..], rest);
      Front(LittleEndian(fs[0], 8), WordBytes(fs[1..]), rest);
      assert fs == [fs[0]] + fs[1..];
    }
  }

  // ----- The writer ----------------------------------------------------------

  function HeaderWord(tag: nat, size: nat): nat {
    size * 0x400 + NOT_MARKABLE + tag
  }

  /** A byte and a number behind it. */
  function Coded(code: Byte, n: nat, k: nat): seq<Byte> {
    [code] + BigEndian(n, k)
  }

  function PutInt(n: int): seq<Byte> {
    if 0 <= n < 0x40 then [PREFIX_SMALL_INT + n]
    else if -0x80 <= n < 0x80 then Coded(CODE_INT8, Unsigned(n, 1), 1)
    else if -0x8000 <= n < 0x8000 then Coded(CODE_INT16, Unsigned(n, 2), 2)
    else if n < -0x4000_0000 || n >= 0x4000_0000 then Coded(CODE_INT64, Unsigned(n, 8), 8)
    else Coded(CODE_INT32, Unsigned(n, 4), 4)
  }

  function PutShared(d: nat): seq<Byte> {
    if d < 0x100 then Coded(CODE_SHARED8, d, 1)
    else if d < 0x1_0000 then Coded(CODE_SHARED16, d, 2)
    else if d >= 0x1_0000_0000 then Coded(CODE_SHARED64, d, 8)
    else Coded(CODE_SHARED32, d, 4)
  }

  function PutHeader(tag: nat, size: nat): seq<Byte> {
    if tag < 16 && size < 8 then [PREFIX_SMALL_BLOCK + tag + 16 * size]
    else if HeaderWord(tag, size) < 0x1_0000_0000 then Coded(CODE_BLOCK32, HeaderWord(tag, size), 4)
    else Coded(CODE_BLOCK64, HeaderWord(tag, size), 8)
  }

  function PutStringLength(n: nat): seq<Byte> {
    if n < 0x20 then [PREFIX_SMALL_STRING + n]
    else if n < 0x100 then Coded(CODE_STRING8, n, 1)
    else if n < 0x1_0000_0000 then Coded(CODE_STRING32, n, 4)
    else Coded(CODE_STRING64, n, 8)
  }

  function PutArrayLength(n: nat): seq<Byte> {
    if n < 0x100 then Coded(CODE_DOUBLE_ARRAY8, n, 1)
    else if n < 0x1_0000_0000 then Coded(CODE_DOUBLE_ARRAY32, n, 4)
    else Coded(CODE_DOUBLE_ARRAY64, n, 8)
  }

  function Put(c: Code): seq<Byte>
    requires Fits(c)
  {
    match c
    case NullCode => [CODE_NULL, 0]
    case IntCode(n) => PutInt(n)
    case SharedCode(d) => PutShared(d)
    case HeaderCode(tag, size) => PutHeader(tag, size)
    case StringCode(s) => PutStringLength(|s|) + s
    case DoubleCode(bits) => [CODE_DOUBLE] + LittleEndian(bits, 8)
    case DoubleArrayCode(fs) => PutArrayLength(|fs|) + WordBytes(fs)
  }

  // ----- The reader ----------------------------------------------------------

  function GetInt(b: seq<Byte>, k: nat): Option<(Code, seq<Byte>)> {
    var r := Take(b, k);
    if r.None? then None else Some((IntCode(Signed(r.value.0, k)), r.value.1))
  }

  function GetShared(b: seq<Byte>, k: nat): Option<(Code, seq<Byte>)> {
    var r := Take(b, k);
    if r.None? then None else Some((SharedCode(r.value.0), r.value.1))
  }

  function GetHeader(b: seq<Byte>, k: nat): Option<(Code, seq<Byte>)> {
    var r := Take(b, k);
    if r.None? then None
    else Some((HeaderCode(r.value.0 % 0x100, r.value.0 / 0x400 % 0x4000_0000_0000), r.value.1))
  }

  function GetBytes(b: seq<Byte>, n: nat): Option<(Code, seq<Byte>)> {
    if |b| < n then None else Some((StringCode(b[..n]), b[n..]))
  }

  function GetString(b: seq<Byte>, k: nat): Option<(Code, seq<Byte>)> {
    var r := Take(b, k);
    if r.None? then None else GetBytes(r.value.1, r.value.0)
  }

  function GetFloats(b: seq<Byte>, k: nat): Option<(Code, seq<Byte>)> {
    var r := Take(b, k);
    if r.None? then None
    else
      var fs := TakeFloats(r.value.1, r.value.0);
      if fs.None? then None else Some((DoubleArrayCode(fs.value.0), fs.value.1))
  }

  /** The next code, or `None` for bytes that are none. */
  function Get(b: seq<Byte>): Option<(Code, seq<Byte>)> {
    if b == [] then None
    else
      var code, r := b[0], b[1..];
      if code >= PREFIX_SMALL_BLOCK then Some((HeaderCode(code % 16, code / 16 % 8), r))
      else if code >= PREFIX_SMALL_INT then Some((IntCode(code % 0x40), r))
      else if code >= PREFIX_SMALL_STRING then GetBytes(r, code % 0x20)
      else if code == CODE_INT8 then GetInt(r, 1)
      else if code == CODE_INT16 then GetInt(r, 2)
      else if code == CODE_INT32 then GetInt(r, 4)
      else if code == CODE_INT64 then GetInt(r, 8)
      else if code == CODE_NULL then (if |r| < 1 then None else Some((NullCode, r[1..])))
      else if code == CODE_SHARED8 then GetShared(r, 1)
      else if code == CODE_SHARED16 then GetShared(r, 2)
      else if code == CODE_SHARED32 then GetShared(r, 4)
      else if code == CODE_SHARED64 then GetShared(r, 8)
      else if code == CODE_BLOCK32 then GetHeader(r, 4)
      else if code == CODE_BLOCK64 then GetHeader(r, 8)
      else if code == CODE_STRING8 then GetString(r, 1)
      else if code == CODE_STRING32 then GetString(r, 4)
      else if code == CODE_STRING64 then GetString(r, 8)
      else if code == CODE_DOUBLE then (if |r| < 8 then None else Some((DoubleCode(FromLittleEndian(r[..8])), r[8..])))
      else if code == CODE_DOUBLE_ARRAY8 then GetFloats(r, 1)
      else if code == CODE_DOUBLE_ARRAY32 then GetFloats(r, 4)
      else if code == CODE_DOUBLE_ARRAY64 then GetFloats(r, 8)
      else None
  }

  // ----- The format in literals ----------------------------------------------

  /** Immediates and references: the first byte, and how many follow, for each range. */
  lemma ImmediateForms(n: int, d: nat)
    ensures Put(NullCode) == [0x1F, 0]
    ensures 0 <= n < 64 ==> PutInt(n) == [0x40 + n]
    ensures -128 <= n < 0 || 64 <= n < 128 ==> |PutInt(n)| == 2 && PutInt(n)[0] == 0x00
    ensures -32768 <= n < -128 || 128 <= n < 32768 ==> |PutInt(n)| == 3 && PutInt(n)[0] == 0x01
    ensures -0x4000_0000 <= n < -32768 || 32768 <= n < 0x4000_0000 ==> |PutInt(n)| == 5 && PutInt(n)[0] == 0x02
    ensures n < -0x4000_0000 || n >= 0x4000_0000 ==> |PutInt(n)| == 9 && PutInt(n)[0] == 0x03
    ensures d < 256 ==> PutShared(d) == [0x04, d]
    ensures 256 <= d < 65536 ==> |PutShared(d)| == 3 && PutShared(d)[0] == 0x05
    ensures 65536 <= d < 0x1_0000_0000 ==> |PutShared(d)| == 5 && PutShared(d)[0] == 0x06
    ensures d >= 0x1_0000_0000 ==> |PutShared(d)| == 9 && PutShared(d)[0] == 0x14
  {
    hide Unsigned;
    OneByte(d);
  }

  /** Headers in small form, or with size, colour 3 and tag in a big-endian word. */
  lemma HeaderForms(tag: nat, size: nat)
    requires HeaderFits(tag, size)
    ensures tag < 16 && size < 8 ==> PutHeader(tag, size) == [0x80 + tag + 16 * size]
    ensures (tag >= 16 || size >= 8) && size < 0x40_0000 ==> PutHeader(tag, size) == [0x08] + BigEndian(0x400 * size + 0x300 + tag, 4)
    ensures size >= 0x40_0000 ==> PutHeader(tag, size) == [0x13] + BigEndian(0x400 * size + 0x300 + tag, 8)
  {
  }

  /** Strings: the length in one of four widths, and the bytes. */
  lemma StringForms(s: seq<Byte>)
    requires Fits(StringCode(s))
    ensures |s| < 32 ==> Put(StringCode(s)) == [0x20 + |s|] + s
    ensures 32 <= |s| < 256 ==> Put(StringCode(s)) == [0x09, |s|] + s
    ensures 256 <= |s| < 0x1_0000_0000 ==> Put(StringCode(s)) == [0x0A] + BigEndian(|s|, 4) + s
    ensures |s| >= 0x1_0000_0000 ==> Put(StringCode(s)) == [0x15] + BigEndian(|s|, 8) + s
  {
    hide PutStringLength, Fits;
    assert Put(StringCode(s)) == PutStringLength(|s|) + s;
    LengthForms(|s|);
  }

  lemma LengthForms(n: nat)
    ensures n < 32 ==> PutStringLength(n) == [0x20 + n]
    ensures 32 <= n < 256 ==> PutStringLength(n) == [0x09, n]
    ensures 256 <= n < 0x1_0000_0000 ==> PutStringLength(n) == [0x0A] + BigEndian(n, 4)
    ensures n >= 0x1_0000_0000 ==> PutStringLength(n) == [0x15] + BigEndian(n, 8)
  {
    OneByte(n);
    hide BigEndian;
  }

  /** Floats: eight bytes, the lowest first; arrays of them behind their length in one of three widths. */
  lemma FloatForms(bits: nat, fs: seq<nat>)
    requires Fits(DoubleCode(bits)) && Fits(DoubleArrayCode(fs))
    ensures Put(DoubleCode(bits)) == [0x0C] + LittleEndian(bits, 8)
    ensures |fs| < 256 ==> Put(DoubleArrayCode(fs)) == [0x0E, |fs|] + WordBytes(fs)
    ensures 256 <= |fs| < 0x1_0000_0000 ==> Put(DoubleArrayCode(fs)) == [0x07] + BigEndian(|fs|, 4) + WordBytes(fs)
    ensures |fs| >= 0x1_0000_0000 ==> Put(DoubleArrayCode(fs)) == [0x17] + BigEndian(|fs|, 8) + WordBytes(fs)
  {
    hide PutArrayLength, Fits, WordBytes, LittleEndian;
    assert Put(DoubleArrayCode(fs)) == PutArrayLength(|fs|) + WordBytes(fs);
    ArrayLengthForms(|fs|);
  }

  lemma ArrayLengthForms(n: nat)
    ensures n < 256 ==> PutArrayLength(n) == [0x0E, n]
    ensures 256 <= n < 0x1_0000_0000 ==> PutArrayLength(n) == [0x07] + BigEndian(n, 4)
    ensures n >= 0x1_0000_0000 ==> PutArrayLength(n) == [0x17] + BigEndian(n, 8)
  {
    OneByte(n);
    hide BigEndian;
  }

  lemma OneByte(n: nat)
    ensures n < 256 ==> BigEndian(n, 1) == [n]
  {
  }

  // ----- Code by code --------------------------------------------------------

  lemma CodedRead(code: Byte, n: nat, k: nat, rest: seq<Byte>)
    requires n < Pow256(k)
    ensures var b := Coded(code, n, k) + rest; b[0] == code && Take(b[1..], k) == Some((n, rest))
  {
    var b := Coded(code, n, k) + rest;
    assert b[1..] == BigEndian(n, k) + rest;
    TakesBack(n, k, rest);
  }

  lemma IntRead(n: int, rest: seq<Byte>)
    requires IntFits(n)
    ensures Get(PutInt(n) + rest) == Some((IntCode(n), rest))
  {
    Widths();
    hide Take, Coded, Pow256, Signed, Unsigned;
    if 0 <= n < 0x40 {
      assert (PutInt(n) + rest)[1..] == rest;
    } else {
      var k := if -0x80 <= n < 0x80 then 1 else if -0x8000 <= n < 0x8000 then 2
               else if n < -0x4000_0000 || n >= 0x4000_0000 then 8 else 4;
      var code := if k == 1 then CODE_INT8 else if k == 2 then CODE_INT16 else if k == 8 then CODE_INT64 else CODE_INT32;
      SignedBack(n, k);
      CodedRead(code, Unsigned(n, k), k, rest);
      CodedNotEmpty(code, Unsigned(n, k), k);
    }
  }

  lemma CodedNotEmpty(code: Byte, n: nat, k: nat)
    ensures |Coded(code, n, k)| == 1 + k
  {
  }

  lemma SharedRead(d: nat, rest: seq<Byte>)
    requires d < WORD
    ensures Get(PutShared(d) + rest) == Some((SharedCode(d), rest))
  {
    Widths();
    hide Take, Coded, Pow256;
    var k := if d < 0x100 then 1 else if d < 0x1_0000 then 2 else if d >= 0x1_0000_0000 then 8 else 4;
    var code := if k == 1 then CODE_SHARED8 else if k == 2 then CODE_SHARED16 else if k == 8 then CODE_SHARED64 else CODE_SHARED32;
    CodedRead(code, d, k, rest);
    CodedNotEmpty(code, d, k);
  }

  lemma HeaderRead(tag: nat, size: nat, rest: seq<Byte>)
    requires HeaderFits(tag, size)
    ensures Get(PutHeader(tag, size) + rest) == Some((HeaderCode(tag, size), rest))
  {
    Widths();
    hide Take, Coded, Pow256;
    if tag < 16 && size < 8 {
      assert (PutHeader(tag, size) + rest)[1..] == rest;
    } else {
      var n := HeaderWord(tag, size);
      var k := if n < 0x1_0000_0000 then 4 else 8;
      HeaderParts(tag, size);
      CodedRead(if k == 4 then CODE_BLOCK32 else CODE_BLOCK64, n, k, rest);
      CodedNotEmpty(if k == 4 then CODE_BLOCK32 else CODE_BLOCK64, n, k);
    }
  }

  lemma HeaderParts(tag: nat, size: nat)
    requires HeaderFits(tag, size)
    ensures HeaderWord(tag, size) < WORD && HeaderWord(tag, size) % 0x100 == tag
    ensures HeaderWord(tag, size) / 0x400 % 0x4000_0000_0000 == size
  {
  }

  lemma BytesRead(s: seq<Byte>, rest: seq<Byte>)
    ensures GetBytes(s + rest, |s|) == Some((StringCode(s), rest))
  {
    assert (s + rest)[..|s|] == s && (s + rest)[|s|..] == rest;
  }

  lemma StringRead(s: seq<Byte>, rest: seq<Byte>)
    requires |s| < WORD
    ensures Get(PutStringLength(|s|) + s + rest) == Some((StringCode(s), rest))
  {
    Widths();
    hide Take, Coded, Pow256, GetBytes;
    var n := |s|;
    BytesRead(s, rest);
    var b := PutStringLength(n) + s + rest;
    assert b == PutStringLength(n) + (s + rest);
    if n < 0x20 {
      assert b[1..] == s + rest;
    } else {
      var k := if n < 0x100 then 1 else if n < 0x1_0000_0000 then 4 else 8;
      var code := if k == 1 then CODE_STRING8 else if k == 4 then CODE_STRING32 else CODE_STRING64;
      CodedRead(code, n, k, s + rest);
      CodedNotEmpty(code, n, k);
    }
  }

  lemma {:induction false} FloatsRead(fs: seq<nat>, rest: seq<Byte>)
    requires Words(fs) && |fs| < WORD
    ensures Get(PutArrayLength(|fs|) + WordBytes(fs) + rest) == Some((DoubleArrayCode(fs), rest))
  {
    hide Take, Coded, Pow256, WordBytes, TakeFloats, Get;
    var n := |fs|;
    FloatsBack(fs, rest);
    ArrayRead(n, WordBytes(fs) + rest);
    assert PutArrayLength(n) + WordBytes(fs) + rest == PutArrayLength(n) + (WordBytes(fs) + rest);
  }

  lemma {:induction false} ArrayRead(n: nat, rest: seq<Byte>)
    requires n < WORD && TakeFloats(rest, n).Some?
    ensures var fs := TakeFloats(rest, n).value; Get(PutArrayLength(n) + rest) == Some((DoubleArrayCode(fs.0), fs.1))
  {
    Widths();
    hide Take, Coded, Pow256, TakeFloats;
    var k := if n < 0x100 then 1 else if n < 0x1_0000_0000 then 4 else 8;
    var code := if k == 1 then CODE_DOUBLE_ARRAY8 else if k == 4 then CODE_DOUBLE_ARRAY32 else CODE_DOUBLE_ARRAY64;
    CodedRead(code, n, k, rest);
    CodedNotEmpty(code, n, k);
  }

  lemma {:induction false} DoubleRead(bits: nat, rest: seq<Byte>)
    requires bits < WORD
    ensures Get([CODE_DOUBLE] + LittleEndian(bits, 8) + rest) == Some((DoubleCode(bits), rest))
  {
    Widths();
    LittleEndianBack(bits, 8);
    hide LittleEndian, FromLittleEndian, Pow256;
    var b := [CODE_DOUBLE] + LittleEndian(bits, 8) + rest;
    assert b[1..][..8] == LittleEndian(bits, 8) && b[1..][8..] == rest;
  }

  /** The reader gets back every code the writer puts, and no more. */
  lemma CodeRead(c: Code, rest: seq<Byte>)
    requires Fits(c)
    ensures Get(Put(c) + rest) == Some((c, rest))
  {
    hide Get, PutInt, PutShared, PutHeader, PutStringLength, PutArrayLength, WordBytes, LittleEndian;
    match c
    case NullCode => NullRead(rest);
    case IntCode(n) => IntRead(n, rest);
    case SharedCode(d) => SharedRead(d, rest);
    case HeaderCode(tag, size) => HeaderRead(tag, size, rest);
    case StringCode(s) => StringRead(s, rest);
    case DoubleCode(bits) => DoubleRead(bits, rest);
    case DoubleArrayCode(fs) => FloatsRead(fs, rest);
  }

  lemma NullRead(rest: seq<Byte>)
    ensures Get([CODE_NULL, 0] + rest) == Some((NullCode, rest))
  {
    var b := [CODE_NULL, 0] + rest;
    assert b[1..][1..] == rest;
  }

  // ----- Whole messages ------------------------------------------------------

  function PutAll(codes: seq<Code>): seq<Byte>
    requires AllFit(codes)
  {
    if codes == [] then [] else Put(codes[0]) + PutAll(codes[1..])
  }

  lemma GetConsumes(b: seq<Byte>)
    ensures Get(b).Some? ==> |Get(b).value.1| < |b|
  {
    hide FromBigEndian, FromLittleEndian, Signed;
    FloatsConsume(b);
  }

  lemma FloatsConsume(b: seq<Byte>)
    ensures forall c, n :: |c| <= |b| && TakeFloats(c, n).Some? ==> |TakeFloats(c, n).value.1| <= |c|
  {
    forall c, n | |c| <= |b| && TakeFloats(c, n).Some? ensures |TakeFloats(c, n).value.1| <= |c| { FloatsShrink(c, n); }
  }

  lemma {:induction false} FloatsShrink(c: seq<Byte>, n: nat)
    requires TakeFloats(c, n).Some?
    ensures |TakeFloats(c, n).value.1| <= |c|
    decreases n
  {
    hide FromLittleEndian;
    if n > 0 { FloatsShrink(c[8..], n - 1); }
  }

  /** Read codes until nothing is left to fill; the state reached and the bytes behind. */
  function ReadFrom(compressed: bool, d: Rebuild, b: seq<Byte>): Option<(Rebuild, seq<Byte>)>
    requires Sound(d)
    decreases |b|
  {
    if d.todo == [] then Some((d, b))
    else
      var c := Get(b);
      if c.None? then None
      else
        GetConsumes(b);
        ReadSound(compressed, d, c.value.0);
        var d' := Read(compressed, d, c.value.0);
        if d'.None? then None else ReadFrom(compressed, d'.value, c.value.1)
  }

  /** From the state after the first `k` codes, the bytes of the others lead to the end. */
  lemma {:induction false} ReadOn(compressed: bool, codes: seq<Code>, k: nat, more: seq<Byte>)
    requires AllFit(codes) && Complete(compressed, codes) && k <= |codes|
    ensures ReadAll(compressed, codes[..k]).Some?
    ensures ReadFrom(compressed, ReadAll(compressed, codes[..k]).value, PutAll(codes[k..]) + more)
         == Some((ReadAll(compressed, codes).value, more))
    decreases |codes| - k
  {
    hide Get, Put, Read;
    if k == |codes| {
      assert codes[..k] == codes && codes[k..] == [];
      assert PutAll([]) + more == more;
    } else {
      StillReading(compressed, codes, k);
      ReadNext(compressed, codes, k);
      ReadOn(compressed, codes, k + 1, more);
      var rest := PutAll(codes[k + 1..]) + more;
      assert codes[k..][1..] == codes[k + 1..];
      assert PutAll(codes[k..]) + more == Put(codes[k]) + rest;
      CodeRead(codes[k], rest);
    }
  }

  /** A complete message is not complete before its end. */
  lemma StillReading(compressed: bool, codes: seq<Code>, k: nat)
    requires Complete(compressed, codes) && k < |codes|
    ensures ReadAll(compressed, codes[..k]).Some? && ReadAll(compressed, codes[..k]).value.todo != []
  {
    assert codes[..|codes|] == codes;
    if ReadAll(compressed, codes[..k]).None? || ReadAll(compressed, codes[..k]).value.todo == [] {
      NothingAfter(compressed, codes, k, |codes|);
    }
  }

  /** Writing a value as bytes and reading them back: an isomorphic copy, whatever bytes follow. */
  method RoundTripBytes(heap: Heap, word: Value -> nat, compressed: bool, v: Value, ghost more: seq<Byte>)
    returns (ok: bool, bytes: seq<Byte>, ghost order: seq<nat>)
    requires Closed(heap) && InHeap(heap, v) && MachineHeap(heap, v)
    ensures ok == Marshallable(heap, v)
    ensures ok ==> var r := ReadFrom(compressed, Rebuild(Hole, [], [Root]), bytes + more);
      r.Some? && Copy(heap, v, order, r.value.0.root, r.value.0.objs) && r.value.1 == more
  {
    hide Copy, Marshallable, Closed, Content, Table.Valid, ReadAll, MachineHeap, ReadFrom, PutAll;
    bytes := [];
    var w := new Writer(heap, word, compressed);
    ok, order := w.Extern(v);
    if ok {
      bytes := PutAll(w.out);
      ReadOn(compressed, w.out, 0, more);
      assert w.out[..0] == [] && w.out[0..] == w.out;
      StartOfReading(compressed);
    }
  }
}
