/** Numbers as 32-bit words, bit by bit. */
module WordBits {
  import opened Arithmetic

  function Bit(x: nat, b: bv32): bv32 {
    if x % 2 == 1 then b else 0
  }

  /** The low eight bits. */
  function Octet(x: nat): bv32 {
    Bit(x, 1) | Bit(x / 2, 2) | Bit(x / 4, 4) | Bit(x / 8, 8) | Bit(x / 16, 16) | Bit(x / 32, 32) | Bit(x / 64, 64) | Bit(x / 128, 128)
  }

  /** The low thirty-two bits. */
  function Word(n: nat): bv32 {
    Octet(n % 0x100) | (Octet(n / 0x100 % 0x100) << 8) | (Octet(n / 0x1_0000 % 0x100) << 16) | (Octet(n / 0x100_0000 % 0x100) << 24)
  }

  /** The same for signed numbers, in two's complement. */
  function Low(n: int): bv32 {
    Word(n % 0x1_0000_0000)
  }

  lemma OctetSmall(x: nat)
    ensures Octet(x) < 256
  {
  }

  lemma EightBits(a: bv32, b: bv32, c: bv32, d: bv32, e: bv32, f: bv32, g: bv32, h: bv32)
    requires (a == 0 || a == 1) && (b == 0 || b == 2) && (c == 0 || c == 4) && (d == 0 || d == 8)
    requires (e == 0 || e == 16) && (f == 0 || f == 32) && (g == 0 || g == 64) && (h == 0 || h == 128)
    ensures var o := a | b | c | d | e | f | g | h;
      && o & 1 == a && o & 2 == b && o & 4 == c && o & 8 == d
      && o & 16 == e && o & 32 == f && o & 64 == g && o & 128 == h
  {
  }

  lemma BitsOfOctet(x: nat)
    ensures var o := Octet(x);
      && o & 1 == Bit(x, 1) && o & 2 == Bit(x / 2, 2) && o & 4 == Bit(x / 4, 4) && o & 8 == Bit(x / 8, 8)
      && o & 16 == Bit(x / 16, 16) && o & 32 == Bit(x / 32, 32) && o & 64 == Bit(x / 64, 64) && o & 128 == Bit(x / 128, 128)
  {
    BitIsOrNot(x, 1);
    BitIsOrNot(x / 2, 2);
    BitIsOrNot(x / 4, 4);
    BitIsOrNot(x / 8, 8);
    BitIsOrNot(x / 16, 16);
    BitIsOrNot(x / 32, 32);
    BitIsOrNot(x / 64, 64);
    BitIsOrNot(x / 128, 128);
    hide Bit;
    EightBits(Bit(x, 1), Bit(x / 2, 2), Bit(x / 4, 4), Bit(x / 8, 8), Bit(x / 16, 16), Bit(x / 32, 32), Bit(x / 64, 64), Bit(x / 128, 128));
  }

  lemma BitIsOrNot(x: nat, b: bv32)
    ensures Bit(x, b) == 0 || Bit(x, b) == b
  {
  }

  lemma BitTells(x: nat, y: nat, b: bv32)
    requires Bit(x, b) == Bit(y, b) && b != 0
    ensures x % 2 == y % 2
  {
  }

  lemma Joined(x: nat, y: nat, p: nat)
    requires p > 0 && x % 2 == y % 2 && x / 2 % p == y / 2 % p
    ensures x % (2 * p) == y % (2 * p)
  {
    Halved(x, p);
    Halved(y, p);
  }

  lemma Halved(x: nat, p: nat)
    requires p > 0
    ensures x % (2 * p) == 2 * (x / 2 % p) + x % 2
  {
    var q, t := x / 2 / p, x / 2 % p;
    Recombine(x / 2, p);
    assert 2 * (q * p) == q * (2 * p) by { Assoc(2, q, p); Assoc(q, 2, p); Commute(2, q); }
    DivMod(q, 2 * p, 2 * t + x % 2);
  }

  lemma OctetTells(x: nat, y: nat)
    requires Octet(x) == Octet(y)
    ensures x % 256 == y % 256
  {
    BitsOfOctet(x);
    BitsOfOctet(y);
    hide Octet, Bit;
    BitTells(x, y, 1);
    BitTells(x / 2, y / 2, 2);
    BitTells(x / 4, y / 4, 4);
    BitTells(x / 8, y / 8, 8);
    BitTells(x / 16, y / 16, 16);
    BitTells(x / 32, y / 32, 32);
    BitTells(x / 64, y / 64, 64);
    BitTells(x / 128, y / 128, 128);
    EightHalves(x, y);
  }

  lemma ByteTells(x: nat, y: nat)
    requires x < 256 && y < 256 && Octet(x) == Octet(y)
    ensures x == y
  {
    hide Octet;
    OctetTells(x, y);
  }

  lemma EightHalves(x: nat, y: nat)
    requires x % 2 == y % 2 && x / 2 % 2 == y / 2 % 2 && x / 4 % 2 == y / 4 % 2 && x / 8 % 2 == y / 8 % 2
    requires x / 16 % 2 == y / 16 % 2 && x / 32 % 2 == y / 32 % 2 && x / 64 % 2 == y / 64 % 2 && x / 128 % 2 == y / 128 % 2
    ensures x % 256 == y % 256
  {
    JoinedAt(x, y, 64, 2);
    JoinedAt(x, y, 32, 4);
    JoinedAt(x, y, 16, 8);
    JoinedAt(x, y, 8, 16);
    JoinedAt(x, y, 4, 32);
    JoinedAt(x, y, 2, 64);
    Joined(x, y, 128);
  }

  lemma JoinedAt(x: nat, y: nat, k: nat, p: nat)
    requires k > 0 && p > 0 && x / k % 2 == y / k % 2 && x / (k * 2) % p == y / (k * 2) % p
    ensures x / k % (2 * p) == y / k % (2 * p)
  {
    DivTwice(x, k, 2);
    DivTwice(y, k, 2);
    Joined(x / k, y / k, p);
  }

  lemma FourOctets(a: bv32, b: bv32, c: bv32, d: bv32)
    requires a < 256 && b < 256 && c < 256 && d < 256
    ensures var w := a | (b << 8) | (c << 16) | (d << 24);
      w & 0xFF == a && (w >> 8) & 0xFF == b && (w >> 16) & 0xFF == c && w >> 24 == d
  {
  }

  lemma OctetsOfWord(n: nat)
    ensures var w := Word(n);
      && w & 0xFF == Octet(n % 0x100) && (w >> 8) & 0xFF == Octet(n / 0x100 % 0x100)
      && (w >> 16) & 0xFF == Octet(n / 0x1_0000 % 0x100) && w >> 24 == Octet(n / 0x100_0000 % 0x100)
  {
    var a, b, c, d := n % 0x100, n / 0x100 % 0x100, n / 0x1_0000 % 0x100, n / 0x100_0000 % 0x100;
    hide Octet;
    OctetSmall(a);
    OctetSmall(b);
    OctetSmall(c);
    OctetSmall(d);
    FourOctets(Octet(a), Octet(b), Octet(c), Octet(d));
  }

  lemma Quarters(n: nat)
    requires n < 0x1_0000_0000
    ensures n == n % 0x100 + 0x100 * (n / 0x100 % 0x100) + 0x1_0000 * (n / 0x1_0000 % 0x100) + 0x100_0000 * (n / 0x100_0000 % 0x100)
  {
    Recombine(n, 0x100);
    Recombine(n / 0x100, 0x100);
    DivTwice(n, 0x100, 0x100);
    Recombine(n / 0x1_0000, 0x100);
    DivTwice(n, 0x1_0000, 0x100);
  }

  /** Different numbers of thirty-two bits are different words. */
  lemma WordTells(n: nat, m: nat)
    requires n < 0x1_0000_0000 && m < 0x1_0000_0000 && Word(n) == Word(m)
    ensures n == m
  {
    OctetsOfWord(n);
    OctetsOfWord(m);
    hide Octet, Word;
    ByteTells(n % 0x100, m % 0x100);
    ByteTells(n / 0x100 % 0x100, m / 0x100 % 0x100);
    ByteTells(n / 0x1_0000 % 0x100, m / 0x1_0000 % 0x100);
    ByteTells(n / 0x100_0000 % 0x100, m / 0x100_0000 % 0x100);
    Quarters(n);
    Quarters(m);
  }

  /** A number given by its four bytes, and the word given by the same bytes. */
  lemma WordOfBytes(n: nat, a: nat, b: nat, c: nat, d: nat)
    requires a < 256 && b < 256 && c < 256 && d < 256 && n == a + 0x100 * b + 0x1_0000 * c + 0x100_0000 * d
    ensures Low(n) == Word(n) == Octet(a) | (Octet(b) << 8) | (Octet(c) << 16) | (Octet(d) << 24)
  {
    hide Octet;
    BytesOf(n, a, b, c, d);
  }

  lemma BytesOf(n: nat, a: nat, b: nat, c: nat, d: nat)
    requires a < 256 && b < 256 && c < 256 && d < 256 && n == a + 0x100 * b + 0x1_0000 * c + 0x100_0000 * d
    ensures n < 0x1_0000_0000 && n % 0x100 == a && n / 0x100 % 0x100 == b && n / 0x1_0000 % 0x100 == c && n / 0x100_0000 % 0x100 == d
  {
    DivMod(b + 0x100 * c + 0x1_0000 * d, 0x100, a);
    DivMod(c + 0x100 * d, 0x100, b);
    DivMod(c + 0x100 * d, 0x1_0000, a + 0x100 * b);
    DivMod(d, 0x100, c);
    DivMod(d, 0x100_0000, a + 0x100 * b + 0x1_0000 * c);
  }
}
