/** Facts about products, quotients and powers of two that the solver is to be told. */
module Arithmetic {

  /** The number of values of a machine word. */
  const WORD: nat := 0x1_0000_0000_0000_0000

  lemma Times(a: nat, b: nat, c: nat)
    requires a <= b
    ensures a * c <= b * c
  {
  }

  lemma Assoc(a: nat, b: nat, c: nat)
    ensures a * (b * c) == a * b * c
  {
  }

  lemma Spread(a: nat, b: nat, c: nat)
    ensures (a + b) * c == a * c + b * c
  {
  }

  lemma Commute(a: nat, b: nat)
    ensures a * b == b * a
  {
  }

  lemma AtLeast(a: nat, p: nat)
    requires p > 0
    ensures a <= a * p
  {
    Times(1, p, a);
  }

  lemma Recombine(n: nat, d: nat)
    requires d > 0
    ensures n == n / d * d + n % d
  {
  }

  /** Quotient and remainder are unique. */
  lemma DivMod(a: nat, d: nat, r: nat)
    requires r < d
    ensures (a * d + r) / d == a && (a * d + r) % d == r
  {
    var q := (a * d + r) / d;
    Recombine(a * d + r, d);
    Spread(q, 1, d);
    Spread(a, 1, d);
    Times(q + 1, if q < a then a else q + 1, d);
    Times(a + 1, if q > a then q else a + 1, d);
  }

  lemma DivTwice(n: nat, a: nat, b: nat)
    requires a > 0 && b > 0
    ensures a * b > 0 && n / a / b == n / (a * b)
  {
    var q := n / a;
    var p, r := q / b, q % b;
    Recombine(n, a);
    Recombine(q, b);
    Times(1, a, b);
    assert p * b * a == p * (a * b) by { Assoc(p, b, a); Commute(a, b); }
    Spread(p * b, r, a);
    Times(r + 1, b, a);
    Spread(r, 1, a);
    Commute(a, b);
    DivMod(p, a * b, r * a + n % a);
  }

  predicate IsPowerOfTwo(n: nat) {
    n > 0 && (n == 1 || (n % 2 == 0 && IsPowerOfTwo(n / 2)))
  }

  lemma TwiceIsPower(n: nat)
    requires IsPowerOfTwo(n)
    ensures IsPowerOfTwo(n * 2)
  {
    assert n * 2 / 2 == n;
  }

  lemma HalfIsPower(n: nat)
    requires IsPowerOfTwo(n) && n > 1
    ensures n % 2 == 0 && IsPowerOfTwo(n / 2)
  {
  }

  lemma SmallPowers()
    ensures IsPowerOfTwo(4) && IsPowerOfTwo(8)
  {
    assert IsPowerOfTwo(1);
    assert IsPowerOfTwo(2);
  }
}
