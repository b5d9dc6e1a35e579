/** Bitwise exclusive or on natural numbers. */
module Bitwise {
  function Pow2(k: nat): (p: nat)
    ensures p > 0
  {
    if k == 0 then 1 else 2 * Pow2(k - 1)
  }

  /** Exclusive or of the low n bits. */
  function Xor(a: nat, b: nat, n: nat): (r: nat)
    ensures r < Pow2(n)
    decreases n
  {
    if n == 0 then 0 else (a + b) % 2 + 2 * Xor(a / 2, b / 2, n - 1)
  }

  lemma XorStep(a: nat, b: nat, n: nat, r: nat)
    requires n > 0 && Xor(a / 2, b / 2, n - 1) == r
    ensures Xor(a, b, n) == (a + b) % 2 + 2 * r
  {
  }

  lemma {:induction false} XorWithZero(a: nat, n: nat)
    requires a == 0 || a < Pow2(n)
    ensures Xor(a, 0, n) == a
    decreases n
  {
    if n > 0 {
      XorWithZero(a / 2, n - 1);
    }
  }

  lemma HalvesOf(a: nat, b: nat)
    ensures a == b <==> a % 2 == b % 2 && a / 2 == b / 2
  {
  }

  lemma FlippedLowest(a: nat, x: nat, y: nat)
    ensures ((a + x) % 2 + y) % 2 == a % 2 <==> x % 2 == y % 2
  {
  }

  lemma XorHalves(a: nat, x: nat, n: nat)
    requires n > 0
    ensures Xor(a, x, n) % 2 == (a + x) % 2 && Xor(a, x, n) / 2 == Xor(a / 2, x / 2, n - 1)
  {
  }

  lemma HalfBelow(a: nat, n: nat)
    requires n > 0 && a < Pow2(n)
    ensures a / 2 < Pow2(n - 1)
  {
  }

  lemma FlippedTwice(a: nat, x: nat, y: nat, c: nat, d: nat)
    requires c % 2 == (a + x) % 2 && d % 2 == (c + y) % 2
    requires d / 2 == a / 2 <==> x / 2 == y / 2
    ensures d == a <==> x == y
  {
    FlippedLowest(a, x, y);
    assert (c + y) % 2 == (c % 2 + y) % 2;
    HalvesOf(x, y);
    HalvesOf(d, a);
  }

  /** A number flipped twice is itself again exactly when both flips are the same. */
  lemma {:induction false} XorTwice(a: nat, x: nat, y: nat, n: nat)
    requires a < Pow2(n) && x < Pow2(n) && y < Pow2(n)
    ensures Xor(Xor(a, x, n), y, n) == a <==> x == y
    decreases n
  {
    if n > 0 {
      HalfBelow(a, n);
      HalfBelow(x, n);
      HalfBelow(y, n);
      hide Xor, Pow2;
      XorTwice(a / 2, x / 2, y / 2, n - 1);
      XorHalves(a, x, n);
      XorHalves(Xor(a, x, n), y, n);
      FlippedTwice(a, x, y, Xor(a, x, n), Xor(Xor(a, x, n), y, n));
    }
  }
}
