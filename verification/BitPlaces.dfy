/** Numbers in two's complement by their bits. */
module BitPlaces {
  import opened Bitwise
  import opened Division

  /** The bit of this weight of a number in two's complement. */
  function BitOf(x: int, weight: nat): nat
    requires weight > 0
  {
    x / weight % 2
  }

  /** The lowest bit and the others. */
  lemma Peel(x: int, w: nat, m: nat)
    requires w > 0 && m > 0
    ensures x / w % (2 * m) == BitOf(x, w) + 2 * (x / (2 * w) % m)
  {
    Halved(x, w);
    LowestOf(x / w, m);
  }

  lemma Halved(x: int, w: nat)
    requires w > 0
    ensures x / (2 * w) == x / w / 2
  {
    var y, r, h, b := x / w, x % w, x / w / 2, x / w % 2;
    Recombine(x, w);
    assert w * (2 * h + b) == 2 * w * h + w * b;
    assert w * b == if b == 0 then 0 else w;
    QuotientIs(x, 2 * w, h, w * b + r);
  }

  lemma LowestOf(y: int, m: nat)
    requires m > 0
    ensures y % (2 * m) == y % 2 + 2 * (y / 2 % m)
  {
    var h, b, g, e := y / 2, y % 2, y / 2 / m, y / 2 % m;
    Recombine(h, m);
    assert 2 * (m * g + e) == 2 * m * g + 2 * e;
    QuotientIs(y, 2 * m, g, 2 * e + b);
  }

  lemma Recombine(x: int, m: nat)
    requires m > 0
    ensures x == m * (x / m) + x % m
  {
  }

  // ----- by place

  /** Bit number k. */
  function BitIn(x: int, k: nat): nat {
    BitOf(x, Pow2(k))
  }

  /** Bits high down to low as a number. */
  function Bits(x: int, high: int, low: nat): nat
    decreases high - low
  {
    if high < low then 0 else BitIn(x, low) + 2 * Bits(x, high, low + 1)
  }

  /** The low digits in base a * b are a digit in base a and one in base b. */
  lemma Mixed(x: int, a: nat, b: nat)
    requires a > 0 && b > 0
    ensures a * b > 0 && x % (a * b) == x % a + a * (x / a % b) && x / a / b == x / (a * b)
  {
    var q, r, g, e := x / a, x % a, x / a / b, x / a % b;
    Recombine(x, a);
    Recombine(q, b);
    assert a * (b * g + e) == a * b * g + a * e;
    assert a * e <= a * (b - 1) == a * b - a by { Grows(a, e, b - 1); }
    Grows(a, 1, b);
    Grows(a, 0, e);
    QuotientIs(x, a * b, g, a * e + r);
  }

  lemma Grows(a: nat, x: int, y: int)
    requires x <= y
    ensures a * x <= a * y
  {
    assert a * y == a * x + a * (y - x);
  }

  lemma PowerStep(k: nat)
    requires k > 0
    ensures Pow2(k) == 2 * Pow2(k - 1) && Pow2(0) == 1
  {
  }

  lemma {:induction false} PowersMultiply(j: nat, k: nat)
    ensures Pow2(j + k) == Pow2(j) * Pow2(k)
    decreases j
  {
    hide Pow2;
    PowerStep(1);
    if j > 0 {
      PowersMultiply(j - 1, k);
      PowerStep(j);
      PowerStep(j + k);
      Regroup(2, Pow2(j - 1), Pow2(k));
    }
  }

  lemma Regroup(a: int, b: int, c: int)
    ensures a * (b * c) == a * b * c
  {
  }

  /** Shifted to the right, towards minus infinity. */
  lemma BitOfShifted(x: int, s: nat, k: nat)
    ensures BitIn(x / Pow2(s), k) == BitIn(x, s + k)
  {
    hide Pow2;
    PowersMultiply(s, k);
    Mixed(x, Pow2(s), Pow2(k));
  }

  lemma BitOfHalf(x: int, k: nat)
    ensures BitIn(x / 2, k) == BitIn(x, k + 1)
    ensures BitIn(x, 0) == x % 2
  {
    assert Pow2(1) == 2;
    BitOfShifted(x, 1, k);
  }

  /** Shifted to the left. */
  lemma {:induction false} BitOfMultiple(x: int, s: nat, k: nat)
    ensures BitIn(x * Pow2(s), k) == if k >= s then BitIn(x, k - s) else 0
    decreases s
  {
    hide BitIn, Pow2;
    PowerStep(if s > 0 then s else 1);
    if s > 0 {
      var y := x * Pow2(s - 1);
      Doubled(x, Pow2(s - 1));
      QuotientIs(x * Pow2(s), 2, y, 0);
      if k == 0 {
        BitOfHalf(x * Pow2(s), 0);
      } else {
        BitOfMultiple(x, s - 1, k - 1);
        BitOfHalf(x * Pow2(s), k - 1);
      }
    }
  }

  lemma Doubled(x: int, p: int)
    ensures x * (2 * p) == 2 * (x * p)
  {
  }

  /** Multiples of a higher power do not change a bit. */
  lemma {:induction false} BitOfRest(x: int, n: nat, k: nat)
    requires k < n
    ensures BitIn(x % Pow2(n), k) == BitIn(x, k)
    decreases n
  {
    hide BitIn;
    var m := Pow2(n - 1);
    LowestOf(x, m);
    var r := x % Pow2(n);
    assert r % 2 == x % 2 && r / 2 == x / 2 % m;
    if k == 0 {
      BitOfHalf(x, 0);
      BitOfHalf(r, 0);
    } else {
      BitOfRest(x / 2, n - 1, k - 1);
      BitOfHalf(x, k - 1);
      BitOfHalf(r, k - 1);
    }
  }

  /** A slice of a number is made of its bits. */
  lemma {:induction false} SliceIs(x: int, low: nat, n: nat)
    ensures x / Pow2(low) % Pow2(n) == Bits(x, low + n - 1, low)
    decreases n
  {
    hide BitOf;
    if n > 0 {
      SliceIs(x, low + 1, n - 1);
      Peel(x, Pow2(low), Pow2(n - 1));
    }
  }

  /** The powers that occur in instruction words. */
  lemma Powers()
    ensures Pow2(0) == 1 && Pow2(1) == 2 && Pow2(2) == 4 && Pow2(3) == 8 && Pow2(4) == 0x10 && Pow2(5) == 0x20
    ensures Pow2(6) == 0x40 && Pow2(7) == 0x80 && Pow2(8) == 0x100 && Pow2(9) == 0x200 && Pow2(10) == 0x400
    ensures Pow2(11) == 0x800 && Pow2(12) == 0x1000 && Pow2(13) == 0x2000 && Pow2(14) == 0x4000 && Pow2(15) == 0x8000
    ensures Pow2(16) == 0x1_0000 && Pow2(17) == 0x2_0000 && Pow2(18) == 0x4_0000 && Pow2(19) == 0x8_0000
    ensures Pow2(20) == 0x10_0000 && Pow2(21) == 0x20_0000 && Pow2(25) == 0x200_0000 && Pow2(30) == 0x4000_0000
    ensures Pow2(31) == 0x8000_0000 && Pow2(32) == 0x1_0000_0000
  {
    assert Pow2(23) == 0x80_0000;
    assert Pow2(27) == 0x800_0000;
    assert Pow2(29) == 0x2000_0000;
  }

  /** Numbers of n bits that agree in all bits are equal. */
  lemma {:induction false} SameBits(x: nat, y: nat, n: nat)
    requires x < Pow2(n) && y < Pow2(n) && forall k :: 0 <= k < n ==> BitIn(x, k) == BitIn(y, k)
    ensures x == y
    decreases n
  {
    if n > 0 {
      HalfBelow(x, n);
      HalfBelow(y, n);
      hide BitIn, Pow2;
      BitOfHalf(x, 0);
      BitOfHalf(y, 0);
      assert BitIn(x, 0) == BitIn(y, 0);
      forall k | 0 <= k < n - 1 ensures BitIn(x / 2, k) == BitIn(y / 2, k) {
        BitOfHalf(x, k);
        BitOfHalf(y, k);
        assert BitIn(x, k + 1) == BitIn(y, k + 1);
      }
      SameBits(x / 2, y / 2, n - 1);
    }
  }

  /** Exclusive or, place by place. */
  lemma {:induction false} BitOfXor(a: nat, b: nat, n: nat, k: nat)
    requires k < n
    ensures BitIn(Xor(a, b, n), k) == (BitIn(a, k) + BitIn(b, k)) % 2
    decreases n
  {
    hide BitIn;
    BitOfHalf(a, if k > 0 then k - 1 else 0);
    BitOfHalf(b, if k > 0 then k - 1 else 0);
    BitOfHalf(Xor(a, b, n), if k > 0 then k - 1 else 0);
    XorHalves(a, b, n);
    SumOfRests(a, b);
    hide Xor;
    if k > 0 { BitOfXor(a / 2, b / 2, n - 1, k - 1); }
  }

  lemma SumOfRests(a: nat, b: nat)
    ensures (a + b) % 2 == (a % 2 + b % 2) % 2
  {
  }
}
