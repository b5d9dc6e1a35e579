/** What the running CRC means: the remainder of the message polynomial, over GF(2) and in reflected
    bit order, by x^16 + x^15 + x^2 + 1; and which differences between messages it always detects. */
module CrcTheory {
  import Bitwise
  import opened Crc
  import opened Division
  import opened MachineTypes

  /** The message fed byte by byte, as crcu8 is called on it. */
  function CrcBytes(data: seq<Byte>, crc: Word): Word {
    if data == [] then crc else CrcBytes(data[1..], CrcByte(data[0], crc))
  }

  function BitsOf(data: seq<Byte>): (bits: seq<bool>)
    ensures |bits| == 8 * |data|
  {
    if data == [] then [] else LowBits(data[0], 8) + BitsOf(data[1..])
  }

  lemma {:induction false} FeedAppend(a: seq<bool>, b: seq<bool>, crc: Word)
    ensures Feed(a + b, crc) == Feed(b, Feed(a, crc))
    decreases |a|
  {
    if a == [] {
      assert a + b == b;
    } else {
      assert (a + b)[1..] == a[1..] + b;
      FeedAppend(a[1..], b, Shift(a[0], crc));
    }
  }

  lemma {:induction false} CrcBytesIsFeed(data: seq<Byte>, crc: Word)
    ensures CrcBytes(data, crc) == Feed(BitsOf(data), crc)
    decreases |data|
  {
    if data != [] {
      CrcBytesIsFeed(data[1..], CrcByte(data[0], crc));
      FeedAppend(LowBits(data[0], 8), BitsOf(data[1..]), crc);
    }
  }

  // ----- words and longs, bit by bit

  /** The bits of a number from m up, and below. */
  function Above(x: nat, m: nat): nat
    decreases m
  {
    if m == 0 then x else Above(x / 2, m - 1)
  }

  function Below(x: nat, m: nat): nat
    decreases m
  {
    if m == 0 then 0 else x % 2 + 2 * Below(x / 2, m - 1)
  }

  lemma {:induction false} LowBitsSplit(x: nat, m: nat, n: nat)
    ensures LowBits(x, m + n) == LowBits(x, m) + LowBits(Above(x, m), n)
    ensures LowBits(Below(x, m), m) == LowBits(x, m)
    decreases m
  {
    if m > 0 { LowBitsSplit(x / 2, m - 1, n); }
  }

  lemma {:induction false} AboveAndBelow(x: nat, m: nat)
    ensures Above(x, m) == x / Bitwise.Pow2(m) && Below(x, m) == x % Bitwise.Pow2(m)
    decreases m
  {
    if m > 0 {
      AboveAndBelow(x / 2, m - 1);
      Halved(x, Bitwise.Pow2(m - 1));
    }
  }

  lemma Halved(x: nat, p: nat)
    requires p > 0
    ensures x / (2 * p) == x / 2 / p && x % (2 * p) == x % 2 + 2 * (x / 2 % p)
  {
    var h, b := x / 2, x % 2;
    HalvedParts(x, p, h / p, h % p, b);
  }

  lemma HalvedParts(x: nat, p: nat, q: int, r: nat, b: nat)
    requires r < p && b < 2 && x == 2 * (p * q + r) + b
    ensures x / (2 * p) == q && x % (2 * p) == b + 2 * r
  {
    assert x == (2 * p) * q + (2 * r + b);
    QuotientIs(x, 2 * p, q, 2 * r + b);
  }

  lemma BytePowers()
    ensures Bitwise.Pow2(8) == 0x100 && Bitwise.Pow2(16) == 0x1_0000
  {
    assert Bitwise.Pow2(4) == 0x10;
    assert Bitwise.Pow2(6) == 0x40;
    assert Bitwise.Pow2(10) == 0x400;
    assert Bitwise.Pow2(12) == 0x1000;
    assert Bitwise.Pow2(14) == 0x4000;
  }

  /** crcu16 feeds the 16 bits of its argument, lowest first. */
  lemma WordIsFeed(v: nat, crc: Word)
    ensures CrcWord(v, crc) == Feed(LowBits(v, 16), crc)
  {
    hide LowBits, Bitwise.Pow2, Above, Below;
    BytePowers();
    AboveAndBelow(v, 8);
    AboveAndBelow(v / 0x100, 8);
    LowBitsSplit(v, 8, 8);
    LowBitsSplit(v / 0x100, 8, 0);
    FeedAppend(LowBits(v, 8), LowBits(v / 0x100, 8), crc);
  }

  /** And crcu32 the 32 bits of its. */
  lemma LongIsFeed(v: nat, crc: Word)
    ensures CrcLong(v, crc) == Feed(LowBits(v, 32), crc)
  {
    hide LowBits, Bitwise.Pow2, CrcWord, Above, Below;
    BytePowers();
    AboveAndBelow(v, 16);
    AboveAndBelow(v / 0x1_0000, 16);
    LowBitsSplit(v, 16, 16);
    LowBitsSplit(v / 0x1_0000, 16, 0);
    WordIsFeed(v % 0x1_0000, crc);
    WordIsFeed(v / 0x1_0000 % 0x1_0000, CrcWord(v % 0x1_0000, crc));
    FeedAppend(LowBits(v, 16), LowBits(v / 0x1_0000, 16), crc);
  }

  // ----- polynomials over GF(2), coefficient by coefficient

  /** Coefficient of x^k of a quotient, listed from the constant term up. */
  ghost predicate Coeff(q: seq<bool>, k: int) {
    0 <= k < |q| && q[k]
  }

  /** Coefficient of x^k held by a register: bit 15 is the constant term. */
  ghost predicate Reg(c: Word, k: int) {
    0 <= k < 16 && c[15 - k]
  }

  /** Coefficient of x^k of a message: the first bit fed is the highest power. */
  ghost predicate Msg(bits: seq<bool>, k: int) {
    0 <= k < |bits| && bits[|bits| - 1 - k]
  }

  /** Coefficient of x^k of q * (x^16 + x^15 + x^2 + 1). */
  ghost predicate TimesG(q: seq<bool>, k: int) {
    (Coeff(q, k - 16) != Coeff(q, k - 15)) != (Coeff(q, k - 2) != Coeff(q, k))
  }

  /** Coefficient of x^k of message * x^16 + init * x^n, where n is the length of the message. */
  ghost predicate Dividend(bits: seq<bool>, init: Word, k: int) {
    Msg(bits, k - 16) != Reg(init, k - |bits|)
  }

  /** The dividend is q * G + r, with r of degree below 16. */
  ghost predicate IsDivision(bits: seq<bool>, init: Word, q: seq<bool>, r: Word) {
    && |q| == |bits|
    && forall k: int {:trigger Dividend(bits, init, k)} :: Dividend(bits, init, k) == (TimesG(q, k) != Reg(r, k))
  }

  lemma {:induction false} DivideByShifting(bits: seq<bool>, init: Word) returns (q: seq<bool>)
    ensures IsDivision(bits, init, q, Feed(bits, init))
    decreases |bits|
  {
    if bits == [] {
      q := [];
    } else {
      var b, rest, next := bits[0], bits[1..], Shift(bits[0], init);
      var feedback, n := b != init[0], |rest|;
      var q' := DivideByShifting(rest, next);
      q := q' + [feedback];
      forall k: int ensures Dividend(bits, init, k) == (TimesG(q, k) != Reg(Feed(bits, init), k)) {
        var tap := feedback && (k - n == 16 || k - n == 15 || k - n == 2 || k - n == 0);
        assert Msg(bits, k - 16) == (Msg(rest, k - 16) != (b && k - 16 == n));
        assert Reg(init, k - n - 1) == ((Reg(next, k - n) != tap) != (b && k - n == 16));
        assert TimesG(q, k) == (TimesG(q', k) != tap) by {
          assert forall j :: Coeff(q, j) == (Coeff(q', j) || (j == n && feedback));
        }
        assert Dividend(rest, next, k) == (TimesG(q', k) != Reg(Feed(bits, init), k));
      }
    }
  }

  /** Two quotients agree from position k upwards. */
  lemma {:induction false} QuotientUnique(bits: seq<bool>, init: Word, q: seq<bool>, r: Word, q': seq<bool>, r': Word,
                                          k: nat)
    requires IsDivision(bits, init, q, r) && IsDivision(bits, init, q', r')
    requires k <= |q|
    ensures forall i :: k <= i < |q| ==> q[i] == q'[i]
    decreases |q| - k
  {
    if k < |q| {
      QuotientUnique(bits, init, q, r, q', r', k + 1);
      assert Dividend(bits, init, k + 16) == TimesG(q, k + 16);
      assert Dividend(bits, init, k + 16) == TimesG(q', k + 16);
      assert Coeff(q, k + 1) == Coeff(q', k + 1);
      assert Coeff(q, k + 14) == Coeff(q', k + 14);
      assert Coeff(q, k + 16) == Coeff(q', k + 16);
      assert Coeff(q, k) == Coeff(q', k);
    }
  }

  /** The CRC of a byte sequence is the remainder of the division, and nothing else is. */
  lemma CrcIsRemainder(data: seq<Byte>, init: Word, r: Word)
    ensures r == CrcBytes(data, init) <==> exists q :: IsDivision(BitsOf(data), init, q, r)
  {
    var bits, crc := BitsOf(data), CrcBytes(data, init);
    CrcBytesIsFeed(data, init);
    var q := DivideByShifting(bits, init);
    assert IsDivision(bits, init, q, crc);
    if q' :| IsDivision(bits, init, q', r) {
      QuotientUnique(bits, init, q, crc, q', r, 0);
      assert q == q';
      forall i | 0 <= i < 16 ensures r[i] == crc[i] {
        assert Dividend(bits, init, 15 - i) == (TimesG(q, 15 - i) != Reg(crc, 15 - i));
        assert Dividend(bits, init, 15 - i) == (TimesG(q', 15 - i) != Reg(r, 15 - i));
      }
      assert r == crc;
    }
  }

  // ----- linearity and error detection

  function XorBits(a: seq<bool>, b: seq<bool>): (c: seq<bool>)
    requires |a| == |b|
    ensures |c| == |a|
  {
    seq(|a|, i requires 0 <= i < |a| => a[i] != b[i])
  }

  /** The CRC is linear in message and initial value together. */
  lemma {:induction false} FeedIsLinear(a: seq<bool>, b: seq<bool>, c: Word, d: Word)
    requires |a| == |b|
    ensures Feed(XorBits(a, b), Xor(c, d)) == Xor(Feed(a, c), Feed(b, d))
    decreases |a|
  {
    if a != [] {
      assert XorBits(a, b)[1..] == XorBits(a[1..], b[1..]);
      assert Shift(a[0] != b[0], Xor(c, d)) == Xor(Shift(a[0], c), Shift(b[0], d));
      FeedIsLinear(a[1..], b[1..], Shift(a[0], c), Shift(b[0], d));
    }
  }

  function Zeros(n: nat): (z: seq<bool>)
    ensures |z| == n
  {
    seq(n, _ => false)
  }

  /** Up to 16 message bits can be added to the register before shifting zeros instead. */
  lemma {:induction false} FeedAbsorbs(bits: seq<bool>, crc: Word)
    requires |bits| <= 16
    ensures Feed(bits, crc) == Feed(Zeros(|bits|), Xor(crc, bits + Zeros(16 - |bits|)))
    decreases |bits|
  {
    if bits == [] {
      assert Xor(crc, bits + Zeros(16)) == crc;
    } else {
      var mixed := Xor(crc, bits + Zeros(16 - |bits|));
      var next, rest := Shift(bits[0], crc), bits[1..];
      FeedAbsorbs(rest, next);
      assert Shift(false, mixed) == Xor(next, rest + Zeros(16 - |rest|));
      assert Zeros(|bits|)[1..] == Zeros(|rest|);
    }
  }

  lemma {:induction false} ZeroBits(n: nat)
    ensures LowBits(0, n) == Zeros(n)
  {
    if n > 0 { ZeroBits(n - 1); }
  }

  /** Of crcu16 this says that its argument may as well be added to the CRC it starts from. */
  lemma WordAbsorbs(v: nat, crc: Word)
    ensures CrcWord(v, crc) == CrcWord(0, Xor(crc, LowBits(v, 16)))
  {
    hide LowBits, CrcWord, Feed;
    var bits := LowBits(v, 16);
    WordIsFeed(v, crc);
    WordIsFeed(0, Xor(crc, bits));
    ZeroBits(16);
    FeedAbsorbs(bits, crc);
    assert bits + Zeros(0) == bits;
  }

  /** Different registers stay different under the same message. */
  lemma {:induction false} FeedIsInjective(bits: seq<bool>, c: Word, d: Word)
    requires Feed(bits, c) == Feed(bits, d)
    ensures c == d
    decreases |bits|
  {
    if bits != [] {
      var b := bits[0];
      FeedIsInjective(bits[1..], Shift(b, c), Shift(b, d));
      var r := Shift(b, c);
      assert Shift(b, d)[15] == r[15];
      forall i | 0 <= i < 16 ensures c[i] == d[i] {
        assert i > 0 ==> r[i - 1] == Shift(b, d)[i - 1];
      }
    }
  }

  /** Every register value is reached from exactly one register: the inverse of one shift. */
  function Unshift(bit: bool, r: Word): (c: Word)
    ensures Shift(bit, c) == r
  {
    var c: Word := seq(16, i requires 0 <= i < 16 =>
      if i == 0 then bit != r[15] else r[i - 1] != (r[15] && (i == 1 || i == 14)));
    assert forall i :: 0 <= i < 16 ==> Shift(bit, c)[i] == r[i];
    c
  }

  /** Messages that differ only inside a window of at most 16 bits have different CRCs. */
  lemma BurstsAreDetected(prefix: seq<bool>, w: seq<bool>, w': seq<bool>, suffix: seq<bool>, init: Word)
    requires |w| == |w'| <= 16
    ensures Feed(prefix + w + suffix, init) == Feed(prefix + w' + suffix, init) <==> w == w'
  {
    FeedAppend(prefix + w, suffix, init);
    FeedAppend(prefix, w, init);
    FeedAppend(prefix + w', suffix, init);
    FeedAppend(prefix, w', init);
    var c := Feed(prefix, init);
    if Feed(prefix + w + suffix, init) == Feed(prefix + w' + suffix, init) {
      FeedIsInjective(suffix, Feed(w, c), Feed(w', c));
      FeedAbsorbs(w, c);
      FeedAbsorbs(w', c);
      var pad := Zeros(16 - |w|);
      FeedIsInjective(Zeros(|w|), Xor(c, w + pad), Xor(c, w' + pad));
      forall i | 0 <= i < |w| ensures w[i] == w'[i] {
        assert Xor(c, w + pad)[i] == Xor(c, w' + pad)[i];
      }
    }
  }
}
