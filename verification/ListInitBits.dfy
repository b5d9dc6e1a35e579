/** The words that core_list_init stores, by their bits. */
module ListInitBits {
  import opened Bitwise
  import opened BitPlaces
  import opened Division
  import opened MachineTypes
  import opened ListCells
  import opened ListInit

  /** The parts of a number put together from three of them. */
  lemma ThreeParts(top: nat, mid: nat, low: nat, m: nat, n: nat)
    requires low < m && mid < n
    ensures var x := (top * n + mid) * m + low; x % m == low && x / m % n == mid && x / m / n == top
  {
    QuotientIs((top * n + mid) * m + low, m, top * n + mid, low);
    QuotientIs(top * n + mid, n, top, mid);
  }

  /** Pattern and number twice in one word. */
  lemma TwiceInWord(pat: nat, e: nat, word: nat)
    requires pat < 0x10 && e < 8 && word == (pat * 8 + e) * 0x101
    ensures word % 8 == e && word / 8 % 0x10 == pat && word / 0x80 % 2 == 0 && word / 0x100 == word % 0x100
  {
    var dat := pat * 8 + e;
    assert word == 8 * (dat * 0x20 + pat) + e;
    QuotientIs(word, 8, dat * 0x20 + pat, e);
    QuotientIs(dat * 0x20 + pat, 0x10, dat * 2, pat);
    QuotientIs(word, 0x80, dat * 2, dat);
    QuotientIs(word, 0x100, dat, dat);
  }

  lemma ItemWord(seed: S16, i: nat)
    ensures var pat, word := Xor(ToU16(seed), i, 4), Pack(ItemData(seed, i));
      word % 8 == i % 8 && word / 8 % 0x10 == pat && word / 0x80 % 2 == 0 && word / 0x100 == word % 0x100
  {
    hide Xor, Pow2, ToU16;
    var pat := Xor(ToU16(seed), i, 4);
    PowersOf16();
    TwiceInWord(pat, i % 8, Pack(ItemData(seed, i)));
  }

  lemma PowersOf16()
    ensures Pow2(4) == 0x10
  {
  }

  /** Bits 0 to 2 of an item's word choose the algorithm from its number, bits 3 to 6 are a pattern of number and
      seed, bit 7 says that no result is cached, and the upper byte repeats the lower one. */
  lemma ItemByBits(seed: S16, i: nat, k: nat)
    requires k < 8
    ensures BitIn(Pack(ItemData(seed, i)), k) ==
      if k <= 2 then BitIn(i, k) else if k <= 6 then (BitIn(seed, k - 3) + BitIn(i, k - 3)) % 2 else 0
    ensures BitIn(Pack(ItemData(seed, i)), 8 + k) == BitIn(Pack(ItemData(seed, i)), k)
  {
    Powers();
    var u := ToU16(seed);
    var word := Pack(ItemData(seed, i));
    ItemWord(seed, i);
    hide ItemData, Pack, Xor, Pow2, BitIn;
    BitOfRest(word, 8, k);
    BitOfShifted(word, 8, k);
    if k <= 2 {
      BitOfRest(word, 3, k);
      BitOfRest(i, 3, k);
    } else if k <= 6 {
      BitOfShifted(word, 3, k - 3);
      BitOfRest(word / 8, 4, k - 3);
      BitOfXor(u, i, 4, k - 3);
      BitOfRest(seed, 16, k - 3);
    } else {
      BitOfShifted(word, 7, 0);
      BitOfHalf(word / 0x80, 0);
    }
  }

  /** The words of the head and of the last item. */
  lemma EndWords(seed: S16)
    ensures Pack(InitData(seed, 0)) == 0x8080 && Pack(InitData(seed, 1)) == 0xffff
  {
  }

  function OrBit(a: nat, b: nat): nat {
    if a + b > 0 then 1 else 0
  }

  lemma Or3ByBits(a: nat, b: nat, k: nat)
    requires a < 8 && b < 8 && k < 3
    ensures BitIn(Or3(a, b), k) == if BitIn(a, k) + BitIn(b, k) > 0 then 1 else 0
  {
    Powers();
    var low, mid, high := OrBit(a % 2, b % 2), OrBit(a / 2 % 2, b / 2 % 2), OrBit(a / 4, b / 4);
    ThreeParts(high, mid, low, 2, 2);
    assert Or3(a, b) == (high * 2 + mid) * 2 + low;
    hide Pow2, Or3;
  }

  lemma OrIntoParts(high: nat, pat: nat)
    requires high < 8 && pat < 0x1_0000
    ensures var r := OrInto(high, pat);
      r % 0x100 == pat % 0x100 && r / 0x100 % 8 == Or3(high, pat / 0x100 % 8) && r / 0x800 == pat / 0x800
  {
    var top, or, low := pat / 0x800, Or3(high, pat / 0x100 % 8), pat % 0x100;
    hide Or3;
    ThreeParts(top, or, low, 0x100, 8);
    QuotientIs(OrInto(high, pat), 0x800, top, or * 0x100 + low);
  }

  lemma OrIntoByBits(high: nat, pat: nat, k: nat)
    requires high < 8 && pat < 0x1_0000
    ensures BitIn(OrInto(high, pat), k) ==
      if 8 <= k <= 10 then if BitIn(high, k - 8) + BitIn(pat, k) > 0 then 1 else 0 else BitIn(pat, k)
  {
    Powers();
    OrIntoParts(high, pat);
    var r, mid := OrInto(high, pat), pat / 0x100 % 8;
    hide OrInto, Or3, Pow2, BitIn;
    if k < 8 {
      BitOfRest(r, 8, k);
      BitOfRest(pat, 8, k);
    } else if k <= 10 {
      BitOfShifted(r, 8, k - 8);
      BitOfRest(r / 0x100, 3, k - 8);
      BitOfShifted(pat, 8, k - 8);
      BitOfRest(pat / 0x100, 3, k - 8);
      Or3ByBits(high, mid, k - 8);
    } else {
      BitOfShifted(r, 11, k - 11);
      BitOfShifted(pat, 11, k - 11);
    }
  }

  /** The first fifth of the cells is numbered in order. Each later idx has 14 bits: those of its number mixed
      with those of the seed, with the next number's low three bits or-ed in at bit 8. */
  lemma IdxByBits(i: nat, size: nat, seed: S16, k: nat)
    requires k < 14
    ensures i < size / 5 && i < 0x8000 ==> IdxFor(i, size, seed) == i
    ensures i >= size / 5 ==> 0 <= IdxFor(i, size, seed) < 0x4000
    ensures i >= size / 5 ==>
      var mixed := (BitIn(i, k) + BitIn(seed, k)) % 2;
      BitIn(IdxFor(i, size, seed), k) ==
        if 8 <= k <= 10 then if BitIn(i + 1, k - 8) + mixed > 0 then 1 else 0 else mixed
  {
    Powers();
    hide Pow2, BitIn, Xor, OrInto;
    if i >= size / 5 {
      var low, u := i % 0x1_0000, ToU16(seed);
      var pat := Xor(low, u, 16);
      var word := OrInto((i + 1) % 8, pat);
      assert IdxFor(i, size, seed) == word % 0x4000;
      hide IdxFor;
      BitOfRest(word, 14, k);
      OrIntoByBits((i + 1) % 8, pat, k);
      BitOfXor(low, u, 16, k);
      BitOfRest(i, 16, k);
      BitOfRest(seed, 16, k);
      if 8 <= k <= 10 { BitOfRest(i + 1, 3, k - 8); }
    }
  }
}
