/** The fields and immediates of instruction words by ranges of bits, as the formats of the ISA give them. */
module InsnFormats {
  import opened Bitwise
  import opened BitPlaces
  import opened Division
  import opened MachineTypes
  import opened InsnSpecs

  /** A range of bits, by its position and the powers of two that cut it out. */
  lemma Range(w: U32, low: nat, n: nat, p: nat, m: nat)
    requires p == Pow2(low) && m == Pow2(n)
    ensures w / p % m == Bits(w, low + n - 1, low)
  {
    hide Pow2, Bits;
    SliceIs(w, low, n);
  }

  /** The registers and codes of a 32-bit word. */
  lemma Fields(w: U32)
    ensures Opcode(w) == Bits(w, 6, 0) && Rd(w) == Bits(w, 11, 7) && Funct3(w) == Bits(w, 14, 12)
    ensures Rs1(w) == Bits(w, 19, 15) && Rs2(w) == Bits(w, 24, 20) && Funct7(w) == Bits(w, 31, 25)
  {
    Powers();
    hide Pow2, Bits;
    Range(w, 0, 7, 1, 0x80);
    Range(w, 7, 5, 0x80, 0x20);
    Range(w, 12, 3, 0x1000, 8);
    Range(w, 15, 5, 0x8000, 0x20);
    Range(w, 20, 5, 0x10_0000, 0x20);
    Range(w, 25, 7, 0x200_0000, 0x80);
  }

  /** And those of a compressed one. */
  lemma CompressedFields(w: U32)
    ensures Quadrant(w) == Bits(w, 1, 0) && CFunct3(w) == Bits(w, 15, 13)
    ensures CRd(w) == Bits(w, 11, 7) && CRs2(w) == Bits(w, 6, 2)
    ensures CRs1Short(w) == 8 + Bits(w, 9, 7) && CRs2Short(w) == 8 + Bits(w, 4, 2)
    ensures Bits1110(w) == Bits(w, 11, 10) && Bits65(w) == Bits(w, 6, 5) && Bit12(w) == Bits(w, 12, 12)
  {
    Powers();
    hide Pow2, Bits;
    Range(w, 0, 2, 1, 4);
    Range(w, 13, 3, 0x2000, 8);
    Range(w, 7, 5, 0x80, 0x20);
    Range(w, 2, 5, 4, 0x20);
    Range(w, 7, 3, 0x80, 8);
    Range(w, 2, 3, 4, 8);
    Range(w, 10, 2, 0x400, 4);
    Range(w, 5, 2, 0x20, 4);
    Range(w, 12, 1, 0x1000, 2);
  }

  // ----- immediates of 32-bit words: bit 31 is the sign

  /** Two neighbouring fields, and the sign above the rest of a top field. */
  lemma TopTwelve(w: U32)
    ensures Top12(w) == w / 0x10_0000 && w / 0x8000_0000 < 2
  {
    var q := w / 0x10_0000;
    Mixed(w, 0x10_0000, 0x20);
    Mixed(q, 0x20, 0x80);
    QuotientIs(q, 0x1000, 0, q);
  }

  lemma ImmediateI(w: U32)
    ensures ImmI(w) == Bits(w, 30, 20) - 0x800 * Bits(w, 31, 31)
  {
    Powers();
    TopTwelve(w);
    hide Pow2, Bits, Top12;
    Range(w, 20, 11, 0x10_0000, 0x800);
    Range(w, 31, 1, 0x8000_0000, 2);
    Mixed(w, 0x10_0000, 0x800);
    Mixed(w / 0x10_0000, 0x800, 2);
  }

  /** The seven top bits are the sign and six others. */
  lemma TopSeven(w: U32)
    ensures Funct7(w) % 0x40 == Bits(w, 30, 25) && Funct7(w) / 0x40 == Bits(w, 31, 31) < 2
  {
    Powers();
    hide Pow2, Bits;
    Range(w, 25, 6, 0x200_0000, 0x40);
    Range(w, 31, 1, 0x8000_0000, 2);
    Mixed(w, 0x200_0000, 0x40);
  }

  lemma ImmediateS(w: U32)
    ensures ImmS(w) == Bits(w, 11, 7) + 0x20 * Bits(w, 30, 25) - 0x800 * Bits(w, 31, 31)
  {
    TopSeven(w);
    Fields(w);
    hide Bits, Rd, Funct7;
  }

  lemma ImmediateB(w: U32)
    ensures ImmB(w) ==
      2 * Bits(w, 11, 8) + 0x20 * Bits(w, 30, 25) + 0x800 * Bits(w, 7, 7) - 0x1000 * Bits(w, 31, 31)
  {
    TopSeven(w);
    SplitRd(w);
    hide Bits, Rd, Funct7;
  }

  lemma SplitRd(w: U32)
    ensures Rd(w) % 2 == Bits(w, 7, 7) && Rd(w) / 2 == Bits(w, 11, 8)
  {
    Powers();
    hide Pow2, Bits;
    Range(w, 7, 1, 0x80, 2);
    Range(w, 8, 4, 0x100, 0x10);
    Mixed(w, 0x80, 2);
    Mixed(w / 0x80, 2, 0x10);
  }

  lemma ImmediateU(w: U32)
    ensures ImmU(w) == 0x1000 * Bits(w, 31, 12)
  {
    Powers();
    TopTwelve(w);
    MiddleByte(w);
    hide Pow2, Bits, Top12, Rs1, Funct3;
    Range(w, 12, 20, 0x1000, 0x10_0000);
    Mixed(w, 0x1000, 0x100);
    Mixed(w / 0x1000, 0x100, 0x1000);
  }

  lemma MiddleByte(w: U32)
    ensures Rs1(w) * 8 + Funct3(w) == w / 0x1000 % 0x100
  {
    Mixed(w, 0x1000, 8);
    Mixed(w / 0x1000, 8, 0x20);
  }

  lemma ImmediateJ(w: U32)
    ensures ImmJ(w) ==
      2 * Bits(w, 30, 21) + 0x800 * Bits(w, 20, 20) + 0x1000 * Bits(w, 19, 12) - 0x10_0000 * Bits(w, 31, 31)
  {
    Powers();
    TopTwelve(w);
    MiddleByte(w);
    SplitTop(w);
    hide Pow2, Bits, Top12, Rs1, Funct3;
    Range(w, 12, 8, 0x1000, 0x100);
  }

  lemma SplitTop(w: U32)
    ensures var top := w / 0x10_0000;
      top / 0x800 == Bits(w, 31, 31) && top % 2 == Bits(w, 20, 20) && top / 2 % 0x400 == Bits(w, 30, 21)
  {
    Powers();
    hide Pow2, Bits;
    Range(w, 31, 1, 0x8000_0000, 2);
    Range(w, 20, 1, 0x10_0000, 2);
    Range(w, 21, 10, 0x20_0000, 0x400);
    Mixed(w, 0x10_0000, 0x800);
    Mixed(w, 0x10_0000, 2);
  }

  // ----- immediates of compressed words

  lemma OneBit(w: U32, k: nat, p: nat)
    requires p == Pow2(k)
    ensures BitAt(w, p) == Bits(w, k, k)
  {
    Powers();
    hide Pow2, Bits;
    Range(w, k, 1, p, 2);
  }

  lemma CompressedSixBits(w: U32)
    ensures CImm6(w) == Bits(w, 6, 2) - 0x20 * Bits(w, 12, 12)
    ensures CShamt(w) == Bits(w, 6, 2) + 0x20 * Bits(w, 12, 12)
    ensures CImmLui(w) == 0x1000 * Bits(w, 6, 2) - 0x2_0000 * Bits(w, 12, 12)
  {
    CompressedFields(w);
    hide Bits, CRd, CRs2, Bits1110, Bits65, Quadrant, CFunct3, CRs1Short, CRs2Short;
  }

  lemma CompressedStack(w: U32)
    ensures CImm16sp(w) == 0x10 * Bits(w, 6, 6) + 0x20 * Bits(w, 2, 2) + 0x40 * Bits(w, 5, 5) + 0x80 * Bits(w, 4, 3)
      - 0x200 * Bits(w, 12, 12)
    ensures CImm4spn(w) == 4 * Bits(w, 6, 6) + 8 * Bits(w, 5, 5) + 0x10 * Bits(w, 12, 11) + 0x40 * Bits(w, 10, 7)
  {
    Powers();
    hide Pow2, Bits, BitAt;
    OneBit(w, 6, 0x40);
    OneBit(w, 2, 4);
    OneBit(w, 5, 0x20);
    OneBit(w, 12, 0x1000);
    Range(w, 3, 2, 8, 4);
    Range(w, 11, 2, 0x800, 4);
    Range(w, 7, 4, 0x80, 0x10);
  }

  lemma CompressedBranch(w: U32)
    ensures CImmB(w) == 2 * Bits(w, 4, 3) + 8 * Bits(w, 11, 10) + 0x20 * Bits(w, 2, 2) + 0x40 * Bits(w, 6, 5)
      - 0x100 * Bits(w, 12, 12)
  {
    Powers();
    hide Pow2, Bits, BitAt;
    OneBit(w, 2, 4);
    OneBit(w, 12, 0x1000);
    Range(w, 3, 2, 8, 4);
    Range(w, 10, 2, 0x400, 4);
    Range(w, 5, 2, 0x20, 4);
  }

  lemma ThreeBits(w: U32)
    ensures Bits(w, 5, 3) == BitAt(w, 8) + 2 * BitAt(w, 0x10) + 4 * BitAt(w, 0x20)
    ensures Bits(w, 10, 9) == BitAt(w, 0x200) + 2 * BitAt(w, 0x400)
  {
    Powers();
    hide Pow2, Bits;
    Range(w, 3, 3, 8, 8);
    Range(w, 9, 2, 0x200, 4);
    Mixed(w / 8, 2, 4);
    Mixed(w / 0x10, 2, 2);
    Mixed(w, 8, 2);
    Mixed(w, 0x10, 2);
    Mixed(w / 0x200, 2, 2);
    Mixed(w, 0x200, 2);
  }

  lemma CompressedJump(w: U32)
    ensures CImmJ(w) == 2 * Bits(w, 5, 3) + 0x10 * Bits(w, 11, 11) + 0x20 * Bits(w, 2, 2) + 0x40 * Bits(w, 7, 7)
      + 0x80 * Bits(w, 6, 6) + 0x100 * Bits(w, 10, 9) + 0x400 * Bits(w, 8, 8) - 0x800 * Bits(w, 12, 12)
  {
    Powers();
    hide Pow2, Bits, BitAt;
    ThreeBits(w);
    OneBit(w, 11, 0x800);
    OneBit(w, 2, 4);
    OneBit(w, 7, 0x80);
    OneBit(w, 6, 0x40);
    OneBit(w, 8, 0x100);
    OneBit(w, 12, 0x1000);
  }

  lemma CompressedAccess(w: U32)
    ensures CImmLw(w) == 4 * Bits(w, 6, 6) + 8 * Bits(w, 12, 10) + 0x40 * Bits(w, 5, 5)
    ensures CImmLwsp(w) == 4 * Bits(w, 6, 4) + 0x20 * Bits(w, 12, 12) + 0x40 * Bits(w, 3, 2)
    ensures CImmSwsp(w) == 4 * Bits(w, 12, 9) + 0x40 * Bits(w, 8, 7)
  {
    Powers();
    hide Pow2, Bits, BitAt;
    OneBit(w, 6, 0x40);
    OneBit(w, 5, 0x20);
    OneBit(w, 12, 0x1000);
    Range(w, 10, 3, 0x400, 8);
    Range(w, 4, 3, 0x10, 8);
    Range(w, 2, 2, 4, 4);
    Range(w, 9, 4, 0x200, 0x10);
    Range(w, 7, 2, 0x80, 4);
  }
}
