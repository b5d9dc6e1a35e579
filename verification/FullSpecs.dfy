/** What the other 32-bit instruction modules of the RVFI monitor specify, and where the division modules
    differ from the division of the ISA. */
module FullSpecs {
  import opened Bitwise
  import opened Division
  import opened MachineTypes
  import opened Rvfi
  import opened InsnSpecs
  import opened CompressedSpecs

  // ----- multiplication and division

  /** The upper word of a 64-bit product. */
  function Upper(p: int): U32 {
    p % 0x1_0000_0000_0000_0000 / 0x1_0000_0000
  }

  /** The results of div, divu, rem and remu. The operands of / and % in div and rem are cast to signed,
      but the other branches of the conditional expression around them are not, which makes the whole
      expression unsigned (section 11.8.1 of IEEE Std 1800-2017). */
  function Quotient(a: U32, b: U32): U32 {
    if b == 0 then 0xFFFF_FFFF else if a == 0x8000_0000 && b == 0xFFFF_FFFF then 0x8000_0000 else WholePart(a, b)
  }

  function QuotientUnsigned(a: U32, b: U32): U32 {
    if b == 0 then 0xFFFF_FFFF else WholePart(a, b)
  }

  function Remainder(a: U32, b: U32): U32 {
    if b == 0 then a else if a == 0x8000_0000 && b == 0xFFFF_FFFF then 0 else Rest(a, b)
  }

  function RemainderUnsigned(a: U32, b: U32): U32 {
    if b == 0 then a else Rest(a, b)
  }

  function WholePart(a: nat, b: nat): (q: nat)
    requires b > 0
    ensures q <= a
  {
    WholePartBound(a, b);
    a / b
  }

  lemma WholePartBound(a: nat, b: nat)
    requires b > 0
    ensures 0 <= a / b <= a
  {
    var q := a / b;
    assert a == b * q + a % b;
    if q >= 1 { BigMultiple(q, b); }
    if q <= -1 { BigMultiple(b, q); }
  }

  function Rest(a: nat, b: nat): (r: nat)
    requires b > 0
    ensures r < b && r <= a
  {
    WholePartBound(a, b);
    RestBound(a, b);
    a % b
  }

  lemma RestBound(a: nat, b: nat)
    requires b > 0
    ensures 0 <= a % b < b && a % b <= a
  {
    var q := a / b;
    assert a == b * q + a % b;
    WholePartBound(a, b);
    if q >= 1 { BigMultiple(b, q); }
  }

  // ----- accesses of less than a word

  /** n low bits set, moved to the byte of the address; four bits of it. */
  function PartMask(addr: U32, bytes: nat): Mask
    requires bytes == 1 || bytes == 2
  {
    (if bytes == 1 then 1 else 3) * Pow2(addr % 4) % 16
  }

  /** The bytes at the address, widened with zeros or with their sign. */
  function Part(mem: U32, addr: U32, bytes: nat, signed: bool): int
    requires bytes == 1 || bytes == 2
  {
    var x, size := ShiftRight(mem, 8 * (addr % 4)), if bytes == 1 then 0x100 else 0x1_0000;
    if signed then Signed(x % size, size / 2) else x % size
  }

  function LoadPart(rs1: Reg, rd: Reg, addr: U32, mem: U32, bytes: nat, signed: bool, next: int): Spec
    requires bytes == 1 || bytes == 2
  {
    Spec(true, addr % bytes != 0, rs1, 0, rd, if rd == 0 then 0 else Word(Part(mem, addr, bytes, signed)), Word(next),
         Aligned(addr), PartMask(addr, bytes), 0, 0)
  }

  function StorePart(rs1: Reg, rs2: Reg, addr: U32, data: U32, bytes: nat, next: int): Spec
    requires bytes == 1 || bytes == 2
  {
    Spec(true, addr % bytes != 0, rs1, rs2, 0, 0, Word(next),
         Aligned(addr), 0, PartMask(addr, bytes), ShiftLeft(data, 8 * (addr % 4)))
  }

  // ----- the modules

  function Truth(b: bool): int {
    if b then 1 else 0
  }

  /** The 32-bit instructions that no expansion uses. */
  function OtherSpec(i: Insn, w: U32, d: Operands): Spec
    requires !IsCompressed(i) && !IsBase(i)
  {
    var next, places := d.pc + 4, d.rs2 % 0x20;
    var load, store := Word(d.rs1 + ImmI(w)), Word(d.rs1 + ImmS(w));
    var s1, s2, imm := SignedWord(d.rs1), SignedWord(d.rs2), ImmI(w);
    match i
    case Slt => ToRd(Rs1(w), Rs2(w), Rd(w), Truth(s1 < s2), next)
    case Sltu => ToRd(Rs1(w), Rs2(w), Rd(w), Truth(d.rs1 < d.rs2), next)
    case Slti => ToRd(Rs1(w), 0, Rd(w), Truth(s1 < imm), next)
    case Sltiu => ToRd(Rs1(w), 0, Rd(w), Truth(d.rs1 < Word(imm)), next)
    case Xori => ToRd(Rs1(w), 0, Rd(w), XorWord(d.rs1, imm), next)
    case Ori => ToRd(Rs1(w), 0, Rd(w), OrWord(d.rs1, imm), next)
    case Sll => ToRd(Rs1(w), Rs2(w), Rd(w), ShiftLeft(d.rs1, places), next)
    case Srl => ToRd(Rs1(w), Rs2(w), Rd(w), ShiftRight(d.rs1, places), next)
    case Sra => ToRd(Rs1(w), Rs2(w), Rd(w), ShiftRightArith(d.rs1, places), next)
    case Auipc => ToRd(0, 0, Rd(w), d.pc + ImmU(w), next)
    case Blt => Branch(Rs1(w), Rs2(w), s1 < s2, d.pc + ImmB(w), next)
    case Bge => Branch(Rs1(w), Rs2(w), s1 >= s2, d.pc + ImmB(w), next)
    case Bltu => Branch(Rs1(w), Rs2(w), d.rs1 < d.rs2, d.pc + ImmB(w), next)
    case Bgeu => Branch(Rs1(w), Rs2(w), d.rs1 >= d.rs2, d.pc + ImmB(w), next)
    case Lb => LoadPart(Rs1(w), Rd(w), load, d.mem, 1, true, next)
    case Lbu => LoadPart(Rs1(w), Rd(w), load, d.mem, 1, false, next)
    case Lh => LoadPart(Rs1(w), Rd(w), load, d.mem, 2, true, next)
    case Lhu => LoadPart(Rs1(w), Rd(w), load, d.mem, 2, false, next)
    case Sb => StorePart(Rs1(w), Rs2(w), store, d.rs2, 1, next)
    case Sh => StorePart(Rs1(w), Rs2(w), store, d.rs2, 2, next)
    case Mul => ToRd(Rs1(w), Rs2(w), Rd(w), d.rs1 * d.rs2, next)
    case Mulh => ToRd(Rs1(w), Rs2(w), Rd(w), Upper(s1 * s2), next)
    case Mulhsu => ToRd(Rs1(w), Rs2(w), Rd(w), Upper(s1 * d.rs2), next)
    case Mulhu => ToRd(Rs1(w), Rs2(w), Rd(w), Upper(d.rs1 * d.rs2), next)
    case Div => ToRd(Rs1(w), Rs2(w), Rd(w), Quotient(d.rs1, d.rs2), next)
    case Divu => ToRd(Rs1(w), Rs2(w), Rd(w), QuotientUnsigned(d.rs1, d.rs2), next)
    case Rem => ToRd(Rs1(w), Rs2(w), Rd(w), Remainder(d.rs1, d.rs2), next)
    case Remu => ToRd(Rs1(w), Rs2(w), Rd(w), RemainderUnsigned(d.rs1, d.rs2), next)
  }

  // ----- where div and rem are not signed

  function Abs(x: int): nat {
    if x < 0 then -x else x
  }

  /** DIV and REM of the ISA: they round towards zero, and the remainder has the sign of the dividend
      (section 6.2 of the RISC-V User-Level ISA, version 2.2). */
  function IsaQuotient(a: U32, b: U32): U32 {
    var x, y := SignedWord(a), SignedWord(b);
    if y == 0 then 0xFFFF_FFFF
    else if (x < 0) == (y < 0) then Word(WholePart(Abs(x), Abs(y))) else Word(-(WholePart(Abs(x), Abs(y)) as int))
  }

  function IsaRemainder(a: U32, b: U32): U32 {
    var x, y := SignedWord(a), SignedWord(b);
    if y == 0 then a
    else if x < 0 then Word(-(Rest(Abs(x), Abs(y)) as int)) else Word(Rest(Abs(x), Abs(y)))
  }

  predicate Negative(a: U32) {
    a >= 0x8000_0000
  }

  lemma Together(a: nat, b: nat)
    requires b > 0
    ensures a == b * WholePart(a, b) + Rest(a, b)
  {
  }

  lemma PartsAre(a: nat, b: nat, q: nat, r: nat)
    requires r < b && a == b * q + r
    ensures WholePart(a, b) == q && Rest(a, b) == r
  {
    QuotientIs(a, b, q, r);
  }

  lemma PositiveFactor(b: nat, q: nat)
    requires b * q > 0
    ensures q > 0
  {
  }

  lemma AtLeastOnce(a: nat, b: nat)
    requires 0 < b <= a
    ensures WholePart(a, b) >= 1
  {
    hide WholePart, Rest;
    Together(a, b);
    PositiveFactor(b, WholePart(a, b));
  }

  lemma AtMostHalf(a: nat, b: nat)
    requires b >= 2
    ensures WholePart(a, b) <= a / 2
  {
    hide WholePart, Rest;
    Together(a, b);
    var q := WholePart(a, b);
    assert b * q == 2 * q + (b - 2) * q;
    assert (b - 2) * q >= 0;
  }

  lemma Parts(a: nat, b: nat)
    requires b > 0
    ensures a < b ==> WholePart(a, b) == 0 && Rest(a, b) == a
    ensures a >= b ==> WholePart(a, b) >= 1
    ensures a == b ==> WholePart(a, b) == 1 && Rest(a, b) == 0
    ensures b == 1 ==> WholePart(a, b) == a && Rest(a, b) == 0
    ensures b >= 2 ==> WholePart(a, b) <= a / 2
    ensures b <= a < 2 * b ==> WholePart(a, b) == 1 && Rest(a, b) == a - b
  {
    hide WholePart, Rest;
    if a < b { PartsAre(a, b, 0, a); } else { AtLeastOnce(a, b); }
    if b == 1 { PartsAre(a, 1, a, 0); } else { AtMostHalf(a, b); }
    if b <= a < 2 * b { PartsAre(a, b, 1, a - b); }
  }

  lemma MinusWord(q: nat)
    requires q < 0x1_0000_0000
    ensures Word(-(q as int)) == if q == 0 then 0 else 0x1_0000_0000 - q
    ensures Word(q) == q
  {
  }

  /** A negative operand, read without sign. */
  lemma AbsOf(a: U32)
    ensures Abs(SignedWord(a)) == if Negative(a) then 0x1_0000_0000 - a else a
  {
  }

  lemma DivNegativeDivisor(a: U32, b: U32)
    requires !Negative(a) && Negative(b)
    ensures Quotient(a, b) == IsaQuotient(a, b) <==> a < Abs(SignedWord(b))
  {
    hide WholePart, Rest, Word;
    AbsOf(a);
    AbsOf(b);
    Parts(a, b);
    Parts(a, Abs(SignedWord(b)));
    MinusWord(WholePart(a, Abs(SignedWord(b))));
  }

  lemma DivNegativeDividend(a: U32, b: U32)
    requires Negative(a) && !Negative(b) && b != 0
    ensures Quotient(a, b) == IsaQuotient(a, b) <==> b == 1
  {
    hide WholePart, Rest, Word;
    AbsOf(a);
    AbsOf(b);
    Parts(a, b);
    Parts(Abs(SignedWord(a)), b);
    MinusWord(WholePart(Abs(SignedWord(a)), b));
  }

  lemma DivBothNegative(a: U32, b: U32)
    requires Negative(a) && Negative(b) && !(a == 0x8000_0000 && b == 0xFFFF_FFFF)
    ensures Quotient(a, b) == IsaQuotient(a, b) <==> a == b
  {
    hide WholePart, Rest, Word;
    AbsOf(a);
    AbsOf(b);
    Parts(a, b);
    Parts(Abs(SignedWord(a)), Abs(SignedWord(b)));
    MinusWord(WholePart(Abs(SignedWord(a)), Abs(SignedWord(b))));
  }

  lemma DivSpecial(a: U32, b: U32)
    ensures b == 0 || (a == 0x8000_0000 && b == 0xFFFF_FFFF) || (!Negative(a) && !Negative(b)) ==>
      Quotient(a, b) == IsaQuotient(a, b)
  {
    hide WholePart, Rest, Word;
    AbsOf(a);
    AbsOf(b);
    if b != 0 {
      Parts(a, b);
      Parts(Abs(SignedWord(a)), Abs(SignedWord(b)));
      MinusWord(WholePart(Abs(SignedWord(a)), Abs(SignedWord(b))));
      MinusWord(Rest(Abs(SignedWord(a)), Abs(SignedWord(b))));
    }
  }

  /** The div module gives the quotient of the ISA exactly for these operands. */
  lemma DivAgrees(a: U32, b: U32)
    ensures Quotient(a, b) == IsaQuotient(a, b) <==>
      || b == 0 || a == b || (a == 0x8000_0000 && b == 0xFFFF_FFFF)
      || (!Negative(a) && (!Negative(b) || a < Abs(SignedWord(b))))
      || (Negative(a) && b == 1)
  {
    hide Quotient, IsaQuotient;
    DivSpecial(a, b);
    if Negative(b) && !Negative(a) { DivNegativeDivisor(a, b); }
    if Negative(a) && !Negative(b) && b != 0 { DivNegativeDividend(a, b); }
    if Negative(a) && Negative(b) && !(a == 0x8000_0000 && b == 0xFFFF_FFFF) { DivBothNegative(a, b); }
  }

  lemma RemNegativeDivisor(a: U32, b: U32)
    requires !Negative(a) && Negative(b)
    ensures Remainder(a, b) == IsaRemainder(a, b) <==> a < Abs(SignedWord(b))
  {
    hide WholePart, Rest, Word;
    AbsOf(a);
    AbsOf(b);
    Parts(a, b);
    Parts(a, Abs(SignedWord(b)));
    MinusWord(Rest(a, Abs(SignedWord(b))));
  }

  /** Of a negative dividend they agree only when nothing remains either way. */
  lemma RemNegativeDividend(a: U32, b: U32)
    requires Negative(a) && !Negative(b) && b != 0
    ensures Remainder(a, b) == IsaRemainder(a, b) <==> Rest(a, b) == 0 == Rest(0x1_0000_0000 - a, b)
  {
    hide WholePart, Rest, Word;
    AbsOf(a);
    AbsOf(b);
    MinusWord(Rest(Abs(SignedWord(a)), b));
  }

  lemma RemBothNegative(a: U32, b: U32)
    requires Negative(a) && Negative(b) && !(a == 0x8000_0000 && b == 0xFFFF_FFFF)
    ensures Remainder(a, b) == IsaRemainder(a, b) <==> a == b
  {
    hide WholePart, Rest, Word;
    AbsOf(a);
    AbsOf(b);
    Parts(a, b);
    Parts(Abs(SignedWord(a)), Abs(SignedWord(b)));
    MinusWord(Rest(Abs(SignedWord(a)), Abs(SignedWord(b))));
  }

  lemma RemSpecial(a: U32, b: U32)
    ensures b == 0 || (a == 0x8000_0000 && b == 0xFFFF_FFFF) || (!Negative(a) && !Negative(b)) ==>
      Remainder(a, b) == IsaRemainder(a, b)
  {
    hide WholePart, Rest, Word;
    AbsOf(a);
    AbsOf(b);
    if b != 0 {
      Parts(a, b);
      Parts(Abs(SignedWord(a)), Abs(SignedWord(b)));
      MinusWord(WholePart(Abs(SignedWord(a)), Abs(SignedWord(b))));
      MinusWord(Rest(Abs(SignedWord(a)), Abs(SignedWord(b))));
    }
  }

  /** And the rem module gives the remainder exactly for these. */
  lemma RemAgrees(a: U32, b: U32)
    ensures Remainder(a, b) == IsaRemainder(a, b) <==>
      || b == 0 || a == b || (a == 0x8000_0000 && b == 0xFFFF_FFFF)
      || (!Negative(a) && (!Negative(b) || a < Abs(SignedWord(b))))
      || (Negative(a) && !Negative(b) && Rest(a, b) == 0 == Rest(0x1_0000_0000 - a, b))
  {
    hide Remainder, IsaRemainder, Rest;
    RemSpecial(a, b);
    if Negative(b) && !Negative(a) { RemNegativeDivisor(a, b); }
    if Negative(a) && !Negative(b) && b != 0 { RemNegativeDividend(a, b); }
    if Negative(a) && Negative(b) && !(a == 0x8000_0000 && b == 0xFFFF_FFFF) { RemBothNegative(a, b); }
  }

  /** None of them changes x0, and each says that a word it accepts is valid. */
  lemma OtherKeepsX0(i: Insn, w: U32, d: Operands)
    requires !IsCompressed(i) && !IsBase(i)
    ensures OtherSpec(i, w, d).rdAddr == 0 ==> OtherSpec(i, w, d).rdData == 0
    ensures OtherSpec(i, w, d).valid
  {
    hide Rd, Rs1, Rs2, ImmI, ImmS, ImmB, ImmU, SignedWord, Upper, Truth, Part, PartMask,
      Quotient, QuotientUnsigned, Remainder, RemainderUnsigned,
      Word, OrWord, XorWord, ShiftLeft, ShiftRight, ShiftRightArith, Aligned;
  }
}
