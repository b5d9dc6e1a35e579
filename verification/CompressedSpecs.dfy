/** The compressed instructions of the RVFI monitor specify what their 32-bit expansions do, but for the
    length of the instruction. */
module CompressedSpecs {
  import opened Bitwise
  import opened Division
  import opened MachineTypes
  import opened Rvfi
  import opened InsnSpecs

  // ----- 32-bit arithmetic

  /** A number kept to 32 bits. */
  function Word(x: int): U32 {
    x % 0x1_0000_0000
  }

  function SignedWord(x: U32): int {
    if x < 0x8000_0000 then x else x - 0x1_0000_0000
  }

  /** Bit by bit: both set, or either set. */
  function AndBits(a: nat, b: nat, n: nat): (r: nat)
    ensures r < Pow2(n)
    decreases n
  {
    if n == 0 then 0 else a % 2 * (b % 2) + 2 * AndBits(a / 2, b / 2, n - 1)
  }

  function OrBits(a: nat, b: nat, n: nat): (r: nat)
    ensures r < Pow2(n)
    decreases n
  {
    if n == 0 then 0 else (if a % 2 + b % 2 > 0 then 1 else 0) + 2 * OrBits(a / 2, b / 2, n - 1)
  }

  function AndWord(a: U32, b: int): U32 { Word(AndBits(a, Word(b), 32)) }
  function OrWord(a: U32, b: int): U32 { Word(OrBits(a, Word(b), 32)) }
  function XorWord(a: U32, b: int): U32 { Word(Bitwise.Xor(a, Word(b), 32)) }
  function ShiftLeft(a: U32, places: nat): U32 { Word(a * Pow2(places)) }
  function ShiftRight(a: U32, places: nat): U32 { Word(a / Pow2(places)) }
  function ShiftRightArith(a: U32, places: nat): U32 { Word(SignedWord(a) / Pow2(places)) }

  /** spec_mem_addr and, for a whole word, what is moved and where. */
  function Aligned(addr: U32): U32 { addr - addr % 4 }
  function WordMask(addr: U32): Mask { 15 * Pow2(addr % 4) % 16 }

  // ----- what a module specifies

  /** A result register, unless it is x0, and the next instruction. */
  function ToRd(rs1: Reg, rs2: Reg, rd: Reg, value: int, next: int): Spec {
    Spec(true, false, rs1, rs2, rd, if rd == 0 then 0 else Word(value), Word(next), 0, 0, 0, 0)
  }

  function Branch(rs1: Reg, rs2: Reg, taken: bool, target: int, next: int): Spec {
    var pc := Word(if taken then target else next);
    Spec(true, pc % 2 != 0, rs1, rs2, 0, 0, pc, 0, 0, 0, 0)
  }

  function LoadWord(rs1: Reg, rd: Reg, addr: U32, mem: U32, next: int): Spec {
    Spec(true, addr % 4 != 0, rs1, 0, rd, if rd == 0 then 0 else ShiftRight(mem, 8 * (addr % 4)), Word(next),
         Aligned(addr), WordMask(addr), 0, 0)
  }

  function StoreWord(rs1: Reg, rs2: Reg, addr: U32, data: U32, next: int): Spec {
    Spec(true, addr % 4 != 0, rs1, rs2, 0, 0, Word(next), Aligned(addr), 0, WordMask(addr),
         ShiftLeft(data, 8 * (addr % 4)))
  }

  /** The 32-bit instructions that expansions use. */
  predicate IsBase(i: Insn) {
    i.Add? || i.Addi? || i.And? || i.Andi? || i.Beq? || i.Bne? || i.Jal? || i.Jalr? || i.Lui? || i.Lw? || i.Or?
    || i.Slli? || i.Srai? || i.Srli? || i.Sub? || i.Sw? || i.Xor?
  }

  /** What they specify; length is 4 in the monitor. */
  function BaseSpec(i: Insn, w: U32, d: Operands, length: nat): Spec
    requires IsBase(i)
  {
    var next := d.pc + length;
    match i
    case Add => ToRd(Rs1(w), Rs2(w), Rd(w), d.rs1 + d.rs2, next)
    case Sub => ToRd(Rs1(w), Rs2(w), Rd(w), d.rs1 - d.rs2, next)
    case And => ToRd(Rs1(w), Rs2(w), Rd(w), AndWord(d.rs1, d.rs2), next)
    case Or => ToRd(Rs1(w), Rs2(w), Rd(w), OrWord(d.rs1, d.rs2), next)
    case Xor => ToRd(Rs1(w), Rs2(w), Rd(w), XorWord(d.rs1, d.rs2), next)
    case Addi => ToRd(Rs1(w), 0, Rd(w), d.rs1 + ImmI(w), next)
    case Andi => ToRd(Rs1(w), 0, Rd(w), AndWord(d.rs1, ImmI(w)), next)
    case Slli => ToRd(Rs1(w), 0, Rd(w), ShiftLeft(d.rs1, Shamt(w)), next)
    case Srli => ToRd(Rs1(w), 0, Rd(w), ShiftRight(d.rs1, Shamt(w)), next)
    case Srai => ToRd(Rs1(w), 0, Rd(w), ShiftRightArith(d.rs1, Shamt(w)), next)
    case Lui => ToRd(0, 0, Rd(w), ImmU(w), next)
    case Lw => LoadWord(Rs1(w), Rd(w), Word(d.rs1 + ImmI(w)), d.mem, next)
    case Sw => StoreWord(Rs1(w), Rs2(w), Word(d.rs1 + ImmS(w)), d.rs2, next)
    case Beq => Branch(Rs1(w), Rs2(w), d.rs1 == d.rs2, d.pc + ImmB(w), next)
    case Bne => Branch(Rs1(w), Rs2(w), d.rs1 != d.rs2, d.pc + ImmB(w), next)
    case Jal =>
      var target := Word(d.pc + ImmJ(w));
      ToRd(0, 0, Rd(w), next, target).(trap := target % 2 != 0)
    case Jalr =>
      var target := Word(d.rs1 + ImmI(w));
      ToRd(Rs1(w), 0, Rd(w), next, target - target % 2).(trap := (target - target % 2) % 2 != 0)
  }

  /** What the compressed instructions specify. */
  function CompressedSpec(i: Insn, w: U32, d: Operands): Spec
    requires IsCompressed(i)
  {
    var next := d.pc + 2;
    match i
    case CAdd => ToRd(CRd(w), CRs2(w), CRd(w), d.rs1 + d.rs2, next)
    case CMv => ToRd(0, CRs2(w), CRd(w), d.rs2, next)
    case CSub => ToRd(CRs1Short(w), CRs2Short(w), CRs1Short(w), d.rs1 - d.rs2, next)
    case CAnd => ToRd(CRs1Short(w), CRs2Short(w), CRs1Short(w), AndWord(d.rs1, d.rs2), next)
    case COr => ToRd(CRs1Short(w), CRs2Short(w), CRs1Short(w), OrWord(d.rs1, d.rs2), next)
    case CXor => ToRd(CRs1Short(w), CRs2Short(w), CRs1Short(w), XorWord(d.rs1, d.rs2), next)
    case CAddi => ToRd(CRd(w), 0, CRd(w), d.rs1 + CImm6(w), next)
    case CAddi16sp => ToRd(CRd(w), 0, CRd(w), d.rs1 + CImm16sp(w), next)
    case CAddi4spn => ToRd(2, 0, CRs2Short(w), d.rs1 + CImm4spn(w), next)
    case CAndi => ToRd(CRs1Short(w), 0, CRs1Short(w), AndWord(d.rs1, CImm6(w)), next)
    case CLi => ToRd(0, 0, CRd(w), CImm6(w), next)
    case CLui => ToRd(0, 0, CRd(w), CImmLui(w), next)
    case CSlli => ToRd(CRd(w), 0, CRd(w), ShiftLeft(d.rs1, CShamt(w)), next)
    case CSrli => ToRd(CRs1Short(w), 0, CRs1Short(w), ShiftRight(d.rs1, CShamt(w)), next)
    case CSrai => ToRd(CRs1Short(w), 0, CRs1Short(w), ShiftRightArith(d.rs1, CShamt(w)), next)
    case CLw => LoadWord(CRs1Short(w), CRs2Short(w), Word(d.rs1 + CImmLw(w)), d.mem, next)
    case CLwsp => LoadWord(2, CRd(w), Word(d.rs1 + CImmLwsp(w)), d.mem, next)
    case CSw => StoreWord(CRs1Short(w), CRs2Short(w), Word(d.rs1 + CImmLw(w)), d.rs2, next)
    case CSwsp => StoreWord(2, CRs2(w), Word(d.rs1 + CImmSwsp(w)), d.rs2, next)
    case CBeqz => Branch(CRs1Short(w), 0, d.rs1 == 0, d.pc + CImmB(w), next)
    case CBnez => Branch(CRs1Short(w), 0, d.rs1 != 0, d.pc + CImmB(w), next)
    case CJ => ToRd(0, 0, 0, 0, d.pc + CImmJ(w))
    case CJal => ToRd(0, 0, 1, next, d.pc + CImmJ(w))
    case CJr => ToRd(CRd(w), 0, 0, 0, d.rs1 - d.rs1 % 2).(trap := (d.rs1 - d.rs1 % 2) % 2 != 0)
    case CJalr => ToRd(CRd(w), 0, 1, next, d.rs1 - d.rs1 % 2).(trap := (d.rs1 - d.rs1 % 2) % 2 != 0)
  }

  // ----- expansions

  /** A word from its six fields. */
  function Compose(opcode: nat, rd: Reg, f3: nat, rs1: Reg, rs2: Reg, f7: nat): U32
    requires opcode < 0x80 && f3 < 8 && f7 < 0x80
  {
    opcode + rd * 0x80 + f3 * 0x1000 + rs1 * 0x8000 + rs2 * 0x10_0000 + f7 * 0x200_0000
  }

  lemma Fields(opcode: nat, rd: Reg, f3: nat, rs1: Reg, rs2: Reg, f7: nat)
    requires opcode < 0x80 && f3 < 8 && f7 < 0x80
    ensures var w := Compose(opcode, rd, f3, rs1, rs2, f7);
      Opcode(w) == opcode && Rd(w) == rd && Funct3(w) == f3 && Rs1(w) == rs1 && Rs2(w) == rs2 && Funct7(w) == f7
  {
    var w: int := Compose(opcode, rd, f3, rs1, rs2, f7);
    var top2 := rs2 + f7 * 0x20;
    var top3 := rs1 + top2 * 0x20;
    var top4 := f3 + top3 * 8;
    var top5 := rd + top4 * 0x20;
    QuotientIs(w, 0x80, top5, opcode);
    QuotientIs(top5, 0x20, top4, rd);
    QuotientIs(w, 0x1000, top4, opcode + rd * 0x80);
    QuotientIs(top4, 8, top3, f3);
    QuotientIs(w, 0x8000, top3, opcode + rd * 0x80 + f3 * 0x1000);
    QuotientIs(top3, 0x20, top2, rs1);
    QuotientIs(w, 0x10_0000, top2, opcode + rd * 0x80 + f3 * 0x1000 + rs1 * 0x8000);
    QuotientIs(top2, 0x20, f7, rs2);
    QuotientIs(w, 0x200_0000, f7, opcode + rd * 0x80 + f3 * 0x1000 + rs1 * 0x8000 + rs2 * 0x10_0000);
  }

  function EncodeR(f7: nat, rs2: Reg, rs1: Reg, f3: nat, rd: Reg): U32
    requires f7 < 0x80 && f3 < 8
  {
    Compose(0x33, rd, f3, rs1, rs2, f7)
  }

  function EncodeI(imm: int, rs1: Reg, f3: nat, rd: Reg, opcode: nat): U32
    requires f3 < 8 && opcode < 0x80
  {
    Compose(opcode, rd, f3, rs1, imm % 0x20, imm / 0x20 % 0x80)
  }

  function EncodeS(imm: int, rs2: Reg, rs1: Reg, f3: nat): U32
    requires f3 < 8
  {
    Compose(0x23, imm % 0x20, f3, rs1, rs2, imm / 0x20 % 0x80)
  }

  function EncodeB(imm: int, rs2: Reg, rs1: Reg, f3: nat): U32
    requires f3 < 8
  {
    Compose(0x63, imm / 2 % 0x10 * 2 + imm / 0x800 % 2, f3, rs1, rs2, imm / 0x1000 % 2 * 0x40 + imm / 0x20 % 0x40)
  }

  function EncodeU(imm20: int, rd: Reg): U32 {
    Compose(0x37, rd, imm20 % 8, imm20 / 8 % 0x20, imm20 / 0x100 % 0x20, imm20 / 0x2000 % 0x80)
  }

  function EncodeJ(imm: int, rd: Reg): U32 {
    Compose(0x6F, rd, imm / 0x1000 % 8, imm / 0x8000 % 0x20,
            imm / 2 % 0x10 * 2 + imm / 0x800 % 2, imm / 0x10_0000 % 2 * 0x40 + imm / 0x20 % 0x40)
  }

  /** One more digit of x in a mixed radix. */
  lemma Split(x: int, a: nat, b: nat)
    requires a > 0 && b > 0
    ensures a * b > 0 && x / a == x / a % b + b * (x / (a * b))
  {
    var q, r, t := x / a, x % a, x / a / b;
    assert x == a * q + r && q == b * t + q % b;
    assert x == a * (b * t + q % b) + r == a * (b * t) + a * (q % b) + r;
    assert a * (b * t) == (a * b) * t;
    SmallRemainder(a, b, q % b, r);
    QuotientIs(x, a * b, t, a * (q % b) + r);
  }

  lemma SmallRemainder(a: nat, b: nat, i: nat, r: nat)
    requires i < b && r < a
    ensures a * i + r < a * b && a * b > 0
  {
    var rest := b - i - 1;
    assert a * b == a * (i + 1 + rest) == a * i + a + a * rest;
    assert a * rest >= 0 && a * i >= 0;
  }

  lemma DecodeR(f7: nat, rs2: Reg, rs1: Reg, f3: nat, rd: Reg)
    requires f7 < 0x80 && f3 < 8
    ensures var w := EncodeR(f7, rs2, rs1, f3, rd);
      Opcode(w) == 0x33 && Rd(w) == rd && Funct3(w) == f3 && Rs1(w) == rs1 && Rs2(w) == rs2 && Funct7(w) == f7
  {
    Fields(0x33, rd, f3, rs1, rs2, f7);
  }

  lemma DecodeI(imm: int, rs1: Reg, f3: nat, rd: Reg, opcode: nat)
    requires f3 < 8 && opcode < 0x80 && -0x800 <= imm < 0x800
    ensures var w := EncodeI(imm, rs1, f3, rd, opcode);
      && Opcode(w) == opcode && Rd(w) == rd && Funct3(w) == f3 && Rs1(w) == rs1 && ImmI(w) == imm
      && (0 <= imm ==> Shamt(w) == imm % 0x40 && Funct6(w) == imm / 0x40)
  {
    hide Compose, Opcode, Rd, Funct3, Rs1, Rs2, Funct7;
    Fields(opcode, rd, f3, rs1, imm % 0x20, imm / 0x20 % 0x80);
  }

  lemma DecodeS(imm: int, rs2: Reg, rs1: Reg, f3: nat)
    requires f3 < 8 && -0x800 <= imm < 0x800
    ensures var w := EncodeS(imm, rs2, rs1, f3);
      Opcode(w) == 0x23 && Funct3(w) == f3 && Rs1(w) == rs1 && Rs2(w) == rs2 && ImmS(w) == imm
  {
    hide Compose, Opcode, Rd, Funct3, Rs1, Rs2, Funct7;
    Fields(0x23, imm % 0x20, f3, rs1, rs2, imm / 0x20 % 0x80);
  }

  lemma DecodeB(imm: int, rs2: Reg, rs1: Reg, f3: nat)
    requires f3 < 8 && -0x1000 <= imm < 0x1000 && imm % 2 == 0
    ensures var w := EncodeB(imm, rs2, rs1, f3);
      Opcode(w) == 0x63 && Funct3(w) == f3 && Rs1(w) == rs1 && Rs2(w) == rs2 && ImmB(w) == imm
  {
    hide Compose, Opcode, Rd, Funct3, Rs1, Rs2, Funct7, Signed;
    var p0, p1, p2, q := imm / 2 % 0x10, imm / 0x20 % 0x40, imm / 0x800 % 2, imm / 0x1000;
    Fields(0x63, p0 * 2 + p2, f3, rs1, rs2, q % 2 * 0x40 + p1);
    BranchDigits(imm);
    DigitsB(imm, p0, p1, p2, q);
  }

  lemma BranchDigits(imm: int)
    requires -0x1000 <= imm < 0x1000 && imm % 2 == 0
    ensures var p0, p1, p2, q := imm / 2 % 0x10, imm / 0x20 % 0x40, imm / 0x800 % 2, imm / 0x1000;
      -1 <= q <= 0 && imm == 2 * (p0 + 0x10 * (p1 + 0x40 * (p2 + 2 * q)))
  {
    Split(imm, 2, 0x10);
    Split(imm, 0x20, 0x40);
    Split(imm, 0x800, 2);
  }

  /** The immediate of a branch from its pieces. */
  lemma DigitsB(imm: int, p0: nat, p1: nat, p2: nat, q: int)
    requires p0 < 0x10 && p1 < 0x40 && p2 < 2 && -1 <= q <= 0
    requires imm == 2 * (p0 + 0x10 * (p1 + 0x40 * (p2 + 2 * q)))
    ensures var f7, rd := q % 2 * 0x40 + p1, p0 * 2 + p2;
      Signed(f7 / 0x40 * 0x1000 + rd % 2 * 0x800 + f7 % 0x40 * 0x20 + rd / 2 * 2, 0x1000) == imm
  {
    assert (p0 * 2 + p2) % 2 == p2 && (p0 * 2 + p2) / 2 == p0;
    assert (q % 2 * 0x40 + p1) / 0x40 == q % 2 && (q % 2 * 0x40 + p1) % 0x40 == p1;
  }

  lemma DecodeU(imm20: int, rd: Reg)
    requires -0x8_0000 <= imm20 < 0x8_0000
    ensures var w := EncodeU(imm20, rd);
      Opcode(w) == 0x37 && Rd(w) == rd && ImmU(w) == imm20 % 0x10_0000 * 0x1000
  {
    hide Compose, Opcode, Rd, Funct3, Rs1, Rs2, Funct7;
    Fields(0x37, rd, imm20 % 8, imm20 / 8 % 0x20, imm20 / 0x100 % 0x20, imm20 / 0x2000 % 0x80);
    Split(imm20, 1, 8);
    Split(imm20, 8, 0x20);
    Split(imm20, 0x100, 0x20);
    Split(imm20, 0x2000, 0x80);
  }

  lemma DecodeJ(imm: int, rd: Reg)
    requires -0x10_0000 <= imm < 0x10_0000 && imm % 2 == 0
    ensures var w := EncodeJ(imm, rd);
      Opcode(w) == 0x6F && Rd(w) == rd && ImmJ(w) == imm
  {
    hide Compose, Opcode, Rd, Funct3, Rs1, Rs2, Funct7, Signed;
    var p0, p1, p2, p3, p4, q :=
      imm / 2 % 0x10, imm / 0x20 % 0x40, imm / 0x800 % 2, imm / 0x1000 % 8, imm / 0x8000 % 0x20, imm / 0x10_0000;
    Fields(0x6F, rd, p3, p4, p0 * 2 + p2, q % 2 * 0x40 + p1);
    JumpDigits(imm);
    DigitsJ(imm, p0, p1, p2, p3, p4, q);
  }

  lemma JumpDigits(imm: int)
    requires -0x10_0000 <= imm < 0x10_0000 && imm % 2 == 0
    ensures var p0, p1, p2, p3, p4, q :=
      imm / 2 % 0x10, imm / 0x20 % 0x40, imm / 0x800 % 2, imm / 0x1000 % 8, imm / 0x8000 % 0x20, imm / 0x10_0000;
      -1 <= q <= 0 && imm == 2 * (p0 + 0x10 * (p1 + 0x40 * (p2 + 2 * (p3 + 8 * (p4 + 0x20 * q)))))
  {
    Split(imm, 2, 0x10);
    Split(imm, 0x20, 0x40);
    Split(imm, 0x800, 2);
    Split(imm, 0x1000, 8);
    Split(imm, 0x8000, 0x20);
  }

  /** The immediate of a jump from its pieces. */
  lemma DigitsJ(imm: int, p0: nat, p1: nat, p2: nat, p3: nat, p4: nat, q: int)
    requires p0 < 0x10 && p1 < 0x40 && p2 < 2 && p3 < 8 && p4 < 0x20 && -1 <= q <= 0
    requires imm == 2 * (p0 + 0x10 * (p1 + 0x40 * (p2 + 2 * (p3 + 8 * (p4 + 0x20 * q)))))
    ensures var top := (q % 2 * 0x40 + p1) * 0x20 + (p0 * 2 + p2);
      Signed(top / 0x800 * 0x10_0000 + (p4 * 8 + p3) * 0x1000 + top % 2 * 0x800 + top / 2 % 0x400 * 2, 0x10_0000) == imm
  {
    var top := (q % 2 * 0x40 + p1) * 0x20 + (p0 * 2 + p2);
    var low := p1 * 0x10 + p0;
    QuotientIs(top, 2, low + q % 2 * 0x400, p2);
    QuotientIs(low + q % 2 * 0x400, 0x400, q % 2, low);
    QuotientIs(top, 0x800, q % 2, low * 2 + p2);
  }

  /** The instruction a compressed one stands for, in 32 bits (sections 12.3 to 12.5 of the RISC-V
      User-Level ISA, version 2.2). */
  function Base(i: Insn): (b: Insn)
    requires IsCompressed(i)
    ensures IsBase(b)
  {
    match i
    case CAdd => Add
    case CMv => Add
    case CSub => Sub
    case CAnd => And
    case COr => Or
    case CXor => Xor
    case CAddi => Addi
    case CAddi16sp => Addi
    case CAddi4spn => Addi
    case CLi => Addi
    case CAndi => Andi
    case CLui => Lui
    case CSlli => Slli
    case CSrli => Srli
    case CSrai => Srai
    case CLw => Lw
    case CLwsp => Lw
    case CSw => Sw
    case CSwsp => Sw
    case CBeqz => Beq
    case CBnez => Bne
    case CJ => Jal
    case CJal => Jal
    case CJr => Jalr
    case CJalr => Jalr
  }

  function Expansion(i: Insn, w: U32): U32
    requires IsCompressed(i)
  {
    var rd, rs2, short1, short2 := CRd(w), CRs2(w), CRs1Short(w), CRs2Short(w);
    match i
    case CAdd => EncodeR(0, rs2, rd, 0, rd)
    case CMv => EncodeR(0, rs2, 0, 0, rd)
    case CSub => EncodeR(0x20, short2, short1, 0, short1)
    case CAnd => EncodeR(0, short2, short1, 7, short1)
    case COr => EncodeR(0, short2, short1, 6, short1)
    case CXor => EncodeR(0, short2, short1, 4, short1)
    case CAddi => EncodeI(CImm6(w), rd, 0, rd, 0x13)
    case CAddi16sp => EncodeI(CImm16sp(w), rd, 0, rd, 0x13)
    case CAddi4spn => EncodeI(CImm4spn(w), 2, 0, short2, 0x13)
    case CLi => EncodeI(CImm6(w), 0, 0, rd, 0x13)
    case CAndi => EncodeI(CImm6(w), short1, 7, short1, 0x13)
    case CLui => EncodeU(CImmLui(w) / 0x1000, rd)
    case CSlli => EncodeI(CShamt(w), rd, 1, rd, 0x13)
    case CSrli => EncodeI(CShamt(w), short1, 5, short1, 0x13)
    case CSrai => EncodeI(0x400 + CShamt(w), short1, 5, short1, 0x13)
    case CLw => EncodeI(CImmLw(w), short1, 2, short2, 0x03)
    case CLwsp => EncodeI(CImmLwsp(w), 2, 2, rd, 0x03)
    case CSw => EncodeS(CImmLw(w), short2, short1, 2)
    case CSwsp => EncodeS(CImmSwsp(w), rs2, 2, 2)
    case CBeqz => EncodeB(CImmB(w), 0, short1, 0)
    case CBnez => EncodeB(CImmB(w), 0, short1, 1)
    case CJ => EncodeJ(CImmJ(w), 0)
    case CJal => EncodeJ(CImmJ(w), 1)
    case CJr => EncodeI(0, rd, 0, 0, 0x67)
    case CJalr => EncodeI(0, rd, 0, 1, 0x67)
  }

  // ----- the agreement

  /** Reading x0 gives 0, and jumps start from even addresses. */
  predicate WellBehaved(i: Insn, d: Operands)
    requires IsCompressed(i)
  {
    && (i.CLi? || i.CMv? ==> d.rs1 == 0)
    && (i.CBeqz? || i.CBnez? ==> d.rs2 == 0)
    && (i.CJ? || i.CJal? ==> d.pc % 2 == 0)
  }

  lemma ImmediateRanges(w: U32)
    ensures -0x20 <= CImm6(w) < 0x20 && -0x200 <= CImm16sp(w) < 0x200 && CImm4spn(w) < 0x400 && CShamt(w) < 0x40
    ensures -0x100 <= CImmB(w) < 0x100 && CImmB(w) % 2 == 0
    ensures CImmLw(w) < 0x80 && CImmLwsp(w) < 0x100 && CImmSwsp(w) < 0x100
    ensures CImmLui(w) == CImm6(w) * 0x1000
  {
  }

  lemma JumpRange(w: U32)
    ensures -0x800 <= CImmJ(w) < 0x800 && CImmJ(w) % 2 == 0
  {
    hide BitAt;
  }

  /** The expansion is valid, and the two modules specify the same. */
  predicate Agree(i: Insn, w: U32, d: Operands)
    requires IsCompressed(i)
  {
    && Valid(Base(i), Expansion(i, w))
    && CompressedSpec(i, w, d) == BaseSpec(Base(i), Expansion(i, w), d, 2)
  }

  lemma SumsValid(w: U32)
    ensures Valid(Add, w) == R(w, 0, 0) && Valid(Sub, w) == R(w, 0x20, 0)
  {
    hide R, Op3, C, CArith, Opcode, Funct6, Shamt;
  }

  lemma LogicValid(w: U32)
    ensures Valid(And, w) == R(w, 0, 7) && Valid(Or, w) == R(w, 0, 6) && Valid(Xor, w) == R(w, 0, 4)
  {
    hide R, Op3, C, CArith, Opcode, Funct6, Shamt;
  }

  lemma ImmediatesValid(w: U32)
    ensures Valid(Addi, w) == Op3(w, 0x13, 0) && Valid(Andi, w) == Op3(w, 0x13, 7)
  {
    hide R, Op3, C, CArith, Opcode, Funct6, Shamt;
  }

  lemma ShiftsValid(w: U32)
    ensures Valid(Slli, w) == (Op3(w, 0x13, 1) && Funct6(w) == 0 && Shamt(w) < 0x20)
    ensures Valid(Srli, w) == (Op3(w, 0x13, 5) && Funct6(w) == 0 && Shamt(w) < 0x20)
    ensures Valid(Srai, w) == (Op3(w, 0x13, 5) && Funct6(w) == 0x10 && Shamt(w) < 0x20)
  {
    hide R, Op3, C, CArith, Opcode, Funct6, Shamt;
  }

  lemma AccessesValid(w: U32)
    ensures Valid(Lw, w) == Op3(w, 0x03, 2) && Valid(Sw, w) == Op3(w, 0x23, 2)
  {
    hide R, Op3, C, CArith, Opcode, Funct6, Shamt;
  }

  lemma BranchesValid(w: U32)
    ensures Valid(Beq, w) == Op3(w, 0x63, 0) && Valid(Bne, w) == Op3(w, 0x63, 1)
  {
    hide R, Op3, C, CArith, Opcode, Funct6, Shamt;
  }

  lemma JumpsValid(w: U32)
    ensures Valid(Jal, w) == (Opcode(w) == 0x6F) && Valid(Jalr, w) == Op3(w, 0x67, 0)
  {
    hide R, Op3, C, CArith, Opcode, Funct6, Shamt;
  }

  lemma RegistersAgree(i: Insn, w: U32, d: Operands)
    requires IsCompressed(i) && WellBehaved(i, d) && (i.CAdd? || i.CMv? || i.CSub? || i.CAnd? || i.COr? || i.CXor?)
    ensures Agree(i, w, d)
  {
    hide Opcode, Rd, Funct3, Rs1, Rs2, Funct7, Funct6, Shamt, ImmI, ImmS, ImmB, ImmJ, Quadrant, CFunct3, Bit12,
      Bits1110, Bits65, CRd, CRs2, CRs1Short, CRs2Short, CImm6, CImm16sp, CImm4spn, CShamt, CImmB, CImmJ, CImmLui,
      CImmLw, CImmLwsp, CImmSwsp, EncodeR, EncodeI, EncodeS, EncodeB, EncodeU, EncodeJ, Word, C, CArith, AndWord,
      OrWord, XorWord, ShiftLeft, ShiftRight, ShiftRightArith, LoadWord, StoreWord, Branch, Valid;
    SumsValid(Expansion(i, w));
    LogicValid(Expansion(i, w));
    ImmediateRanges(w);
    var rd, rs2, short1, short2 := CRd(w), CRs2(w), CRs1Short(w), CRs2Short(w);
    match i {
      case CAdd => DecodeR(0, rs2, rd, 0, rd); assert Agree(CAdd, w, d);
      case CMv => DecodeR(0, rs2, 0, 0, rd); assert Agree(CMv, w, d);
      case CSub => DecodeR(0x20, short2, short1, 0, short1); assert Agree(CSub, w, d);
      case CAnd => DecodeR(0, short2, short1, 7, short1); assert Agree(CAnd, w, d);
      case COr => DecodeR(0, short2, short1, 6, short1); assert Agree(COr, w, d);
      case CXor => DecodeR(0, short2, short1, 4, short1); assert Agree(CXor, w, d);
    }
  }

  lemma ImmediatesAgree(i: Insn, w: U32, d: Operands)
    requires IsCompressed(i) && WellBehaved(i, d) && (i.CAddi? || i.CAddi16sp? || i.CAddi4spn? || i.CLi? || i.CAndi?)
    ensures Agree(i, w, d)
  {
    hide Opcode, Rd, Funct3, Rs1, Rs2, Funct7, Funct6, Shamt, ImmI, ImmS, ImmB, ImmJ, Quadrant, CFunct3, Bit12,
      Bits1110, Bits65, CRd, CRs2, CRs1Short, CRs2Short, CImm6, CImm16sp, CImm4spn, CShamt, CImmB, CImmJ, CImmLui,
      CImmLw, CImmLwsp, CImmSwsp, EncodeR, EncodeI, EncodeS, EncodeB, EncodeU, EncodeJ, Word, C, CArith, AndWord,
      OrWord, XorWord, ShiftLeft, ShiftRight, ShiftRightArith, LoadWord, StoreWord, Branch, Valid;
    ImmediatesValid(Expansion(i, w));
    ImmediateRanges(w);
    var rd, rs2, short1, short2 := CRd(w), CRs2(w), CRs1Short(w), CRs2Short(w);
    match i {
      case CAddi => DecodeI(CImm6(w), rd, 0, rd, 0x13); assert Agree(CAddi, w, d);
      case CAddi16sp => DecodeI(CImm16sp(w), rd, 0, rd, 0x13); assert Agree(CAddi16sp, w, d);
      case CAddi4spn => DecodeI(CImm4spn(w), 2, 0, short2, 0x13); assert Agree(CAddi4spn, w, d);
      case CLi => DecodeI(CImm6(w), 0, 0, rd, 0x13); assert Agree(CLi, w, d);
      case CAndi => DecodeI(CImm6(w), short1, 7, short1, 0x13); assert Agree(CAndi, w, d);
    }
  }

  lemma ShiftsAgree(i: Insn, w: U32, d: Operands)
    requires IsCompressed(i) && CShamt(w) < 0x20 && WellBehaved(i, d) && (i.CSlli? || i.CSrli? || i.CSrai?)
    ensures Agree(i, w, d)
  {
    hide Opcode, Rd, Funct3, Rs1, Rs2, Funct7, Funct6, Shamt, ImmI, ImmS, ImmB, ImmJ, Quadrant, CFunct3, Bit12,
      Bits1110, Bits65, CRd, CRs2, CRs1Short, CRs2Short, CImm6, CImm16sp, CImm4spn, CShamt, CImmB, CImmJ, CImmLui,
      CImmLw, CImmLwsp, CImmSwsp, EncodeR, EncodeI, EncodeS, EncodeB, EncodeU, EncodeJ, Word, C, CArith, AndWord,
      OrWord, XorWord, ShiftLeft, ShiftRight, ShiftRightArith, LoadWord, StoreWord, Branch, Valid;
    ShiftsValid(Expansion(i, w));
    ImmediateRanges(w);
    var rd, rs2, short1, short2 := CRd(w), CRs2(w), CRs1Short(w), CRs2Short(w);
    match i {
      case CSlli => DecodeI(CShamt(w), rd, 1, rd, 0x13); assert Agree(CSlli, w, d);
      case CSrli => DecodeI(CShamt(w), short1, 5, short1, 0x13); assert Agree(CSrli, w, d);
      case CSrai => DecodeI(0x400 + CShamt(w), short1, 5, short1, 0x13); assert Agree(CSrai, w, d);
    }
  }

  lemma AccessesAgree(i: Insn, w: U32, d: Operands)
    requires IsCompressed(i) && WellBehaved(i, d) && (i.CLw? || i.CLwsp? || i.CSw? || i.CSwsp?)
    ensures Agree(i, w, d)
  {
    hide Opcode, Rd, Funct3, Rs1, Rs2, Funct7, Funct6, Shamt, ImmI, ImmS, ImmB, ImmJ, Quadrant, CFunct3, Bit12,
      Bits1110, Bits65, CRd, CRs2, CRs1Short, CRs2Short, CImm6, CImm16sp, CImm4spn, CShamt, CImmB, CImmJ, CImmLui,
      CImmLw, CImmLwsp, CImmSwsp, EncodeR, EncodeI, EncodeS, EncodeB, EncodeU, EncodeJ, Word, C, CArith, AndWord,
      OrWord, XorWord, ShiftLeft, ShiftRight, ShiftRightArith, LoadWord, StoreWord, Branch, Valid;
    AccessesValid(Expansion(i, w));
    ImmediateRanges(w);
    var rd, rs2, short1, short2 := CRd(w), CRs2(w), CRs1Short(w), CRs2Short(w);
    match i {
      case CLw => DecodeI(CImmLw(w), short1, 2, short2, 0x03); assert Agree(CLw, w, d);
      case CLwsp => DecodeI(CImmLwsp(w), 2, 2, rd, 0x03); assert Agree(CLwsp, w, d);
      case CSw => DecodeS(CImmLw(w), short2, short1, 2); assert Agree(CSw, w, d);
      case CSwsp => DecodeS(CImmSwsp(w), rs2, 2, 2); assert Agree(CSwsp, w, d);
    }
  }

  lemma BranchesAgree(i: Insn, w: U32, d: Operands)
    requires IsCompressed(i) && WellBehaved(i, d) && (i.CBeqz? || i.CBnez?)
    ensures Agree(i, w, d)
  {
    hide Opcode, Rd, Funct3, Rs1, Rs2, Funct7, Funct6, Shamt, ImmI, ImmS, ImmB, ImmJ, Quadrant, CFunct3, Bit12,
      Bits1110, Bits65, CRd, CRs2, CRs1Short, CRs2Short, CImm6, CImm16sp, CImm4spn, CShamt, CImmB, CImmJ, CImmLui,
      CImmLw, CImmLwsp, CImmSwsp, EncodeR, EncodeI, EncodeS, EncodeB, EncodeU, EncodeJ, Word, C, CArith, AndWord,
      OrWord, XorWord, ShiftLeft, ShiftRight, ShiftRightArith, LoadWord, StoreWord, Branch, Valid;
    BranchesValid(Expansion(i, w));
    ImmediateRanges(w);
    var rd, rs2, short1, short2 := CRd(w), CRs2(w), CRs1Short(w), CRs2Short(w);
    match i {
      case CBeqz => DecodeB(CImmB(w), 0, short1, 0); assert Agree(CBeqz, w, d);
      case CBnez => DecodeB(CImmB(w), 0, short1, 1); assert Agree(CBnez, w, d);
    }
  }

  lemma JumpsAgree(i: Insn, w: U32, d: Operands)
    requires IsCompressed(i) && WellBehaved(i, d) && (i.CJ? || i.CJal? || i.CJr? || i.CJalr?)
    ensures Agree(i, w, d)
  {
    hide Opcode, Rd, Funct3, Rs1, Rs2, Funct7, Funct6, Shamt, ImmI, ImmS, ImmB, ImmJ, Quadrant, CFunct3, Bit12,
      Bits1110, Bits65, CRd, CRs2, CRs1Short, CRs2Short, CImm6, CImm16sp, CImm4spn, CShamt, CImmB, CImmJ, CImmLui,
      CImmLw, CImmLwsp, CImmSwsp, EncodeR, EncodeI, EncodeS, EncodeB, EncodeU, EncodeJ, Word, C, CArith, AndWord,
      OrWord, XorWord, ShiftLeft, ShiftRight, ShiftRightArith, LoadWord, StoreWord, Branch, Valid;
    JumpsValid(Expansion(i, w));
    ImmediateRanges(w);
    JumpRange(w);
    EvenTarget(d.pc, CImmJ(w));
    WordIs(d.rs1);
    WordIs(d.rs1 - d.rs1 % 2);
    var rd, rs2, short1, short2 := CRd(w), CRs2(w), CRs1Short(w), CRs2Short(w);
    match i {
      case CJ => DecodeJ(CImmJ(w), 0); assert Agree(CJ, w, d);
      case CJal => DecodeJ(CImmJ(w), 1); assert Agree(CJal, w, d);
      case CJr => DecodeI(0, rd, 0, 0, 0x67); assert Agree(CJr, w, d);
      case CJalr => DecodeI(0, rd, 0, 1, 0x67); assert Agree(CJalr, w, d);
    }
  }

  lemma ShiftIsShort(i: Insn, w: U32)
    requires Valid(i, w) && (i.CSlli? || i.CSrli? || i.CSrai?)
    ensures CShamt(w) < 0x20
  {
    hide R, Op3, C, CArith, Opcode, Funct6, Shamt, CShamt;
  }

  lemma WordIs(x: U32)
    ensures Word(x) == x
  {
  }

  lemma EvenTarget(pc: U32, imm: int)
    ensures pc % 2 == 0 && imm % 2 == 0 ==> Word(pc + imm) % 2 == 0
    ensures Word(Word(pc + imm)) == Word(pc + imm)
  {
  }

  lemma LuiWord(x: int)
    ensures Word(x % 0x10_0000 * 0x1000) == Word(x * 0x1000)
  {
    assert x * 0x1000 == x % 0x10_0000 * 0x1000 + x / 0x10_0000 * 0x1_0000_0000;
  }

  lemma LuiAgrees(w: U32, d: Operands)
    requires Valid(CLui, w)
    ensures Agree(CLui, w, d)
  {
    hide Opcode, Rd, Funct3, Rs1, Rs2, Funct7, ImmU, Quadrant, CFunct3, CRd, CImm6, CImmLui, EncodeU, Word;
    ImmediateRanges(w);
    assert CImmLui(w) / 0x1000 == CImm6(w);
    DecodeU(CImm6(w), CRd(w));
    LuiWord(CImm6(w));
  }

  /** Of a valid compressed instruction the expansion is valid, and the modules of the two specify the
      same trap, registers, results, memory accesses and target, with 2 for 4 as the length. */
  lemma ExpansionAgrees(i: Insn, w: U32, d: Operands)
    requires IsCompressed(i) && Valid(i, w) && WellBehaved(i, d)
    ensures Valid(Base(i), Expansion(i, w))
    ensures CompressedSpec(i, w, d) == BaseSpec(Base(i), Expansion(i, w), d, 2)
  {
    hide Valid, CompressedSpec, BaseSpec, Expansion, Base, WellBehaved;
    match i {
      case CLui => LuiAgrees(w, d);
      case CAdd => RegistersAgree(i, w, d);
      case CMv => RegistersAgree(i, w, d);
      case CSub => RegistersAgree(i, w, d);
      case CAnd => RegistersAgree(i, w, d);
      case COr => RegistersAgree(i, w, d);
      case CXor => RegistersAgree(i, w, d);
      case CAddi => ImmediatesAgree(i, w, d);
      case CAddi16sp => ImmediatesAgree(i, w, d);
      case CAddi4spn => ImmediatesAgree(i, w, d);
      case CLi => ImmediatesAgree(i, w, d);
      case CAndi => ImmediatesAgree(i, w, d);
      case CSlli => ShiftIsShort(i, w); ShiftsAgree(i, w, d);
      case CSrli => ShiftIsShort(i, w); ShiftsAgree(i, w, d);
      case CSrai => ShiftIsShort(i, w); ShiftsAgree(i, w, d);
      case CLw => AccessesAgree(i, w, d);
      case CLwsp => AccessesAgree(i, w, d);
      case CSw => AccessesAgree(i, w, d);
      case CSwsp => AccessesAgree(i, w, d);
      case CBeqz => BranchesAgree(i, w, d);
      case CBnez => BranchesAgree(i, w, d);
      case CJ => JumpsAgree(i, w, d);
      case CJal => JumpsAgree(i, w, d);
      case CJr => JumpsAgree(i, w, d);
      case CJalr => JumpsAgree(i, w, d);
    }
  }
}
