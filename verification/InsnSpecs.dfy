/** The instruction modules of the RVFI monitor: the fields of a word, when each module accepts a word,
    and that no two accept the same. */
module InsnSpecs {
  import opened MachineTypes
  import opened Rvfi

  /** The modules insn_*, compressed ones with a C. */
  datatype Insn =
    | Add | Addi | And | Andi | Auipc | Beq | Bge | Bgeu | Blt | Bltu | Bne
    | CAdd | CAddi | CAddi16sp | CAddi4spn | CAnd | CAndi | CBeqz | CBnez | CJ | CJal | CJalr | CJr | CLi | CLui
    | CLw | CLwsp | CMv | COr | CSlli | CSrai | CSrli | CSub | CSw | CSwsp | CXor
    | Div | Divu | Jal | Jalr | Lb | Lbu | Lh | Lhu | Lui | Lw | Mul | Mulh | Mulhsu | Mulhu | Or | Ori | Rem | Remu
    | Sb | Sh | Sll | Slli | Slt | Slti | Sltiu | Sltu | Sra | Srai | Srl | Srli | Sub | Sw | Xor | Xori

  // ----- fields

  function Opcode(w: U32): nat { w % 0x80 }
  function Rd(w: U32): Reg { w / 0x80 % 0x20 }
  function Funct3(w: U32): nat { w / 0x1000 % 8 }
  function Rs1(w: U32): Reg { w / 0x8000 % 0x20 }
  function Rs2(w: U32): Reg { w / 0x10_0000 % 0x20 }
  function Funct7(w: U32): nat { w / 0x200_0000 }
  /** insn[31:26], insn[25:20], insn[31:20] and insn[31:12], made of these. */
  function Funct6(w: U32): nat { Funct7(w) / 2 }
  function Shamt(w: U32): nat { Funct7(w) % 2 * 0x20 + Rs2(w) }
  function Top12(w: U32): nat { Funct7(w) * 0x20 + Rs2(w) }
  function Top20(w: U32): nat { Top12(w) * 0x100 + Rs1(w) * 8 + Funct3(w) }

  type Bit = b: int | 0 <= b < 2

  /** The bit of weight power. */
  function BitAt(w: U32, power: nat): Bit
    requires power > 0
  {
    w / power % 2
  }

  /** Of the compressed formats: opcode, funct3, bit 12, bits 11:10, bits 6:5. */
  function Quadrant(w: U32): nat { w % 4 }
  function CFunct3(w: U32): nat { w / 0x2000 % 8 }
  function Bit12(w: U32): Bit { BitAt(w, 0x1000) }
  function Bits1110(w: U32): nat { w / 0x400 % 4 }
  function Bits65(w: U32): nat { w / 0x20 % 4 }
  function CRd(w: U32): Reg { w / 0x80 % 0x20 }
  function CRs2(w: U32): Reg { w / 4 % 0x20 }
  function CRs1Short(w: U32): Reg { 8 + w / 0x80 % 8 }
  function CRs2Short(w: U32): Reg { 8 + w / 4 % 8 }

  /** n bits of a two's complement number. */
  function Signed(x: nat, half: nat): int {
    if x < half then x else x - 2 * half
  }

  // ----- immediates

  function ImmI(w: U32): int { Signed(Top12(w), 0x800) }
  function ImmS(w: U32): int { Signed(Funct7(w) * 0x20 + Rd(w), 0x800) }
  /** {insn[31], insn[7], insn[30:25], insn[11:8], 1'b0} */
  function ImmB(w: U32): int {
    Signed(Funct7(w) / 0x40 * 0x1000 + Rd(w) % 2 * 0x800 + Funct7(w) % 0x40 * 0x20 + Rd(w) / 2 * 2, 0x1000)
  }
  function ImmU(w: U32): int { Top20(w) * 0x1000 }
  /** {insn[31], insn[19:12], insn[20], insn[30:21], 1'b0} */
  function ImmJ(w: U32): int {
    Signed(JumpBits(Top12(w), Rs1(w) * 8 + Funct3(w)), 0x10_0000)
  }

  /** insn[31:20] and insn[19:12] in the order of a jump. */
  function JumpBits(high: nat, low: nat): nat {
    high / 0x800 * 0x10_0000 + low * 0x1000 + high % 2 * 0x800 + high / 2 % 0x400 * 2
  }

  function CImm6(w: U32): int { Signed(Bit12(w) * 0x20 + CRs2(w), 0x20) }
  function CShamt(w: U32): nat { Bit12(w) * 0x20 + CRs2(w) }
  function CImm16sp(w: U32): int {
    Signed(Bit12(w) * 0x200 + w / 8 % 4 * 0x80 + BitAt(w, 0x20) * 0x40 + BitAt(w, 4) * 0x20
           + BitAt(w, 0x40) * 0x10, 0x200)
  }
  function CImm4spn(w: U32): nat {
    w / 0x80 % 0x10 * 0x40 + w / 0x800 % 4 * 0x10 + BitAt(w, 0x20) * 8 + BitAt(w, 0x40) * 4
  }
  function CImmB(w: U32): int {
    Signed(Bit12(w) * 0x100 + w / 0x20 % 4 * 0x40 + BitAt(w, 4) * 0x20 + w / 0x400 % 4 * 8 + w / 8 % 4 * 2, 0x100)
  }
  function CImmJ(w: U32): int {
    Signed(Bit12(w) * 0x800 + BitAt(w, 0x100) * 0x400 + BitAt(w, 0x400) * 0x200 + BitAt(w, 0x200) * 0x100
           + BitAt(w, 0x40) * 0x80 + BitAt(w, 0x80) * 0x40 + BitAt(w, 4) * 0x20 + BitAt(w, 0x800) * 0x10
           + BitAt(w, 0x20) * 8 + BitAt(w, 0x10) * 4 + BitAt(w, 8) * 2, 0x800)
  }
  function CImmLui(w: U32): int { Signed(Bit12(w) * 0x20 + CRs2(w), 0x20) * 0x1000 }
  function CImmLw(w: U32): nat { BitAt(w, 0x20) * 0x40 + w / 0x400 % 8 * 8 + BitAt(w, 0x40) * 4 }
  function CImmLwsp(w: U32): nat { w / 4 % 4 * 0x40 + Bit12(w) * 0x20 + w / 0x10 % 8 * 4 }
  function CImmSwsp(w: U32): nat { w / 0x80 % 4 * 0x40 + w / 0x200 % 0x10 * 4 }

  // ----- when a module accepts a word

  predicate R(w: U32, f7: nat, f3: nat) { Opcode(w) == 0x33 && Funct7(w) == f7 && Funct3(w) == f3 }

  predicate Op3(w: U32, opcode: nat, f3: nat) { Opcode(w) == opcode && Funct3(w) == f3 }

  /** A compressed word has nothing above bit 15. */
  predicate C(w: U32, quadrant: nat, f3: nat) { w < 0x1_0000 && Quadrant(w) == quadrant && CFunct3(w) == f3 }

  /** funct6 100011 with a funct2. */
  predicate CArith(w: U32, f2: nat) { C(w, 1, 4) && Bit12(w) == 0 && Bits1110(w) == 3 && Bits65(w) == f2 }

  predicate Valid(i: Insn, w: U32) {
    match i
    case Add => R(w, 0, 0)
    case Sub => R(w, 0x20, 0)
    case Sll => R(w, 0, 1)
    case Slt => R(w, 0, 2)
    case Sltu => R(w, 0, 3)
    case Xor => R(w, 0, 4)
    case Srl => R(w, 0, 5)
    case Sra => R(w, 0x20, 5)
    case Or => R(w, 0, 6)
    case And => R(w, 0, 7)
    case Mul => R(w, 1, 0)
    case Mulh => R(w, 1, 1)
    case Mulhsu => R(w, 1, 2)
    case Mulhu => R(w, 1, 3)
    case Div => R(w, 1, 4)
    case Divu => R(w, 1, 5)
    case Rem => R(w, 1, 6)
    case Remu => R(w, 1, 7)
    case Addi => Op3(w, 0x13, 0)
    case Slti => Op3(w, 0x13, 2)
    case Sltiu => Op3(w, 0x13, 3)
    case Xori => Op3(w, 0x13, 4)
    case Ori => Op3(w, 0x13, 6)
    case Andi => Op3(w, 0x13, 7)
    case Slli => Op3(w, 0x13, 1) && Funct6(w) == 0 && Shamt(w) < 0x20
    case Srli => Op3(w, 0x13, 5) && Funct6(w) == 0 && Shamt(w) < 0x20
    case Srai => Op3(w, 0x13, 5) && Funct6(w) == 0x10 && Shamt(w) < 0x20
    case Lb => Op3(w, 0x03, 0)
    case Lh => Op3(w, 0x03, 1)
    case Lw => Op3(w, 0x03, 2)
    case Lbu => Op3(w, 0x03, 4)
    case Lhu => Op3(w, 0x03, 5)
    case Sb => Op3(w, 0x23, 0)
    case Sh => Op3(w, 0x23, 1)
    case Sw => Op3(w, 0x23, 2)
    case Beq => Op3(w, 0x63, 0)
    case Bne => Op3(w, 0x63, 1)
    case Blt => Op3(w, 0x63, 4)
    case Bge => Op3(w, 0x63, 5)
    case Bltu => Op3(w, 0x63, 6)
    case Bgeu => Op3(w, 0x63, 7)
    case Jal => Opcode(w) == 0x6F
    case Jalr => Op3(w, 0x67, 0)
    case Lui => Opcode(w) == 0x37
    case Auipc => Opcode(w) == 0x17
    case CAddi4spn => C(w, 0, 0) && CImm4spn(w) != 0
    case CLw => C(w, 0, 2)
    case CSw => C(w, 0, 6)
    case CAddi => C(w, 1, 0)
    case CJal => C(w, 1, 1)
    case CLi => C(w, 1, 2)
    case CAddi16sp => C(w, 1, 3) && CRd(w) == 2 && CImm16sp(w) != 0
    case CLui => C(w, 1, 3) && CRd(w) != 2 && CImmLui(w) != 0
    case CSrli => C(w, 1, 4) && Bits1110(w) == 0 && CShamt(w) < 0x20
    case CSrai => C(w, 1, 4) && Bits1110(w) == 1 && CShamt(w) < 0x20
    case CAndi => C(w, 1, 4) && Bits1110(w) == 2
    case CSub => CArith(w, 0)
    case CXor => CArith(w, 1)
    case COr => CArith(w, 2)
    case CAnd => CArith(w, 3)
    case CJ => C(w, 1, 5)
    case CBeqz => C(w, 1, 6)
    case CBnez => C(w, 1, 7)
    case CSlli => C(w, 2, 0) && CShamt(w) < 0x20
    case CLwsp => C(w, 2, 2) && CRd(w) != 0
    case CJr => C(w, 2, 4) && Bit12(w) == 0 && CRd(w) != 0 && CRs2(w) == 0
    case CMv => C(w, 2, 4) && Bit12(w) == 0 && CRs2(w) != 0
    case CJalr => C(w, 2, 4) && Bit12(w) == 1 && CRd(w) != 0 && CRs2(w) == 0
    case CAdd => C(w, 2, 4) && Bit12(w) == 1 && CRs2(w) != 0
    case CSwsp => C(w, 2, 6)
  }

  predicate IsCompressed(i: Insn) {
    i.CAdd? || i.CAddi? || i.CAddi16sp? || i.CAddi4spn? || i.CAnd? || i.CAndi? || i.CBeqz? || i.CBnez? || i.CJ?
    || i.CJal? || i.CJalr? || i.CJr? || i.CLi? || i.CLui? || i.CLw? || i.CLwsp? || i.CMv? || i.COr? || i.CSlli?
    || i.CSrai? || i.CSrli? || i.CSub? || i.CSw? || i.CSwsp? || i.CXor?
  }

  lemma OpcodeHasQuadrant(w: U32)
    ensures Opcode(w) % 4 == Quadrant(w)
  {
  }

  lemma LengthBits(i: Insn, w: U32)
    requires Valid(i, w)
    ensures IsCompressed(i) <==> Quadrant(w) != 3
  {
    hide Opcode, Quadrant, CFunct3, Funct3, Funct7, Funct6, Shamt, CImm4spn, CImm16sp, CImmLui, CShamt, Bit12, Bits1110,
      Bits65, CRd, CRs2;
    OpcodeHasQuadrant(w);
  }

  /** The 32-bit instruction that a word can only be, by its fields. */
  function FullKey(w: U32): Insn {
    var f3, f7 := Funct3(w), Funct7(w);
    if Opcode(w) == 0x33 then
      if f7 == 1 then
        if f3 == 0 then Mul else if f3 == 1 then Mulh else if f3 == 2 then Mulhsu else if f3 == 3 then Mulhu
        else if f3 == 4 then Div else if f3 == 5 then Divu else if f3 == 6 then Rem else Remu
      else if f3 == 0 then (if f7 == 0 then Add else Sub)
      else if f3 == 1 then Sll else if f3 == 2 then Slt else if f3 == 3 then Sltu else if f3 == 4 then Xor
      else if f3 == 5 then (if f7 == 0 then Srl else Sra)
      else if f3 == 6 then Or else And
    else if Opcode(w) == 0x13 then
      if f3 == 0 then Addi else if f3 == 1 then Slli else if f3 == 2 then Slti else if f3 == 3 then Sltiu
      else if f3 == 4 then Xori else if f3 == 5 then (if Funct6(w) == 0 then Srli else Srai)
      else if f3 == 6 then Ori else Andi
    else if Opcode(w) == 0x03 then
      if f3 == 0 then Lb else if f3 == 1 then Lh else if f3 == 2 then Lw else if f3 == 4 then Lbu else Lhu
    else if Opcode(w) == 0x23 then (if f3 == 0 then Sb else if f3 == 1 then Sh else Sw)
    else if Opcode(w) == 0x63 then
      if f3 == 0 then Beq else if f3 == 1 then Bne else if f3 == 4 then Blt else if f3 == 5 then Bge
      else if f3 == 6 then Bltu else Bgeu
    else if Opcode(w) == 0x6F then Jal
    else if Opcode(w) == 0x67 then Jalr
    else if Opcode(w) == 0x37 then Lui
    else Auipc
  }

  /** The compressed instruction that a word can only be. */
  function CompressedKey(w: U32): Insn {
    var f3 := CFunct3(w);
    if Quadrant(w) == 0 then (if f3 == 0 then CAddi4spn else if f3 == 2 then CLw else CSw)
    else if Quadrant(w) == 1 then
      if f3 == 0 then CAddi else if f3 == 1 then CJal else if f3 == 2 then CLi
      else if f3 == 3 then (if CRd(w) == 2 then CAddi16sp else CLui)
      else if f3 == 4 then
        if Bits1110(w) == 0 then CSrli else if Bits1110(w) == 1 then CSrai else if Bits1110(w) == 2 then CAndi
        else if Bits65(w) == 0 then CSub else if Bits65(w) == 1 then CXor else if Bits65(w) == 2 then COr else CAnd
      else if f3 == 5 then CJ else if f3 == 6 then CBeqz else CBnez
    else if f3 == 0 then CSlli else if f3 == 2 then CLwsp else if f3 == 6 then CSwsp
    else if CRs2(w) == 0 then (if Bit12(w) == 0 then CJr else CJalr)
    else if Bit12(w) == 0 then CMv else CAdd
  }

  lemma FullIsKey(i: Insn, w: U32)
    requires Valid(i, w) && !IsCompressed(i)
    ensures i == FullKey(w)
  {
    hide Opcode, Quadrant, CFunct3, Funct3, Funct7, Shamt, CImm4spn, CImm16sp, CImmLui, CShamt, Bit12, Bits1110, Bits65,
      CRd, CRs2;
  }

  lemma InFirstQuadrant(i: Insn, w: U32)
    requires Valid(i, w) && IsCompressed(i) && Quadrant(w) == 0
    ensures i.CAddi4spn? || i.CLw? || i.CSw?
  {
    hide Quadrant, CFunct3, CImm4spn, CImm16sp, CImmLui, CShamt, Bit12, Bits1110, Bits65, CRd, CRs2, R, Op3, Opcode;
  }

  lemma FirstQuadrantIsKey(i: Insn, w: U32)
    requires Valid(i, w) && IsCompressed(i) && Quadrant(w) == 0
    ensures i == CompressedKey(w)
  {
    hide IsCompressed, Quadrant, CFunct3, CImm4spn, CImm16sp, CImmLui, CShamt, Bit12, Bits1110, Bits65, CRd, CRs2;
    InFirstQuadrant(i, w);
  }

  lemma InSecondQuadrant(i: Insn, w: U32)
    requires Valid(i, w) && IsCompressed(i) && Quadrant(w) == 1
    ensures i.CAddi? || i.CJal? || i.CLi? || i.CAddi16sp? || i.CLui? || i.CSrli? || i.CSrai? || i.CAndi? || i.CSub?
      || i.CXor? || i.COr? || i.CAnd? || i.CJ? || i.CBeqz? || i.CBnez?
  {
    hide Quadrant, CFunct3, CImm4spn, CImm16sp, CImmLui, CShamt, Bit12, Bits1110, Bits65, CRd, CRs2, R, Op3, Opcode;
  }

  lemma SecondQuadrantIsKey(i: Insn, w: U32)
    requires Valid(i, w) && IsCompressed(i) && Quadrant(w) == 1
    ensures i == CompressedKey(w)
  {
    hide IsCompressed, Quadrant, CFunct3, CImm4spn, CImm16sp, CImmLui, CShamt, Bit12, Bits1110, Bits65, CRd, CRs2;
    InSecondQuadrant(i, w);
  }

  lemma InThirdQuadrant(i: Insn, w: U32)
    requires Valid(i, w) && IsCompressed(i) && Quadrant(w) == 2
    ensures i.CSlli? || i.CLwsp? || i.CSwsp? || i.CJr? || i.CJalr? || i.CMv? || i.CAdd?
  {
    hide Quadrant, CFunct3, CImm4spn, CImm16sp, CImmLui, CShamt, Bit12, Bits1110, Bits65, CRd, CRs2, R, Op3, Opcode;
  }

  lemma ThirdQuadrantIsKey(i: Insn, w: U32)
    requires Valid(i, w) && IsCompressed(i) && Quadrant(w) == 2
    ensures i == CompressedKey(w)
  {
    hide IsCompressed, Quadrant, CFunct3, CImm4spn, CImm16sp, CImmLui, CShamt, Bit12, Bits1110, Bits65, CRd, CRs2;
    InThirdQuadrant(i, w);
  }

  lemma CompressedIsKey(i: Insn, w: U32)
    requires Valid(i, w) && IsCompressed(i)
    ensures i == CompressedKey(w)
  {
    hide Valid, CompressedKey, Quadrant;
    CompressedQuadrant(i, w);
    if Quadrant(w) == 0 { FirstQuadrantIsKey(i, w); }
    if Quadrant(w) == 1 { SecondQuadrantIsKey(i, w); }
    if Quadrant(w) == 2 { ThirdQuadrantIsKey(i, w); }
  }

  lemma CompressedQuadrant(i: Insn, w: U32)
    requires Valid(i, w) && IsCompressed(i)
    ensures Quadrant(w) == 0 || Quadrant(w) == 1 || Quadrant(w) == 2
  {
    hide Opcode, Quadrant, CFunct3, Funct3, Funct7, Funct6, Shamt, CImm4spn, CImm16sp, CImmLui, CShamt, Bit12, Bits1110,
      Bits65, CRd, CRs2;
  }

  /** No two modules accept the same word, so the order of the muxes of isa_spec does not matter. */
  lemma OnlyOneValid(i: Insn, j: Insn, w: U32)
    requires Valid(i, w) && Valid(j, w)
    ensures i == j
  {
    hide Valid, IsCompressed, FullKey, CompressedKey;
    LengthBits(i, w);
    LengthBits(j, w);
    if IsCompressed(i) {
      CompressedIsKey(i, w);
      CompressedIsKey(j, w);
    } else {
      FullIsKey(i, w);
      FullIsKey(j, w);
    }
  }
}
