/** Which words the instruction modules accept, told by one encoded instruction for each of them and the bits in
    which every other encoding of it is the same. */
module InsnCodes {
  import opened BitPlaces
  import opened Division
  import opened MachineTypes
  import opened InsnSpecs
  import opened InsnFormats
  import opened InsnLaws

  predicate Multiplies(i: Insn) {
    i.Mul? || i.Mulh? || i.Mulhsu? || i.Mulhu? || i.Div? || i.Divu? || i.Rem? || i.Remu?
  }

  predicate ShiftsByImmediate(i: Insn) {
    i.Slli? || i.Srli? || i.Srai?
  }

  predicate HasFunct7(i: Insn) {
    IsRegisterForm(i) || ShiftsByImmediate(i)
  }

  /** x3 from x1 and x2, as an assembler encodes it; shifts are by 4. */
  function RegisterSample(i: Insn): U32
    requires HasFunct7(i)
  {
    match i
    case Add => 0x0020_81B3
    case Sub => 0x4020_81B3
    case Sll => 0x0020_91B3
    case Slt => 0x0020_A1B3
    case Sltu => 0x0020_B1B3
    case Xor => 0x0020_C1B3
    case Srl => 0x0020_D1B3
    case Sra => 0x4020_D1B3
    case Or => 0x0020_E1B3
    case And => 0x0020_F1B3
    case Mul => 0x0220_81B3
    case Mulh => 0x0220_91B3
    case Mulhsu => 0x0220_A1B3
    case Mulhu => 0x0220_B1B3
    case Div => 0x0220_C1B3
    case Divu => 0x0220_D1B3
    case Rem => 0x0220_E1B3
    case Remu => 0x0220_F1B3
    case Slli => 0x0040_9193
    case Srli => 0x0040_D193
    case Srai => 0x4040_D193
  }

  /** The other 32-bit instructions, with small immediates. */
  function FullSample(i: Insn): U32
    requires !HasFunct7(i) && !IsCompressed(i)
  {
    match i
    case Addi => 0x0040_8193
    case Slti => 0x0040_A193
    case Sltiu => 0x0040_B193
    case Xori => 0x0040_C193
    case Ori => 0x0040_E193
    case Andi => 0x0040_F193
    case Lb => 0x0040_8183
    case Lh => 0x0040_9183
    case Lw => 0x0040_A183
    case Lbu => 0x0040_C183
    case Lhu => 0x0040_D183
    case Sb => 0x0020_8223
    case Sh => 0x0020_9223
    case Sw => 0x0020_A223
    case Beq => 0x0020_8463
    case Bne => 0x0020_9463
    case Blt => 0x0020_C463
    case Bge => 0x0020_D463
    case Bltu => 0x0020_E463
    case Bgeu => 0x0020_F463
    case Jalr => 0x0040_81E7
    case Lui => 0x0000_11B7
    case Auipc => 0x0000_1197
    case Jal => 0x0080_01EF
  }

  function ShortSample(i: Insn): U32
    requires IsCompressed(i)
  {
    match i
    case CAddi4spn => 0x0080
    case CLw => 0x4000
    case CSw => 0xC000
    case CAddi => 0x0185
    case CJal => 0x2001
    case CLi => 0x4185
    case CAddi16sp => 0x6141
    case CLui => 0x6185
    case CSrli => 0x8005
    case CSrai => 0x8405
    case CAndi => 0x8805
    case CSub => 0x8C05
    case CXor => 0x8C25
    case COr => 0x8C45
    case CAnd => 0x8C65
    case CJ => 0xA001
    case CBeqz => 0xC001
    case CBnez => 0xE001
    case CSlli => 0x0186
    case CLwsp => 0x4182
    case CJr => 0x8182
    case CMv => 0x8186
    case CJalr => 0x9182
    case CAdd => 0x9186
    case CSwsp => 0xC002
  }

  /** Two words have the same bits in this range. */
  predicate Same(w: U32, v: U32, high: nat, low: nat) {
    Bits(w, high, low) == Bits(v, high, low)
  }

  // ----- 32-bit words

  /** A word for x3 from x1, put together from its codes. */
  lemma Encoded(w: U32, f7: nat, f3: nat, opcode: nat, rs2: nat)
    requires f7 < 0x80 && f3 < 8 && opcode < 0x80 && rs2 < 0x20
    requires w == f7 * 0x200_0000 + rs2 * 0x10_0000 + 0x8000 + f3 * 0x1000 + 0x180 + opcode
    ensures Opcode(w) == opcode && Funct3(w) == f3 && Funct7(w) == f7 && Rs2(w) == rs2
  {
    var high := f7 * 0x20 + rs2;
    QuotientIs(w, 0x80, high * 0x2000 + 0x100 + f3 * 0x20 + 3, opcode);
    QuotientIs(w, 0x1000, high * 0x100 + 8 + f3, 0x180 + opcode);
    QuotientIs(high * 0x100 + 8 + f3, 8, high * 0x20 + 1, f3);
    QuotientIs(w, 0x10_0000, high, 0x8000 + f3 * 0x1000 + 0x180 + opcode);
    QuotientIs(high, 0x20, f7, rs2);
    QuotientIs(w, 0x200_0000, f7, rs2 * 0x10_0000 + 0x8000 + f3 * 0x1000 + 0x180 + opcode);
  }

  /** The codes by which the module of a register form accepts, and those of the sample. */
  lemma ProductCodes(i: Insn, w: U32) returns (f7: nat, f3: nat)
    requires Multiplies(i)
    ensures f7 < 0x80 && f3 < 8 && (Valid(i, w) <==> R(w, f7, f3))
    ensures RegisterSample(i) == f7 * 0x200_0000 + f3 * 0x1000 + 0x20_81B3
  {
    hide R, Op3, C, CArith, Opcode, Funct3, Funct6, Funct7, Shamt, Bits1110, Bit12, CRd, CRs2, CShamt, CImm4spn,
      CImm16sp, CImmLui;
    match i {
      case Mul => f7, f3 := 1, 0;
      case Mulh => f7, f3 := 1, 1;
      case Mulhsu => f7, f3 := 1, 2;
      case Mulhu => f7, f3 := 1, 3;
      case Div => f7, f3 := 1, 4;
      case Divu => f7, f3 := 1, 5;
      case Rem => f7, f3 := 1, 6;
      case Remu => f7, f3 := 1, 7;
    }
  }

  lemma SumCodes(i: Insn, w: U32) returns (f7: nat, f3: nat)
    requires IsRegisterForm(i) && !Multiplies(i)
    ensures f7 < 0x80 && f3 < 8 && (Valid(i, w) <==> R(w, f7, f3))
    ensures RegisterSample(i) == f7 * 0x200_0000 + f3 * 0x1000 + 0x20_81B3
  {
    hide R, Op3, C, CArith, Opcode, Funct3, Funct6, Funct7, Shamt, Bits1110, Bit12, CRd, CRs2, CShamt, CImm4spn,
      CImm16sp, CImmLui;
    match i {
      case Add => f7, f3 := 0, 0;
      case Sub => f7, f3 := 0x20, 0;
      case Sll => f7, f3 := 0, 1;
      case Slt => f7, f3 := 0, 2;
      case Sltu => f7, f3 := 0, 3;
      case Xor => f7, f3 := 0, 4;
      case Srl => f7, f3 := 0, 5;
      case Sra => f7, f3 := 0x20, 5;
      case Or => f7, f3 := 0, 6;
      case And => f7, f3 := 0, 7;
    }
  }

  lemma ShiftCodes(i: Insn, w: U32) returns (f7: nat, f3: nat)
    requires ShiftsByImmediate(i)
    ensures f7 < 0x80 && f3 < 8
    ensures Valid(i, w) <==> Op3(w, 0x13, f3) && Funct7(w) == f7
    ensures RegisterSample(i) == f7 * 0x200_0000 + f3 * 0x1000 + 0x40_8193
  {
    hide R, Op3, C, CArith, Opcode, Funct3, Funct7, Rs2, Bits1110, Bit12, CRd, CRs2, CShamt, CImm4spn,
      CImm16sp, CImmLui;
    match i {
      case Slli => f7, f3 := 0, 1;
      case Srli => f7, f3 := 0, 5;
      case Srai => f7, f3 := 0x20, 5;
    }
  }

  lemma FullSampleAccepted(i: Insn)
    requires !HasFunct7(i) && !IsCompressed(i)
    ensures Valid(i, FullSample(i))
  {
  }

  /** Register forms and shifts by an immediate are told by opcode, funct3 and funct7. */
  lemma RegisterWords(i: Insn, w: U32)
    requires HasFunct7(i)
    ensures var v := RegisterSample(i); Valid(i, w) <==> Same(w, v, 6, 0) && Same(w, v, 14, 12) && Same(w, v, 31, 25)
  {
    hide Bits, Opcode, Funct3, Funct7, Rd, Rs1, Rs2, RegisterSample, Valid, IsRegisterForm;
    var v := RegisterSample(i);
    Fields(w);
    Fields(v);
    if ShiftsByImmediate(i) {
      var f7, f3 := ShiftCodes(i, w);
      Encoded(v, f7, f3, 0x13, 4);
    } else if Multiplies(i) {
      var f7, f3 := ProductCodes(i, w);
      Encoded(v, f7, f3, 0x33, 2);
    } else {
      var f7, f3 := SumCodes(i, w);
      Encoded(v, f7, f3, 0x33, 2);
    }
  }

  /** lui, auipc and jal by their opcode, all others by opcode and funct3. */
  lemma FullWords(i: Insn, w: U32)
    requires !HasFunct7(i) && !IsCompressed(i)
    ensures var v := FullSample(i);
      Valid(i, w) <==> Same(w, v, 6, 0) && (i.Lui? || i.Auipc? || i.Jal? || Same(w, v, 14, 12))
  {
    hide Bits, Opcode, Funct3, Funct7, Rd, Rs1, Rs2, FullSample;
    Fields(w);
    Fields(FullSample(i));
    FullSampleAccepted(i);
  }

  // ----- compressed words

  /** A compressed word put together from its codes. */
  lemma ShortEncoded(w: U32, quadrant: nat, f3: nat, bit12: nat, rd: nat, rs2: nat)
    requires quadrant < 4 && f3 < 8 && bit12 < 2 && rd < 0x20 && rs2 < 0x20
    requires w == f3 * 0x2000 + bit12 * 0x1000 + rd * 0x80 + rs2 * 4 + quadrant
    ensures w < 0x1_0000 && Quadrant(w) == quadrant && CFunct3(w) == f3 && Bit12(w) == bit12 && CRd(w) == rd
    ensures CRs2(w) == rs2 && Bits1110(w) == rd / 8 && Bits65(w) == rs2 / 8
  {
    var high := f3 * 2 + bit12;
    QuotientIs(w, 4, high * 0x400 + rd * 0x20 + rs2, quadrant);
    QuotientIs(high * 0x400 + rd * 0x20 + rs2, 0x20, high * 0x20 + rd, rs2);
    QuotientIs(w, 0x20, high * 0x80 + rd * 4 + rs2 / 8, rs2 % 8 * 4 + quadrant);
    QuotientIs(high * 0x80 + rd * 4 + rs2 / 8, 4, high * 0x20 + rd, rs2 / 8);
    QuotientIs(w, 0x80, high * 0x20 + rd, rs2 * 4 + quadrant);
    QuotientIs(high * 0x20 + rd, 0x20, high, rd);
    QuotientIs(w, 0x400, high * 4 + rd / 8, rd % 8 * 0x80 + rs2 * 4 + quadrant);
    QuotientIs(high * 4 + rd / 8, 4, high, rd / 8);
    QuotientIs(w, 0x1000, high, rd * 0x80 + rs2 * 4 + quadrant);
    QuotientIs(high, 2, f3, bit12);
    QuotientIs(w, 0x2000, f3, bit12 * 0x1000 + rd * 0x80 + rs2 * 4 + quadrant);
  }

  /** A range is 0 when both its parts are. */
  lemma {:induction false} Parts(x: int, high: nat, mid: nat, low: nat)
    requires low <= mid + 1 && mid <= high
    ensures Bits(x, high, low) == 0 <==> Bits(x, mid, low) == 0 && Bits(x, high, mid + 1) == 0
    decreases mid + 1 - low
  {
    if low <= mid { Parts(x, high, mid, low + 1); }
  }

  lemma ScaledByTwoBits(w: U32)
    ensures Bits(w, 6, 2) == 0 <==> Bits(w, 6, 6) == Bits(w, 5, 5) == Bits(w, 4, 3) == Bits(w, 2, 2) == 0
    ensures Bits(w, 12, 5) == 0 <==> Bits(w, 12, 11) == Bits(w, 10, 7) == Bits(w, 6, 6) == Bits(w, 5, 5) == 0
  {
    hide Bits;
    Parts(w, 6, 2, 2);
    Parts(w, 6, 4, 3);
    Parts(w, 6, 5, 5);
    Parts(w, 12, 5, 5);
    Parts(w, 12, 6, 6);
    Parts(w, 12, 10, 7);
  }

  /** When the immediates are 0, and when a shift is by less than 32. */
  lemma ShortImmediates(w: U32)
    ensures CShamt(w) < 0x20 <==> Bits(w, 12, 12) == 0
    ensures CImmLui(w) != 0 <==> Bits(w, 12, 12) != 0 || Bits(w, 6, 2) != 0
    ensures CImm16sp(w) != 0 <==> Bits(w, 12, 12) != 0 || Bits(w, 6, 2) != 0
    ensures CImm4spn(w) != 0 <==> Bits(w, 12, 5) != 0
  {
    hide Bits, CShamt, CImmLui, CImm16sp, CImm4spn, BitAt;
    CompressedSixBits(w);
    CompressedStack(w);
    CompressedFields(w);
    ScaledByTwoBits(w);
    StackFits(w);
  }

  lemma StackFits(w: U32)
    ensures Bits(w, 6, 6) < 2 && Bits(w, 2, 2) < 2 && Bits(w, 5, 5) < 2 && Bits(w, 4, 3) < 4
  {
  }

  lemma ShortFacts(w: U32)
    ensures Quadrant(w) == Bits(w, 1, 0) && CFunct3(w) == Bits(w, 15, 13)
    ensures CRd(w) == Bits(w, 11, 7) && CRs2(w) == Bits(w, 6, 2)
    ensures Bits1110(w) == Bits(w, 11, 10) && Bits65(w) == Bits(w, 6, 5) && Bit12(w) == Bits(w, 12, 12)
    ensures CShamt(w) < 0x20 <==> Bits(w, 12, 12) == 0
    ensures CImmLui(w) != 0 <==> Bits(w, 12, 12) != 0 || Bits(w, 6, 2) != 0
    ensures CImm16sp(w) != 0 <==> Bits(w, 12, 12) != 0 || Bits(w, 6, 2) != 0
    ensures CImm4spn(w) != 0 <==> Bits(w, 12, 5) != 0
  {
    hide *;
    CompressedFields(w);
    ShortImmediates(w);
  }

  /** 16 bits with the quadrant and funct3 of the other word. */
  predicate SameShort(w: U32, v: U32) {
    w < 0x1_0000 && Same(w, v, 1, 0) && Same(w, v, 15, 13)
  }

  predicate IsShortLogic(i: Insn) {
    i.CSub? || i.CXor? || i.COr? || i.CAnd?
  }

  predicate IsShortMove(i: Insn) {
    i.CJr? || i.CJalr? || i.CMv? || i.CAdd?
  }

  predicate IsShortShift(i: Insn) {
    i.CSrli? || i.CSrai? || i.CAndi?
  }

  predicate HasLimits(i: Insn) {
    i.CAddi4spn? || i.CAddi16sp? || i.CLui? || i.CLwsp? || i.CSlli?
  }

  lemma LogicCodes(i: Insn, w: U32) returns (f2: nat)
    requires IsShortLogic(i)
    ensures f2 < 4 && (Valid(i, w) <==> CArith(w, f2)) && ShortSample(i) == 0x8C05 + f2 * 0x20
  {
    hide R, Op3, C, CArith, Opcode, Funct3, Funct6, Funct7, Shamt, Bits1110, Bit12, CRd, CRs2, CShamt, CImm4spn,
      CImm16sp, CImmLui;
    match i {
      case CSub => f2 := 0;
      case CXor => f2 := 1;
      case COr => f2 := 2;
      case CAnd => f2 := 3;
    }
  }

  /** The compressed logic has three more codes. */
  lemma ShortLogicWords(i: Insn, w: U32)
    requires IsShortLogic(i)
    ensures var v := ShortSample(i);
      Valid(i, w) <==> SameShort(w, v) && Same(w, v, 12, 12) && Same(w, v, 11, 10) && Same(w, v, 6, 5)
  {
    hide Bits, CShamt, CImmLui, CImm16sp, CImm4spn, Quadrant, CFunct3, Bit12, Bits1110, Bits65, CRd, CRs2, CRs1Short,
      CRs2Short, ShortSample, Valid;
    var v := ShortSample(i);
    var f2 := LogicCodes(i, w);
    ShortEncoded(v, 1, 4, 0, 24, f2 * 8 + 1);
    ShortFacts(w);
    ShortFacts(v);
  }

  lemma ShortShiftCodes(i: Insn, w: U32) returns (b: nat)
    requires IsShortShift(i)
    ensures b < 4 && ShortSample(i) == 0x8005 + b * 0x400
    ensures Valid(i, w) <==> C(w, 1, 4) && Bits1110(w) == b && (i.CAndi? || CShamt(w) < 0x20)
  {
    hide R, Op3, C, CArith, Opcode, Funct3, Funct6, Funct7, Shamt, Bits1110, Bit12, CRd, CRs2, CShamt, CImm4spn,
      CImm16sp, CImmLui;
    match i {
      case CSrli => b := 0;
      case CSrai => b := 1;
      case CAndi => b := 2;
    }
  }

  /** Shifts to the right and c.andi have a code at bits 11:10, and shifts are by less than 32. */
  lemma ShortShiftWords(i: Insn, w: U32)
    requires IsShortShift(i)
    ensures var v := ShortSample(i);
      Valid(i, w) <==> SameShort(w, v) && Same(w, v, 11, 10) && (i.CAndi? || Bits(w, 12, 12) == 0)
  {
    hide Bits, CShamt, CImmLui, CImm16sp, CImm4spn, Quadrant, CFunct3, Bit12, Bits1110, Bits65, CRd, CRs2, CRs1Short,
      CRs2Short, ShortSample, Valid;
    var v := ShortSample(i);
    var b := ShortShiftCodes(i, w);
    ShortEncoded(v, 1, 4, 0, b * 8, 1);
    ShortFacts(w);
    ShortFacts(v);
  }

  lemma MoveCodes(i: Insn, w: U32) returns (b: nat)
    requires IsShortMove(i)
    ensures b < 2 && ShortSample(i) == 0x8182 + b * 0x1000 + if i.CJr? || i.CJalr? then 0 else 4
    ensures Valid(i, w) <==>
      (C(w, 2, 4) && Bit12(w) == b && if i.CJr? || i.CJalr? then CRs2(w) == 0 != CRd(w) else CRs2(w) != 0)
  {
    hide R, Op3, C, CArith, Opcode, Funct3, Funct6, Funct7, Shamt, Bits1110, Bit12, CRd, CRs2, CShamt, CImm4spn,
      CImm16sp, CImmLui;
    match i {
      case CJr => b := 0;
      case CMv => b := 0;
      case CJalr => b := 1;
      case CAdd => b := 1;
    }
  }

  /** Jumps to a register have none at bits 6:2, copies and sums one other than x0. */
  lemma ShortMoveWords(i: Insn, w: U32)
    requires IsShortMove(i)
    ensures var v := ShortSample(i);
      var rs2, rd := Bits(w, 6, 2), Bits(w, 11, 7);
      Valid(i, w) <==>
      (SameShort(w, v) && Same(w, v, 12, 12) && if i.CJr? || i.CJalr? then rs2 == 0 != rd else rs2 != 0)
  {
    hide Bits, CShamt, CImmLui, CImm16sp, CImm4spn, Quadrant, CFunct3, Bit12, Bits1110, Bits65, CRd, CRs2, CRs1Short,
      CRs2Short, ShortSample, Valid;
    var v := ShortSample(i);
    var b := MoveCodes(i, w);
    ShortEncoded(v, 2, 4, b, 3, if i.CJr? || i.CJalr? then 0 else 1);
    ShortFacts(w);
    ShortFacts(v);
  }

  lemma LimitedCodes(i: Insn, w: U32)
    requires HasLimits(i)
    ensures i.CAddi16sp? ==>
      ShortSample(i) == 0x6141 && (Valid(i, w) <==> C(w, 1, 3) && CRd(w) == 2 && CImm16sp(w) != 0)
    ensures i.CLui? ==> ShortSample(i) == 0x6185 && (Valid(i, w) <==> C(w, 1, 3) && CRd(w) != 2 && CImmLui(w) != 0)
    ensures i.CAddi4spn? ==> ShortSample(i) == 0x80 && (Valid(i, w) <==> C(w, 0, 0) && CImm4spn(w) != 0)
    ensures i.CLwsp? ==> ShortSample(i) == 0x4182 && (Valid(i, w) <==> C(w, 2, 2) && CRd(w) != 0)
    ensures i.CSlli? ==> ShortSample(i) == 0x186 && (Valid(i, w) <==> C(w, 2, 0) && CShamt(w) < 0x20)
  {
    hide R, Op3, C, CArith, Opcode, Funct3, Funct6, Funct7, Shamt, Bits1110, Bit12, CRd, CRs2, CShamt, CImm4spn,
      CImm16sp, CImmLui;
  }

  /** c.addi16sp and c.lui divide the registers between them and want an immediate that is not 0, c.addi4spn such an
      immediate and c.lwsp such a register, and c.slli shifts by less than 32. */
  predicate FieldFits(i: Insn, w: U32) {
    var rd, imm := Bits(w, 11, 7), Bits(w, 12, 12) + Bits(w, 6, 2);
    match i
    case CAddi16sp => rd == 2 && imm != 0
    case CLui => rd != 2 && imm != 0
    case CLwsp => rd != 0
    case CSlli => Bits(w, 12, 12) == 0
    case _ => Bits(w, 12, 5) != 0
  }

  lemma LimitedWords(i: Insn, w: U32)
    requires HasLimits(i)
    ensures var v := ShortSample(i);
      Valid(i, w) <==> SameShort(w, v) && FieldFits(i, w)
  {
    hide Bits, CShamt, CImmLui, CImm16sp, CImm4spn, Quadrant, CFunct3, Bit12, Bits1110, Bits65, CRd, CRs2, CRs1Short,
      CRs2Short, ShortSample, Valid;
    var v := ShortSample(i);
    LimitedCodes(i, w);
    match i {
      case CAddi16sp => ShortEncoded(v, 1, 3, 0, 2, 16);
      case CLui => ShortEncoded(v, 1, 3, 0, 3, 1);
      case CAddi4spn => ShortEncoded(v, 0, 0, 0, 1, 0);
      case CLwsp => ShortEncoded(v, 2, 2, 0, 3, 0);
      case CSlli => ShortEncoded(v, 2, 0, 0, 3, 1);
    }
    ShortFacts(w);
    ShortFacts(v);
  }

  predicate IsPlainShort(i: Insn) {
    IsCompressed(i) && !IsShortLogic(i) && !IsShortShift(i) && !IsShortMove(i) && !HasLimits(i)
  }

  lemma PlainCodes(i: Insn, w: U32) returns (quadrant: nat, f3: nat, rd: nat, rs2: nat)
    requires IsPlainShort(i)
    ensures quadrant < 4 && f3 < 8 && rd < 0x20 && rs2 < 0x20 && (Valid(i, w) <==> C(w, quadrant, f3))
    ensures ShortSample(i) == f3 * 0x2000 + rd * 0x80 + rs2 * 4 + quadrant
  {
    hide R, Op3, C, CArith, Opcode, Funct3, Funct6, Funct7, Shamt, Bits1110, Bit12, CRd, CRs2, CShamt, CImm4spn,
      CImm16sp, CImmLui;
    match i {
      case CLw => quadrant, f3, rd, rs2 := 0, 2, 0, 0;
      case CSw => quadrant, f3, rd, rs2 := 0, 6, 0, 0;
      case CAddi => quadrant, f3, rd, rs2 := 1, 0, 3, 1;
      case CJal => quadrant, f3, rd, rs2 := 1, 1, 0, 0;
      case CLi => quadrant, f3, rd, rs2 := 1, 2, 3, 1;
      case CJ => quadrant, f3, rd, rs2 := 1, 5, 0, 0;
      case CBeqz => quadrant, f3, rd, rs2 := 1, 6, 0, 0;
      case CBnez => quadrant, f3, rd, rs2 := 1, 7, 0, 0;
      case CSwsp => quadrant, f3, rd, rs2 := 2, 6, 0, 0;
    }
  }

  /** All others are told by quadrant and funct3. */
  lemma ShortWords(i: Insn, w: U32)
    requires IsPlainShort(i)
    ensures var v := ShortSample(i);
      Valid(i, w) <==> SameShort(w, v)
  {
    hide Bits, CShamt, CImmLui, CImm16sp, CImm4spn, Quadrant, CFunct3, Bit12, Bits1110, Bits65, CRd, CRs2, CRs1Short,
      CRs2Short, ShortSample, Valid;
    var v := ShortSample(i);
    var quadrant, f3, rd, rs2 := PlainCodes(i, w);
    ShortEncoded(v, quadrant, f3, 0, rd, rs2);
    ShortFacts(w);
    ShortFacts(v);
  }
}
