/** Laws of what the 32-bit instruction modules compute: comparisons as an order, sums and differences, products
    and quotients put together again, shifts and logic by bits, and immediates by the bits of the word. */
module InsnLaws {
  import opened Bitwise
  import opened BitPlaces
  import opened Division
  import opened MachineTypes
  import opened Rvfi
  import opened InsnSpecs
  import opened CompressedSpecs
  import opened FullSpecs
  import opened MonitoredIsa

  const SIGN: int := 0x8000_0000
  const SIZE: int := 0x1_0000_0000

  /** The result that module i specifies for these register values. */
  function Value(i: Insn, d: Operands, x: U32, y: U32): U32 {
    SpecOf(i, d.(rs1 := x, rs2 := y)).rdData
  }

  /** The instruction has a result register. */
  predicate Writes(d: Operands) {
    Rd(d.insn) != 0
  }

  // ----- order

  lemma Compared(d: Operands, x: U32, y: U32)
    requires Writes(d)
    ensures Value(Slt, d, x, y) == (if SignedWord(x) < SignedWord(y) then 1 else 0)
    ensures Value(Sltu, d, x, y) == (if x < y then 1 else 0)
  {
    hide Rd, Rs1, Rs2, ImmI, ImmS, ImmB, ImmU, SignedWord, LoadPart, StorePart, Upper, Quotient, QuotientUnsigned,
      Remainder, RemainderUnsigned, Branch;
  }

  /** Below 0 are the words whose top bit is set. */
  lemma SltOfZero(d: Operands, x: U32)
    requires Writes(d)
    ensures Value(Slt, d, x, 0) == x / SIGN
  {
    hide Value;
    Compared(d, x, 0);
  }

  /** slt is a strict order in which any two words can be compared. */
  lemma SltIsOrder(d: Operands, x: U32, y: U32, z: U32)
    requires Writes(d)
    ensures Value(Slt, d, x, x) == 0
    ensures Value(Slt, d, x, y) == 1 && Value(Slt, d, y, z) == 1 ==> Value(Slt, d, x, z) == 1
    ensures x != y ==> Value(Slt, d, x, y) + Value(Slt, d, y, x) == 1
  {
    hide Value;
    Compared(d, x, x);
    Compared(d, x, y);
    Compared(d, y, x);
    Compared(d, y, z);
    Compared(d, x, z);
  }

  function Flipped(x: U32): U32 {
    if x < SIGN then x + SIGN else x - SIGN
  }

  lemma Difference(d: Operands, x: U32, y: U32)
    requires Writes(d)
    ensures Value(Sub, d, x, y) == (x - y) % SIZE && Value(Add, d, x, y) == (x + y) % SIZE
  {
    hide Rd, Rs1, Rs2, Shamt, ImmI, ImmS, ImmB, ImmU, ImmJ, LoadWord, StoreWord, Branch, AndWord, OrWord, XorWord,
      ShiftLeft, ShiftRight, ShiftRightArith;
  }

  /** sltu is the borrow of sub, and slt is sltu once the top bits are flipped. */
  lemma SltuIsBorrow(d: Operands, x: U32, y: U32)
    requires Writes(d)
    ensures x - y == Value(Sub, d, x, y) - SIZE * Value(Sltu, d, x, y)
    ensures Value(Slt, d, x, y) == Value(Sltu, d, Flipped(x), Flipped(y))
  {
    hide Value;
    Difference(d, x, y);
    Compared(d, x, y);
    Compared(d, Flipped(x), Flipped(y));
  }

  /** The branches go where the comparisons say. */
  lemma BranchesCompare(d: Operands, e: Operands)
    requires Writes(e)
    ensures var target, next := (d.pc + ImmB(d.insn)) % SIZE, (d.pc + 4) % SIZE;
      && SpecOf(Blt, d).pcWdata == (if Value(Slt, e, d.rs1, d.rs2) == 1 then target else next)
      && SpecOf(Bge, d).pcWdata == (if Value(Slt, e, d.rs1, d.rs2) == 0 then target else next)
      && SpecOf(Bltu, d).pcWdata == (if Value(Sltu, e, d.rs1, d.rs2) == 1 then target else next)
      && SpecOf(Bgeu, d).pcWdata == (if Value(Sltu, e, d.rs1, d.rs2) == 0 then target else next)
  {
    hide Value, SpecOf, ImmB, SignedWord;
    Compared(e, d.rs1, d.rs2);
    SignedBranches(d);
    UnsignedBranches(d);
  }

  lemma SignedBranches(d: Operands)
    ensures var target, next := (d.pc + ImmB(d.insn)) % SIZE, (d.pc + 4) % SIZE;
      && SpecOf(Blt, d).pcWdata == (if SignedWord(d.rs1) < SignedWord(d.rs2) then target else next)
      && SpecOf(Bge, d).pcWdata == (if SignedWord(d.rs1) < SignedWord(d.rs2) then next else target)
  {
    hide Rd, Rs1, Rs2, ImmI, ImmS, ImmB, ImmU, SignedWord, LoadPart, StorePart, Upper, Truth, Quotient,
      QuotientUnsigned, Remainder, RemainderUnsigned;
  }

  lemma UnsignedBranches(d: Operands)
    ensures var target, next := (d.pc + ImmB(d.insn)) % SIZE, (d.pc + 4) % SIZE;
      && SpecOf(Bltu, d).pcWdata == (if d.rs1 < d.rs2 then target else next)
      && SpecOf(Bgeu, d).pcWdata == (if d.rs1 < d.rs2 then next else target)
  {
    hide Rd, Rs1, Rs2, ImmI, ImmS, ImmB, ImmU, SignedWord, LoadPart, StorePart, Upper, Truth, Quotient,
      QuotientUnsigned, Remainder, RemainderUnsigned;
  }

  lemma EqualityBranches(d: Operands, e: Operands)
    requires Writes(e)
    ensures var target, next := (d.pc + ImmB(d.insn)) % SIZE, (d.pc + 4) % SIZE;
      && SpecOf(Beq, d).pcWdata == (if Value(Sub, e, d.rs1, d.rs2) == 0 then target else next)
      && SpecOf(Bne, d).pcWdata == (if Value(Sub, e, d.rs1, d.rs2) != 0 then target else next)
  {
    Difference(e, d.rs1, d.rs2);
    SameWords(d.rs1, d.rs2);
    hide Value, Rd, Rs1, Rs2, Shamt, ImmI, ImmS, ImmB, ImmU, ImmJ;
  }

  lemma SameWords(x: U32, y: U32)
    ensures (x - y) % SIZE == 0 <==> x == y
  {
  }

  // ----- sums

  /** add undoes sub, and counts up by one as words do. */
  lemma AddUndoesSub(d: Operands, x: U32, y: U32)
    requires Writes(d)
    ensures Value(Add, d, Value(Sub, d, x, y), y) == x && Value(Sub, d, Value(Add, d, x, y), y) == x
  {
    hide Value;
    Difference(d, x, y);
    Difference(d, (x - y) % SIZE, y);
    Difference(d, (x + y) % SIZE, y);
  }

  lemma AddCounts(d: Operands, x: U32, y: U32)
    requires Writes(d)
    ensures Value(Add, d, x, 0) == x && Value(Add, d, x, y) == Value(Add, d, y, x)
    ensures y < SIZE - 1 ==> Value(Add, d, x, y + 1) == (Value(Add, d, x, y) + 1) % SIZE
  {
    hide Value;
    Difference(d, x, y);
    Difference(d, y, x);
    Difference(d, x, 0);
    if y < SIZE - 1 { Difference(d, x, y + 1); }
  }

  // ----- the forms with an immediate

  lemma LogicIs(d: Operands, x: U32, y: U32)
    requires Writes(d)
    ensures Value(And, d, x, y) == AndWord(x, y) && Value(Or, d, x, y) == OrWord(x, y)
    ensures Value(Insn.Xor, d, x, y) == XorWord(x, y)
  {
    WordIs(AndWord(x, y));
    WordIs(OrWord(x, y));
    WordIs(XorWord(x, y));
    hide Rd, Rs1, Rs2, Shamt, ImmI, ImmS, ImmB, ImmU, ImmJ, AndWord, OrWord, XorWord, Word, LoadWord, StoreWord,
      Branch, ShiftLeft, ShiftRight, ShiftRightArith;
  }

  lemma BaseImmediates(d: Operands, x: U32, y: U32)
    requires Writes(d)
    ensures Value(Addi, d, x, y) == Word(x + ImmI(d.insn)) && Value(Andi, d, x, y) == AndWord(x, ImmI(d.insn))
  {
    WordIs(AndWord(x, ImmI(d.insn)));
    hide Rd, Rs1, Rs2, Shamt, ImmI, ImmS, ImmB, ImmU, ImmJ, AndWord, OrWord, XorWord, Word, LoadWord, StoreWord,
      Branch, ShiftLeft, ShiftRight, ShiftRightArith;
  }

  lemma OtherImmediates(d: Operands, x: U32, y: U32)
    requires Writes(d)
    ensures Value(Ori, d, x, y) == OrWord(x, ImmI(d.insn)) && Value(Xori, d, x, y) == XorWord(x, ImmI(d.insn))
  {
    WordIs(OrWord(x, ImmI(d.insn)));
    WordIs(XorWord(x, ImmI(d.insn)));
    hide Rd, Rs1, Rs2, ImmI, ImmS, ImmB, ImmU, OrWord, XorWord, Word, SignedWord, LoadPart, StorePart, Upper, Truth,
      Quotient, QuotientUnsigned, Remainder, RemainderUnsigned, Branch;
  }

  lemma ComparedImmediates(d: Operands, x: U32, y: U32)
    requires Writes(d)
    ensures Value(Slti, d, x, y) == (if SignedWord(x) < ImmI(d.insn) then 1 else 0)
    ensures Value(Sltiu, d, x, y) == (if x < Word(ImmI(d.insn)) then 1 else 0)
  {
    hide Rd, Rs1, Rs2, ImmI, ImmS, ImmB, ImmU, SignedWord, LoadPart, StorePart, Upper, Quotient, QuotientUnsigned,
      Remainder, RemainderUnsigned, Branch;
  }

  lemma ImmediateFits(w: U32)
    ensures -0x800 <= ImmI(w) < 0x800
    ensures SignedWord(Word(ImmI(w))) == ImmI(w)
  {
  }

  lemma WordTwice(x: U32, imm: int)
    ensures Word(x + imm) == Word(x + Word(imm)) && Word(Word(imm)) == Word(imm)
    ensures AndWord(x, imm) == AndWord(x, Word(imm)) && OrWord(x, imm) == OrWord(x, Word(imm))
    ensures XorWord(x, imm) == XorWord(x, Word(imm))
  {
    hide AndBits, OrBits, Bitwise.Xor;
  }

  /** Each immediate form is its register form on the immediate. */
  lemma ImmediateForms(d: Operands, e: Operands, x: U32, y: U32)
    requires Writes(d) && Writes(e)
    ensures var imm := ImmI(d.insn) % SIZE;
      && Value(Addi, d, x, y) == Value(Add, e, x, imm)
      && Value(Andi, d, x, y) == Value(And, e, x, imm)
      && Value(Ori, d, x, y) == Value(Or, e, x, imm)
      && Value(Xori, d, x, y) == Value(Insn.Xor, e, x, imm)
      && Value(Slti, d, x, y) == Value(Slt, e, x, imm)
      && Value(Sltiu, d, x, y) == Value(Sltu, e, x, imm)
  {
    hide Value, ImmI, AndWord, OrWord, XorWord, SignedWord;
    var imm := Word(ImmI(d.insn));
    BaseImmediates(d, x, y);
    OtherImmediates(d, x, y);
    ComparedImmediates(d, x, y);
    ImmediateFits(d.insn);
    WordTwice(x, ImmI(d.insn));
    Difference(e, x, imm);
    LogicIs(e, x, imm);
    Compared(e, x, imm);
  }

  lemma LeftShiftIs(d: Operands, x: U32, y: U32)
    requires Writes(d)
    ensures Value(Sll, d, x, y) == ShiftLeft(x, y % 0x20)
  {
    WordIs(ShiftLeft(x, y % 0x20));
    hide Rd, Rs1, Rs2, ImmI, ImmS, ImmB, ImmU, ShiftLeft, ShiftRight, ShiftRightArith, Word, SignedWord, LoadPart,
      StorePart, Upper, Truth, Quotient, QuotientUnsigned, Remainder, RemainderUnsigned, Branch;
  }

  lemma RightShiftIs(d: Operands, x: U32, y: U32)
    requires Writes(d)
    ensures Value(Srl, d, x, y) == ShiftRight(x, y % 0x20)
  {
    WordIs(ShiftRight(x, y % 0x20));
    hide Rd, Rs1, Rs2, ImmI, ImmS, ImmB, ImmU, ShiftLeft, ShiftRight, ShiftRightArith, Word, SignedWord, LoadPart,
      StorePart, Upper, Truth, Quotient, QuotientUnsigned, Remainder, RemainderUnsigned, Branch;
  }

  lemma SignedShiftIs(d: Operands, x: U32, y: U32)
    requires Writes(d)
    ensures Value(Sra, d, x, y) == ShiftRightArith(x, y % 0x20)
  {
    WordIs(ShiftRightArith(x, y % 0x20));
    hide Rd, Rs1, Rs2, ImmI, ImmS, ImmB, ImmU, ShiftLeft, ShiftRight, ShiftRightArith, Word, SignedWord, LoadPart,
      StorePart, Upper, Truth, Quotient, QuotientUnsigned, Remainder, RemainderUnsigned, Branch;
  }

  lemma ShiftImmediatesAre(d: Operands, x: U32, y: U32)
    requires Writes(d)
    ensures Value(Slli, d, x, y) == ShiftLeft(x, Shamt(d.insn)) && Value(Srli, d, x, y) == ShiftRight(x, Shamt(d.insn))
    ensures Value(Srai, d, x, y) == ShiftRightArith(x, Shamt(d.insn))
  {
    WordIs(ShiftLeft(x, Shamt(d.insn)));
    WordIs(ShiftRight(x, Shamt(d.insn)));
    WordIs(ShiftRightArith(x, Shamt(d.insn)));
    hide Rd, Rs1, Rs2, Shamt, ImmI, ImmS, ImmB, ImmU, ImmJ, ShiftLeft, ShiftRight, ShiftRightArith, Word, LoadWord,
      StoreWord, Branch, AndWord, OrWord, XorWord;
  }

  /** And the shifts by an immediate are the shifts by that many places. */
  lemma ImmediateShifts(d: Operands, e: Operands, x: U32, y: U32)
    requires Writes(d) && Writes(e) && Shamt(d.insn) < 0x20
    ensures Value(Slli, d, x, y) == Value(Sll, e, x, Shamt(d.insn))
    ensures Value(Srli, d, x, y) == Value(Srl, e, x, Shamt(d.insn))
    ensures Value(Srai, d, x, y) == Value(Sra, e, x, Shamt(d.insn))
  {
    hide Value, Shamt, ShiftLeft, ShiftRight, ShiftRightArith;
    LeftShiftIs(e, x, Shamt(d.insn));
    RightShiftIs(e, x, Shamt(d.insn));
    SignedShiftIs(e, x, Shamt(d.insn));
    ShiftImmediatesAre(d, x, y);
  }

  // ----- products and quotients

  lemma ProductsAre(d: Operands, x: U32, y: U32)
    requires Writes(d)
    ensures Value(Mul, d, x, y) == Word(x * y) && Value(Mulhu, d, x, y) == Upper(x * y)
  {
    WordIs(Upper(x * y));
    hide Rd, Rs1, Rs2, ImmI, ImmS, ImmB, ImmU, Word, SignedWord, Upper, LoadPart, StorePart, Truth, Quotient,
      QuotientUnsigned, Remainder, RemainderUnsigned, Branch;
  }

  lemma SignedProductsAre(d: Operands, x: U32, y: U32)
    requires Writes(d)
    ensures Value(Mulh, d, x, y) == Upper(SignedWord(x) * SignedWord(y))
    ensures Value(Mulhsu, d, x, y) == Upper(SignedWord(x) * y)
  {
    WordIs(Upper(SignedWord(x) * SignedWord(y)));
    WordIs(Upper(SignedWord(x) * y));
    hide Rd, Rs1, Rs2, ImmI, ImmS, ImmB, ImmU, Word, SignedWord, Upper, LoadPart, StorePart, Truth, Quotient,
      QuotientUnsigned, Remainder, RemainderUnsigned, Branch;
  }

  lemma SizeOfSigned(x: int, y: int)
    requires -SIGN <= x < SIGN && -SIGN <= y <= SIZE
    ensures -SIGN * SIZE <= x * y < SIGN * SIZE
  {
    assert x * y <= SIGN * SIZE - 1 by {
      if y >= 0 { Grow(y, x, SIGN - 1); } else { Grow(-y, -SIGN, x); }
    }
    if y >= 0 { Grow(y, -SIGN, x); } else { Grow(-y, x, SIGN); }
  }

  lemma Grow(a: int, x: int, y: int)
    requires a >= 0 && x <= y
    ensures a * x <= a * y
  {
    assert a * (y - x) >= 0;
  }

  /** The words of a 64-bit number, the upper read without and with sign. */
  lemma WordsOf(p: int)
    ensures 0 <= p < SIZE * SIZE ==> Upper(p) * SIZE + Word(p) == p
    ensures -SIGN * SIZE <= p < SIGN * SIZE ==> SignedWord(Upper(p)) * SIZE + Word(p) == p
  {
    var h, l := p / SIZE, p % SIZE;
    if 0 <= p < SIZE * SIZE {
      QuotientIs(p, SIZE * SIZE, 0, p);
    } else if -SIGN * SIZE <= p < 0 {
      QuotientIs(p, SIZE * SIZE, -1, p + SIZE * SIZE);
      QuotientIs(p + SIZE * SIZE, SIZE, h + SIZE, l);
    }
  }

  lemma SameLowWord(x: U32, y: U32)
    ensures Word(SignedWord(x) * SignedWord(y)) == Word(x * y) == Word(SignedWord(x) * y)
  {
    var a, b := SignedWord(x), SignedWord(y);
    var j, k := (x - a) / SIZE, (y - b) / SIZE;
    assert x == a + SIZE * j && y == b + SIZE * k;
    assert a * y == a * b + SIZE * (a * k);
    assert x * y == a * y + SIZE * (j * y);
    QuotientIs(a * y, SIZE, a * b / SIZE + a * k, a * b % SIZE);
    QuotientIs(x * y, SIZE, a * y / SIZE + j * y, a * y % SIZE);
  }

  /** The upper and the lower word of a product are the whole product, of the operands as each instruction
      reads them. */
  lemma ProductsAreWhole(d: Operands, x: U32, y: U32)
    requires Writes(d)
    ensures Value(Mulhu, d, x, y) * SIZE + Value(Mul, d, x, y) == x * y
    ensures SignedWord(Value(Mulh, d, x, y)) * SIZE + Value(Mul, d, x, y) == SignedWord(x) * SignedWord(y)
    ensures SignedWord(Value(Mulhsu, d, x, y)) * SIZE + Value(Mul, d, x, y) == SignedWord(x) * y
  {
    hide Value, Upper, Word;
    ProductsAre(d, x, y);
    SignedProductsAre(d, x, y);
    SameLowWord(x, y);
    SizeOfUnsigned(x, y);
    SizeOfSigned(SignedWord(x), SignedWord(y));
    SizeOfSigned(SignedWord(x), y);
    hide SignedWord;
    WordsOf(x * y);
    WordsOf(SignedWord(x) * SignedWord(y));
    WordsOf(SignedWord(x) * y);
  }

  lemma SizeOfUnsigned(x: U32, y: U32)
    ensures 0 <= x * y < SIZE * SIZE
  {
    Grow(x, y, SIZE - 1);
    Grow(SIZE - 1, x, SIZE - 1);
    Grow(x, 0, y);
  }

  lemma QuotientsAre(d: Operands, x: U32, y: U32)
    requires Writes(d)
    ensures Value(Divu, d, x, y) == QuotientUnsigned(x, y) && Value(Remu, d, x, y) == RemainderUnsigned(x, y)
  {
    WordIs(QuotientUnsigned(x, y));
    WordIs(RemainderUnsigned(x, y));
    hide Rd, Rs1, Rs2, ImmI, ImmS, ImmB, ImmU, Word, SignedWord, Upper, LoadPart, StorePart, Truth, Quotient,
      QuotientUnsigned, Remainder, RemainderUnsigned, Branch;
  }

  /** Quotient and remainder are the dividend, the remainder below the divisor; a division by 0 gives all ones
      and leaves the dividend. */
  lemma QuotientsAreWhole(d: Operands, x: U32, y: U32)
    requires Writes(d)
    ensures y != 0 ==> Value(Divu, d, x, y) * y + Value(Remu, d, x, y) == x && Value(Remu, d, x, y) < y
    ensures y == 0 ==> Value(Divu, d, x, y) == SIZE - 1 && Value(Remu, d, x, y) == x
  {
    hide Value, WholePart, Rest;
    QuotientsAre(d, x, y);
    if y != 0 { Together(x, y); }
  }

  // ----- bits

  lemma BitOfWord(x: int, k: nat)
    requires k < 32
    ensures BitIn(Word(x), k) == BitIn(x, k)
  {
    Powers();
    hide BitIn, Pow2;
    BitOfRest(x, 32, k);
  }

  /** A word read with its sign has the sign bit at all higher places. */
  lemma BitOfSigned(x: U32, k: nat)
    ensures BitIn(SignedWord(x), k) == BitIn(x, if k < 32 then k else 31)
  {
    Powers();
    if k < 32 {
      hide BitIn, Pow2;
      SignedIsSame(x);
      BitOfRest(SignedWord(x), 32, k);
    } else {
      TopBit(x);
      PowerGrows(k);
      hide Pow2;
      if x < SIGN {
        QuotientIs(SignedWord(x), Pow2(k), 0, x);
      } else {
        QuotientIs(SignedWord(x), Pow2(k), -1, SignedWord(x) + Pow2(k));
      }
    }
  }

  lemma SignedIsSame(x: U32)
    ensures SignedWord(x) % SIZE == x
  {
  }

  lemma TopBit(x: U32)
    ensures BitIn(x, 31) == if x < SIGN then 0 else 1
  {
    Powers();
    hide Pow2;
  }

  lemma {:induction false} PowerGrows(k: nat)
    requires k >= 32
    ensures Pow2(k) >= SIZE
    decreases k
  {
    if k == 32 { Powers(); } else { PowerGrows(k - 1); }
  }

  /** Place by place: the shifts move bits by the low five bits of the second operand, and fill in 0, or for sra
      the sign. */
  lemma ShiftsByBits(d: Operands, x: U32, y: U32, k: nat)
    requires Writes(d) && k < 32
    ensures var s := y % 0x20;
      && BitIn(Value(Sll, d, x, y), k) == (if k >= s then BitIn(x, k - s) else 0)
      && BitIn(Value(Srl, d, x, y), k) == (if k + s < 32 then BitIn(x, k + s) else 0)
      && BitIn(Value(Sra, d, x, y), k) == BitIn(x, if k + s < 32 then k + s else 31)
  {
    hide Value, BitIn, Word, SignedWord, Pow2;
    var s := y % 0x20;
    LeftShiftIs(d, x, y);
    RightShiftIs(d, x, y);
    SignedShiftIs(d, x, y);
    BitOfWord(x * Pow2(s), k);
    BitOfWord(x / Pow2(s), k);
    BitOfWord(SignedWord(x) / Pow2(s), k);
    BitOfMultiple(x, s, k);
    BitOfShifted(x, s, k);
    BitOfShifted(SignedWord(x), s, k);
    BitOfSigned(x, s + k);
    if s + k >= 32 { NoBitsAbove(x, s + k); }
  }

  lemma NoBitsAbove(x: U32, k: nat)
    requires k >= 32
    ensures BitIn(x, k) == 0
  {
    PowerGrows(k);
    hide Pow2;
    QuotientIs(x, Pow2(k), 0, x);
  }

  lemma {:induction false} BitOfAnd(a: nat, b: nat, n: nat, k: nat)
    requires k < n
    ensures BitIn(AndBits(a, b, n), k) == BitIn(a, k) * BitIn(b, k)
    decreases n
  {
    hide BitIn;
    BitOfHalf(a, if k > 0 then k - 1 else 0);
    BitOfHalf(b, if k > 0 then k - 1 else 0);
    BitOfHalf(AndBits(a, b, n), if k > 0 then k - 1 else 0);
    AndHalves(a, b, n);
    hide AndBits;
    if k > 0 { BitOfAnd(a / 2, b / 2, n - 1, k - 1); }
  }

  lemma AndHalves(a: nat, b: nat, n: nat)
    requires n > 0
    ensures AndBits(a, b, n) % 2 == a % 2 * (b % 2) && AndBits(a, b, n) / 2 == AndBits(a / 2, b / 2, n - 1)
  {
    assert a % 2 * (b % 2) == if a % 2 == 0 then 0 else b % 2;
  }

  lemma {:induction false} BitOfOr(a: nat, b: nat, n: nat, k: nat)
    requires k < n
    ensures BitIn(OrBits(a, b, n), k) == if BitIn(a, k) + BitIn(b, k) > 0 then 1 else 0
    decreases n
  {
    hide BitIn;
    BitOfHalf(a, if k > 0 then k - 1 else 0);
    BitOfHalf(b, if k > 0 then k - 1 else 0);
    BitOfHalf(OrBits(a, b, n), if k > 0 then k - 1 else 0);
    OrHalves(a, b, n);
    hide OrBits;
    if k > 0 { BitOfOr(a / 2, b / 2, n - 1, k - 1); }
  }

  lemma OrHalves(a: nat, b: nat, n: nat)
    requires n > 0
    ensures OrBits(a, b, n) % 2 == (if a % 2 + b % 2 > 0 then 1 else 0)
    ensures OrBits(a, b, n) / 2 == OrBits(a / 2, b / 2, n - 1)
  {
  }

  /** and, or and xor, place by place. */
  lemma LogicByBits(d: Operands, x: U32, y: U32, k: nat)
    requires Writes(d) && k < 32
    ensures BitIn(Value(And, d, x, y), k) == BitIn(x, k) * BitIn(y, k)
    ensures BitIn(Value(Or, d, x, y), k) == (if BitIn(x, k) + BitIn(y, k) > 0 then 1 else 0)
    ensures BitIn(Value(Insn.Xor, d, x, y), k) == (BitIn(x, k) + BitIn(y, k)) % 2
  {
    WordIs(y);
    hide Value, BitIn, Word, AndBits, OrBits, Bitwise.Xor;
    LogicIs(d, x, y);
    BitOfWord(AndBits(x, y, 32), k);
    BitOfWord(OrBits(x, y, 32), k);
    BitOfWord(Bitwise.Xor(x, y, 32), k);
    BitOfAnd(x, y, 32, k);
    BitOfOr(x, y, 32, k);
    BitOfXor(x, y, 32, k);
  }

  // ----- jumps, upper immediates and addresses

  /** lui gives the upper 20 bits of the word, auipc the pc plus that, and the jumps link to the word behind. */
  lemma UpperImmediates(d: Operands, e: Operands)
    requires Writes(d) && Writes(e)
    ensures SpecOf(Lui, d).rdData == ImmU(d.insn)
    ensures SpecOf(Auipc, d).rdData == Value(Add, e, d.pc, SpecOf(Lui, d).rdData)
  {
    hide Value, SpecOf, ImmU;
    LuiIs(d);
    AuipcIs(d);
    Difference(e, d.pc, ImmU(d.insn));
  }

  lemma LuiIs(d: Operands)
    requires Writes(d)
    ensures SpecOf(Lui, d).rdData == ImmU(d.insn) < SIZE
  {
    UpperFits(d.insn);
    hide Rd, Rs1, Rs2, Shamt, ImmI, ImmS, ImmB, ImmU, ImmJ, LoadWord, StoreWord, Branch, AndWord, OrWord, XorWord,
      ShiftLeft, ShiftRight, ShiftRightArith;
  }

  lemma UpperFits(w: U32)
    ensures 0 <= ImmU(w) < SIZE
  {
  }

  lemma AuipcIs(d: Operands)
    requires Writes(d)
    ensures SpecOf(Auipc, d).rdData == (d.pc + ImmU(d.insn)) % SIZE
  {
    hide Rd, Rs1, Rs2, ImmI, ImmS, ImmB, ImmU, LoadPart, StorePart, Upper, Truth, Quotient, QuotientUnsigned, Remainder,
      RemainderUnsigned, Branch, SignedWord;
  }

  lemma JumpsLink(d: Operands, e: Operands)
    requires Writes(d) && Writes(e)
    ensures SpecOf(Jal, d).rdData == SpecOf(Jalr, d).rdData == Value(Add, e, d.pc, 4)
    ensures SpecOf(Jal, d).pcWdata == Value(Add, e, d.pc, ImmJ(d.insn) % SIZE)
    ensures var target := Value(Add, e, d.rs1, ImmI(d.insn) % SIZE);
      SpecOf(Jalr, d).pcWdata == target - target % 2
  {
    hide Value, SpecOf, ImmJ, ImmI;
    JumpsAre(d);
    Difference(e, d.pc, 4);
    Difference(e, d.pc, ImmJ(d.insn) % SIZE);
    Difference(e, d.rs1, ImmI(d.insn) % SIZE);
    SameSums(d.pc, ImmJ(d.insn));
    SameSums(d.rs1, ImmI(d.insn));
  }

  lemma SameSums(x: U32, imm: int)
    ensures (x + imm % SIZE) % SIZE == (x + imm) % SIZE
  {
  }

  lemma JumpsAre(d: Operands)
    requires Writes(d)
    ensures SpecOf(Jal, d).rdData == SpecOf(Jalr, d).rdData == (d.pc + 4) % SIZE
    ensures SpecOf(Jal, d).pcWdata == (d.pc + ImmJ(d.insn)) % SIZE
    ensures var target := (d.rs1 + ImmI(d.insn)) % SIZE; SpecOf(Jalr, d).pcWdata == target - target % 2
  {
    hide Rd, Rs1, Rs2, Shamt, ImmI, ImmS, ImmB, ImmU, ImmJ, LoadWord, StoreWord, Branch, AndWord, OrWord, XorWord,
      ShiftLeft, ShiftRight, ShiftRightArith;
  }

  predicate IsLoad(i: Insn) {
    i.Lb? || i.Lbu? || i.Lh? || i.Lhu? || i.Lw?
  }

  predicate IsStore(i: Insn) {
    i.Sb? || i.Sh? || i.Sw?
  }

  /** Accesses are to the word that holds the sum of the first operand and the immediate. */
  lemma AccessAddresses(i: Insn, d: Operands, e: Operands)
    requires (IsLoad(i) || IsStore(i)) && Writes(e)
    ensures var addr := Value(Add, e, d.rs1, (if IsLoad(i) then ImmI(d.insn) else ImmS(d.insn)) % SIZE);
      SpecOf(i, d).memAddr % 4 == 0 && SpecOf(i, d).memAddr <= addr < SpecOf(i, d).memAddr + 4
  {
    hide Value, SpecOf, ImmI, ImmS;
    if i.Lw? || i.Sw? {
      WordAddresses(i, d);
    } else if IsLoad(i) {
      PartLoads(i, d);
    } else {
      PartStores(i, d);
    }
    var imm := if IsLoad(i) then ImmI(d.insn) else ImmS(d.insn);
    SameSums(d.rs1, imm);
    Difference(e, d.rs1, imm % SIZE);
  }

  lemma WordAddresses(i: Insn, d: Operands)
    requires i.Lw? || i.Sw?
    ensures var addr := (d.rs1 + if IsLoad(i) then ImmI(d.insn) else ImmS(d.insn)) % SIZE;
      SpecOf(i, d).memAddr == addr - addr % 4
  {
    hide Rd, Rs1, Rs2, Shamt, ImmI, ImmS, ImmB, ImmU, ImmJ, Branch, AndWord, OrWord, XorWord, ShiftLeft, ShiftRight,
      ShiftRightArith, WordMask;
  }

  lemma PartLoads(i: Insn, d: Operands)
    requires i.Lb? || i.Lbu? || i.Lh? || i.Lhu?
    ensures var addr := (d.rs1 + ImmI(d.insn)) % SIZE; SpecOf(i, d).memAddr == addr - addr % 4
  {
    hide Rd, Rs1, Rs2, ImmI, ImmS, ImmB, ImmU, Upper, Truth, Quotient, QuotientUnsigned, Remainder, RemainderUnsigned,
      Branch, SignedWord, Part, PartMask, ShiftLeft, ShiftRight, ShiftRightArith, OrWord, XorWord;
  }

  lemma PartStores(i: Insn, d: Operands)
    requires i.Sb? || i.Sh?
    ensures var addr := (d.rs1 + ImmS(d.insn)) % SIZE; SpecOf(i, d).memAddr == addr - addr % 4
  {
    hide Rd, Rs1, Rs2, ImmI, ImmS, ImmB, ImmU, Upper, Truth, Quotient, QuotientUnsigned, Remainder, RemainderUnsigned,
      Branch, SignedWord, Part, PartMask, ShiftLeft, ShiftRight, ShiftRightArith, OrWord, XorWord;
  }

  predicate Jumps(i: Insn) {
    i.Beq? || i.Bne? || i.Blt? || i.Bge? || i.Bltu? || i.Bgeu? || i.Jal? || i.Jalr?
  }

  /** All other instructions are followed by the next word. */
  lemma NextWord(i: Insn, d: Operands)
    requires !IsCompressed(i) && !Jumps(i)
    ensures SpecOf(i, d).pcWdata == (d.pc + 4) % SIZE
  {
    if IsBase(i) { BaseNext(i, d); } else { OtherNext(i, d); }
    hide BaseSpec, OtherSpec, IsBase, IsCompressed;
  }

  lemma BaseNext(i: Insn, d: Operands)
    requires IsBase(i) && !Jumps(i)
    ensures BaseSpec(i, d.insn, d, 4).pcWdata == (d.pc + 4) % SIZE
  {
    hide Rd, Rs1, Rs2, Shamt, ImmI, ImmS, ImmB, ImmU, ImmJ, Branch, AndWord, OrWord, XorWord, ShiftLeft, ShiftRight,
      ShiftRightArith, WordMask, Aligned;
  }

  lemma OtherNext(i: Insn, d: Operands)
    requires !IsCompressed(i) && !IsBase(i) && !Jumps(i)
    ensures OtherSpec(i, d.insn, d).pcWdata == (d.pc + 4) % SIZE
  {
    hide Rd, Rs1, Rs2, ImmI, ImmS, ImmB, ImmU, Upper, Truth, Quotient, QuotientUnsigned, Remainder, RemainderUnsigned,
      Branch, SignedWord, Part, PartMask, ShiftLeft, ShiftRight, ShiftRightArith, OrWord, XorWord, Aligned;
  }

  // ----- registers

  predicate IsBranch(i: Insn) {
    i.Beq? || i.Bne? || i.Blt? || i.Bge? || i.Bltu? || i.Bgeu?
  }

  /** The instructions of two source registers. */
  predicate IsRegisterForm(i: Insn) {
    i.Add? || i.Sub? || i.Sll? || i.Slt? || i.Sltu? || i.Xor? || i.Srl? || i.Sra? || i.Or? || i.And?
    || i.Mul? || i.Mulh? || i.Mulhsu? || i.Mulhu? || i.Div? || i.Divu? || i.Rem? || i.Remu?
  }

  ghost predicate RegistersOf(i: Insn, w: U32, s: Spec) {
    && s.rdAddr == (if IsStore(i) || IsBranch(i) then 0 else Rd(w))
    && s.rs1Addr == (if i.Lui? || i.Auipc? || i.Jal? then 0 else Rs1(w))
    && s.rs2Addr == (if IsRegisterForm(i) || IsStore(i) || IsBranch(i) then Rs2(w) else 0)
  }

  /** Which registers a 32-bit instruction names. */
  lemma RegistersNamed(i: Insn, d: Operands)
    requires !IsCompressed(i)
    ensures RegistersOf(i, d.insn, SpecOf(i, d))
  {
    hide BaseSpec, OtherSpec, IsBase, IsCompressed, RegistersOf;
    if IsBase(i) { BaseRegisters(i, d); } else { OtherRegisters(i, d); }
  }

  lemma BaseRegisters(i: Insn, d: Operands)
    requires IsBase(i)
    ensures RegistersOf(i, d.insn, BaseSpec(i, d.insn, d, 4))
  {
    hide Rd, Rs1, Rs2, Shamt, ImmI, ImmS, ImmB, ImmU, ImmJ, AndWord, OrWord, XorWord, ShiftLeft, ShiftRight,
      ShiftRightArith, WordMask, Aligned, Word;
  }

  lemma OtherRegisters(i: Insn, d: Operands)
    requires !IsCompressed(i) && !IsBase(i)
    ensures RegistersOf(i, d.insn, OtherSpec(i, d.insn, d))
  {
    hide Rd, Rs1, Rs2, ImmI, ImmS, ImmB, ImmU, Upper, Truth, Quotient, QuotientUnsigned, Remainder, RemainderUnsigned,
      SignedWord, Part, PartMask, ShiftLeft, ShiftRight, ShiftRightArith, OrWord, XorWord, Aligned, Word;
  }

  // ----- compressed instructions

  lemma CompressedResults(d: Operands)
    ensures SpecOf(CSub, d).rdData == Word(d.rs1 - d.rs2)
    ensures SpecOf(CAnd, d).rdData == AndWord(d.rs1, d.rs2)
    ensures SpecOf(COr, d).rdData == OrWord(d.rs1, d.rs2)
    ensures SpecOf(CXor, d).rdData == XorWord(d.rs1, d.rs2)
  {
    WordIs(AndWord(d.rs1, d.rs2));
    WordIs(OrWord(d.rs1, d.rs2));
    WordIs(XorWord(d.rs1, d.rs2));
    hide CRd, CRs2, CImm6, CImm16sp, CImm4spn, CShamt, CImmB, CImmJ, CImmLui, CImmLw, CImmLwsp, CImmSwsp, AndWord,
      OrWord, XorWord, ShiftLeft, ShiftRight, ShiftRightArith, Word, LoadWord, StoreWord, Branch;
  }

  /** The compressed logic on short registers. */
  lemma CompressedLogic(d: Operands, e: Operands)
    requires Writes(e)
    ensures SpecOf(CSub, d).rdData == Value(Sub, e, d.rs1, d.rs2)
    ensures SpecOf(CAnd, d).rdData == Value(And, e, d.rs1, d.rs2)
    ensures SpecOf(COr, d).rdData == Value(Or, e, d.rs1, d.rs2)
    ensures SpecOf(CXor, d).rdData == Value(Insn.Xor, e, d.rs1, d.rs2)
  {
    hide Value, SpecOf, AndWord, OrWord, XorWord;
    CompressedResults(d);
    Difference(e, d.rs1, d.rs2);
    LogicIs(e, d.rs1, d.rs2);
  }

  lemma CompressedSumResults(d: Operands)
    requires CRd(d.insn) != 0
    ensures SpecOf(CAdd, d).rdData == (d.rs1 + d.rs2) % SIZE && SpecOf(CMv, d).rdData == d.rs2
    ensures SpecOf(CAddi, d).rdData == (d.rs1 + CImm6(d.insn)) % SIZE
    ensures SpecOf(CLi, d).rdData == CImm6(d.insn) % SIZE && SpecOf(CLui, d).rdData == CImmLui(d.insn) % SIZE
  {
    hide CRd, CRs2, CRs1Short, CRs2Short, CImm6, CImm16sp, CImm4spn, CShamt, CImmB, CImmJ, CImmLui, CImmLw, CImmLwsp,
      CImmSwsp, AndWord, OrWord, XorWord, ShiftLeft, ShiftRight, ShiftRightArith, LoadWord, StoreWord, Branch;
  }

  lemma CompressedStackResults(d: Operands)
    ensures CRd(d.insn) != 0 ==> SpecOf(CAddi16sp, d).rdData == (d.rs1 + CImm16sp(d.insn)) % SIZE
    ensures SpecOf(CAddi4spn, d).rdData == (d.rs1 + CImm4spn(d.insn)) % SIZE
    ensures SpecOf(CAndi, d).rdData == AndWord(d.rs1, CImm6(d.insn))
  {
    WordIs(AndWord(d.rs1, CImm6(d.insn)));
    hide CRd, CRs2, CImm6, CImm16sp, CImm4spn, CShamt, CImmB, CImmJ, CImmLui, CImmLw, CImmLwsp, CImmSwsp, AndWord,
      OrWord, XorWord, ShiftLeft, ShiftRight, ShiftRightArith, LoadWord, StoreWord, Branch;
  }

  /** The compressed sums and copies, of registers and of immediates. */
  lemma CompressedSums(d: Operands, e: Operands)
    requires Writes(e) && CRd(d.insn) != 0
    ensures SpecOf(CAdd, d).rdData == Value(Add, e, d.rs1, d.rs2) && SpecOf(CMv, d).rdData == d.rs2
    ensures SpecOf(CAddi, d).rdData == Value(Add, e, d.rs1, CImm6(d.insn) % SIZE)
    ensures SpecOf(CAddi16sp, d).rdData == Value(Add, e, d.rs1, CImm16sp(d.insn) % SIZE)
    ensures SpecOf(CAddi4spn, d).rdData == Value(Add, e, d.rs1, CImm4spn(d.insn) % SIZE)
    ensures SpecOf(CLi, d).rdData == CImm6(d.insn) % SIZE && SpecOf(CLui, d).rdData == CImmLui(d.insn) % SIZE
    ensures SpecOf(CAndi, d).rdData == Value(And, e, d.rs1, CImm6(d.insn) % SIZE)
  {
    hide Value, SpecOf, CImm6, CImm16sp, CImm4spn, CImmLui, CRd, AndWord, OrWord, XorWord;
    CompressedSumResults(d);
    CompressedStackResults(d);
    SameSums(d.rs1, CImm6(d.insn));
    SameSums(d.rs1, CImm16sp(d.insn));
    SameSums(d.rs1, CImm4spn(d.insn));
    Difference(e, d.rs1, d.rs2);
    Difference(e, d.rs1, CImm6(d.insn) % SIZE);
    Difference(e, d.rs1, CImm16sp(d.insn) % SIZE);
    Difference(e, d.rs1, CImm4spn(d.insn) % SIZE);
    WordTwice(d.rs1, CImm6(d.insn));
    LogicIs(e, d.rs1, CImm6(d.insn) % SIZE);
  }

  lemma CompressedShiftResults(d: Operands)
    ensures CRd(d.insn) != 0 ==> SpecOf(CSlli, d).rdData == ShiftLeft(d.rs1, CShamt(d.insn))
    ensures SpecOf(CSrli, d).rdData == ShiftRight(d.rs1, CShamt(d.insn))
    ensures SpecOf(CSrai, d).rdData == ShiftRightArith(d.rs1, CShamt(d.insn))
  {
    WordIs(ShiftLeft(d.rs1, CShamt(d.insn)));
    WordIs(ShiftRight(d.rs1, CShamt(d.insn)));
    WordIs(ShiftRightArith(d.rs1, CShamt(d.insn)));
    hide CRd, CRs2, CImm6, CImm16sp, CImm4spn, CShamt, CImmB, CImmJ, CImmLui, CImmLw, CImmLwsp, CImmSwsp, AndWord,
      OrWord, XorWord, ShiftLeft, ShiftRight, ShiftRightArith, Word, LoadWord, StoreWord, Branch;
  }

  lemma CompressedShifts(d: Operands, e: Operands)
    requires Writes(e) && CRd(d.insn) != 0 && CShamt(d.insn) < 0x20
    ensures SpecOf(CSlli, d).rdData == Value(Sll, e, d.rs1, CShamt(d.insn))
    ensures SpecOf(CSrli, d).rdData == Value(Srl, e, d.rs1, CShamt(d.insn))
    ensures SpecOf(CSrai, d).rdData == Value(Sra, e, d.rs1, CShamt(d.insn))
  {
    hide Value, SpecOf, CShamt, CRd, ShiftLeft, ShiftRight, ShiftRightArith;
    CompressedShiftResults(d);
    LeftShiftIs(e, d.rs1, CShamt(d.insn));
    RightShiftIs(e, d.rs1, CShamt(d.insn));
    SignedShiftIs(e, d.rs1, CShamt(d.insn));
  }

  /** Where the compressed jumps and branches go, and what they link to; no other one leaves the sequence. */
  lemma CompressedJumps(d: Operands)
    ensures SpecOf(CJ, d).pcWdata == SpecOf(CJal, d).pcWdata == (d.pc + CImmJ(d.insn)) % SIZE
    ensures SpecOf(CJr, d).pcWdata == SpecOf(CJalr, d).pcWdata == d.rs1 - d.rs1 % 2
    ensures SpecOf(CJal, d).rdData == SpecOf(CJalr, d).rdData == (d.pc + 2) % SIZE
    ensures SpecOf(CBeqz, d).pcWdata == (d.pc + if d.rs1 == 0 then CImmB(d.insn) else 2) % SIZE
    ensures SpecOf(CBnez, d).pcWdata == (d.pc + if d.rs1 != 0 then CImmB(d.insn) else 2) % SIZE
  {
    hide CRd, CRs2, CRs1Short, CRs2Short, CImm6, CImm16sp, CImm4spn, CShamt, CImmB, CImmJ, CImmLui, CImmLw, CImmLwsp,
      CImmSwsp, AndWord, OrWord, XorWord, ShiftLeft, ShiftRight, ShiftRightArith, LoadWord, StoreWord;
  }

  predicate IsCompressedAccess(i: Insn) {
    i.CLw? || i.CLwsp? || i.CSw? || i.CSwsp?
  }

  lemma CompressedNext(i: Insn, d: Operands)
    requires IsCompressed(i) && !i.CJ? && !i.CJal? && !i.CJr? && !i.CJalr? && !i.CBeqz? && !i.CBnez?
    ensures SpecOf(i, d).pcWdata == (d.pc + 2) % SIZE
  {
    hide SpecOf, IsCompressed;
    if IsCompressedAccess(i) { AccessNext(i, d); } else { ResultNext(i, d); }
  }

  lemma AccessNext(i: Insn, d: Operands)
    requires IsCompressedAccess(i)
    ensures SpecOf(i, d).pcWdata == (d.pc + 2) % SIZE
  {
    hide CRd, CRs2, CRs1Short, CRs2Short, CImm6, CImm16sp, CImm4spn, CShamt, CImmB, CImmJ, CImmLui, CImmLw, CImmLwsp,
      CImmSwsp, AndWord, OrWord, XorWord, ShiftLeft, ShiftRight, ShiftRightArith, Branch, WordMask, Aligned;
  }

  lemma ResultNext(i: Insn, d: Operands)
    requires IsCompressed(i) && !i.CJ? && !i.CJal? && !i.CJr? && !i.CJalr? && !i.CBeqz? && !i.CBnez?
    requires !IsCompressedAccess(i)
    ensures SpecOf(i, d).pcWdata == (d.pc + 2) % SIZE
  {
    hide CRd, CRs2, CRs1Short, CRs2Short, CImm6, CImm16sp, CImm4spn, CShamt, CImmB, CImmJ, CImmLui, CImmLw, CImmLwsp,
      CImmSwsp, AndWord, OrWord, XorWord, ShiftLeft, ShiftRight, ShiftRightArith, Branch, LoadWord, StoreWord;
  }

  /** And the words that the compressed loads and stores access. */
  lemma CompressedAddresses(d: Operands)
    ensures var addr := (d.rs1 + CImmLw(d.insn)) % SIZE;
      SpecOf(CLw, d).memAddr == SpecOf(CSw, d).memAddr == addr - addr % 4
    ensures var addr := (d.rs1 + CImmLwsp(d.insn)) % SIZE; SpecOf(CLwsp, d).memAddr == addr - addr % 4
    ensures var addr := (d.rs1 + CImmSwsp(d.insn)) % SIZE; SpecOf(CSwsp, d).memAddr == addr - addr % 4
  {
    hide CRd, CRs2, CRs1Short, CRs2Short, CImm6, CImm16sp, CImm4spn, CShamt, CImmB, CImmJ, CImmLui, CImmLw, CImmLwsp,
      CImmSwsp, AndWord, OrWord, XorWord, ShiftLeft, ShiftRight, ShiftRightArith, Branch, WordMask;
  }
}
