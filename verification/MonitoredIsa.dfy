/** The instruction modules put together as the specification of the ISA, and what the silence of the monitor
    means for instructions that some module accepts. */
module MonitoredIsa {
  import opened Bitwise
  import opened Division
  import opened MachineTypes
  import opened Rvfi
  import opened InsnSpecs
  import opened CompressedSpecs
  import opened FullSpecs
  import ReorderBuffers
  import ReorderTheory
  import RvfiMonitor
  import MonitorTheory
  import LineMemory
  import StoreLoad

  /** The outputs of one module for a word it accepts. */
  function SpecOf(i: Insn, d: Operands): Spec {
    if IsCompressed(i) then CompressedSpec(i, d.insn, d)
    else if IsBase(i) then BaseSpec(i, d.insn, d, 4)
    else OtherSpec(i, d.insn, d)
  }

  /** The muxes of isa_spec; where no module accepts the word, all outputs are 0. */
  function IsaSpec(d: Operands): Spec {
    var c, f := CompressedKey(d.insn), FullKey(d.insn);
    if IsCompressed(c) && Valid(c, d.insn) then SpecOf(c, d)
    else if !IsCompressed(f) && Valid(f, d.insn) then SpecOf(f, d)
    else Spec(false, false, 0, 0, 0, 0, 0, 0, 0, 0, 0)
  }

  /** The specification is that of the one module that accepts the word. */
  lemma IsaSpecIs(i: Insn, d: Operands)
    requires Valid(i, d.insn)
    ensures IsaSpec(d) == SpecOf(i, d)
  {
    hide Valid, SpecOf, CompressedKey, FullKey, IsCompressed;
    var c := CompressedKey(d.insn);
    if IsCompressed(i) {
      CompressedIsKey(i, d.insn);
    } else {
      FullIsKey(i, d.insn);
      if IsCompressed(c) && Valid(c, d.insn) { OnlyOneValid(i, c, d.insn); }
    }
  }

  /** Where no module accepts the word, it is not valid. */
  lemma NoModule(d: Operands)
    ensures IsaSpec(d).valid <==> exists i :: Valid(i, d.insn)
  {
    hide Valid, SpecOf, CompressedKey, FullKey, IsCompressed;
    if i :| Valid(i, d.insn) {
      IsaSpecIs(i, d);
      SpecKeepsX0(i, d);
    }
  }

  lemma CompressedKeepsX0(i: Insn, w: U32, d: Operands)
    requires IsCompressed(i)
    ensures CompressedSpec(i, w, d).rdAddr == 0 ==> CompressedSpec(i, w, d).rdData == 0
    ensures CompressedSpec(i, w, d).valid
  {
    hide CRd, CRs2, CRs1Short, CRs2Short, CImm6, CImm16sp, CImm4spn, CShamt, CImmB, CImmJ, CImmLui, CImmLw, CImmLwsp,
      CImmSwsp, Word, AndWord, OrWord, XorWord, ShiftLeft, ShiftRight, ShiftRightArith, Aligned, WordMask;
  }

  lemma BaseKeepsX0(i: Insn, w: U32, d: Operands)
    requires IsBase(i)
    ensures BaseSpec(i, w, d, 4).rdAddr == 0 ==> BaseSpec(i, w, d, 4).rdData == 0
    ensures BaseSpec(i, w, d, 4).valid
  {
    hide Rd, Rs1, Rs2, Shamt, ImmI, ImmS, ImmB, ImmU, ImmJ,
      Word, AndWord, OrWord, XorWord, ShiftLeft, ShiftRight, ShiftRightArith, Aligned, WordMask;
  }

  lemma SpecKeepsX0(i: Insn, d: Operands)
    ensures SpecOf(i, d).rdAddr == 0 ==> SpecOf(i, d).rdData == 0
    ensures SpecOf(i, d).valid
  {
    hide CompressedSpec, BaseSpec, OtherSpec, IsCompressed, IsBase;
    if IsCompressed(i) {
      CompressedKeepsX0(i, d.insn, d);
    } else if IsBase(i) {
      BaseKeepsX0(i, d.insn, d);
    } else {
      OtherKeepsX0(i, d.insn, d);
    }
  }

  /** The specification leaves x0 at 0. */
  lemma IsaKeepsX0()
    ensures MonitorTheory.KeepsX0(IsaSpec)
  {
    hide Valid, SpecOf, CompressedKey, FullKey, IsCompressed;
    forall d: Operands | IsaSpec(d).rdAddr == 0 ensures IsaSpec(d).rdData == 0 {
      SpecKeepsX0(CompressedKey(d.insn), d);
      SpecKeepsX0(FullKey(d.insn), d);
    }
  }

  /** After a clock with reset in any state, while the error output stays 0, the reordered instructions
      compute what the modules compute from the registers as written so far. */
  lemma MonitoredExecution(any: RvfiMonitor.Registers, input: Option<ReorderBuffers.Slot>,
                           ins: seq<Option<ReorderBuffers.Slot>>, k: nat)
    requires RvfiMonitor.WellSized(any) && |ins| >= 2
    requires MonitorTheory.NoErrors(IsaSpec, RvfiMonitor.ResetStep(any, input), ins)
    requires forall x :: x in ReorderBuffers.Outputs(RvfiMonitor.ResetStep(any, input).rob, ins[..|ins| - 2]) ==>
      IsaSpec(RvfiMonitor.OperandsOf(x.data)).valid
    requires k < |ReorderBuffers.Outputs(RvfiMonitor.ResetStep(any, input).rob, ins[..|ins| - 2])|
    ensures var os := ReorderBuffers.Outputs(RvfiMonitor.ResetStep(any, input).rob, ins[..|ins| - 2]);
      && MonitorTheory.Executes(IsaSpec, os[k].data, MonitorTheory.Known(os[..k]))
      && (k > 0 ==> MonitorTheory.Follows(os[k - 1].data, os[k].data))
  {
    hide IsaSpec, MonitorTheory.NoErrors, MonitorTheory.KeepsX0, MonitorTheory.Executes, MonitorTheory.Known,
      MonitorTheory.Checked, MonitorTheory.Sequential, MonitorTheory.Follows, RvfiMonitor.ResetStep,
      ReorderBuffers.Outputs, ReorderTheory.Arrivals;
    var os := ReorderBuffers.Outputs(RvfiMonitor.ResetStep(any, input).rob, ins[..|ins| - 2]);
    MonitorTheory.MonitorSound(IsaSpec, any, input, ins);
    IsaKeepsX0();
    forall x | x in os ensures MonitorTheory.Checked(IsaSpec, x.data) {
      assert x in multiset(os);
      assert x in multiset(ReorderTheory.Arrivals(ins[..|ins| - 2]));
      var seen := ins[..|ins| - 1];
      assert seen[..|seen| - 1] == ins[..|ins| - 2];
      MonitorTheory.ArrivedBefore(seen);
    }
    MonitorTheory.SequentialExecutes(IsaSpec, os, k);
  }

  // ----- words as numbers and as bytes

  /** The number a little-endian word holds. */
  function NumberOf(w: LineMemory.Word): U32 {
    var a: int, b: int, c: int, d: int := w[0], w[1], w[2], w[3];
    a + 0x100 * b + 0x1_0000 * c + 0x100_0000 * d
  }

  lemma BytePowers(k: nat)
    requires k < 4
    ensures Pow2(8 * k) == if k == 0 then 1 else if k == 1 then 0x100 else if k == 2 then 0x1_0000 else 0x100_0000
    ensures Pow2(k) == if k == 0 then 1 else if k == 1 then 2 else if k == 2 then 4 else 8
  {
    assert Pow2(4) == 0x10;
    assert Pow2(6) == 0x40;
    assert Pow2(8) == 0x100;
    assert Pow2(10) == 0x400;
    assert Pow2(12) == 0x1000;
    assert Pow2(14) == 0x4000;
    assert Pow2(16) == 0x1_0000;
    assert Pow2(18) == 0x4_0000;
    assert Pow2(20) == 0x10_0000;
    assert Pow2(22) == 0x40_0000;
    assert Pow2(24) == 0x100_0000;
  }

  lemma MaskAgrees(addr: U32, i: nat)
    requires i < 4
    ensures RvfiMonitor.Bit(WordMask(addr), i) == StoreLoad.SpecMask(addr, 4)[i]
  {
    BytePowers(addr % 4);
    hide Pow2;
    var k := addr % 4;
    assert WordMask(addr) == if k == 0 then 15 else if k == 1 then 14 else if k == 2 then 12 else 8;
  }

  lemma ShiftedRight(w: LineMemory.Word, v: LineMemory.Word, k: nat)
    requires k < 4 && v == seq(4, i requires 0 <= i < 4 => if i + k < 4 then w[i + k] else 0)
    ensures ShiftRight(NumberOf(w), 8 * k) == NumberOf(v)
  {
    BytePowers(k);
    hide Pow2;
    var x: int, a: int, b: int, c: int, d: int := NumberOf(w), w[0], w[1], w[2], w[3];
    if k == 1 { QuotientIs(x, 0x100, NumberOf(v), a); }
    if k == 2 { QuotientIs(x, 0x1_0000, NumberOf(v), a + 0x100 * b); }
    if k == 3 { QuotientIs(x, 0x100_0000, NumberOf(v), a + 0x100 * b + 0x1_0000 * c); }
  }

  lemma ShiftedLeft(w: LineMemory.Word, v: LineMemory.Word, k: nat)
    requires k < 4 && v == seq(4, i requires 0 <= i < 4 => if i >= k then w[i - k] else 0)
    ensures ShiftLeft(NumberOf(w), 8 * k) == NumberOf(v)
  {
    BytePowers(k);
    hide Pow2;
    var x: int, a: int, b: int, c: int, d: int := NumberOf(w), w[0], w[1], w[2], w[3];
    if k == 1 { QuotientIs(x * 0x100, 0x1_0000_0000, d, NumberOf(v)); }
    if k == 2 { QuotientIs(x * 0x1_0000, 0x1_0000_0000, c + 0x100 * d, NumberOf(v)); }
    if k == 3 { QuotientIs(x * 0x100_0000, 0x1_0000_0000, b + 0x100 * c + 0x1_0000 * d, NumberOf(v)); }
  }

  /** The load of a word, on numbers as here, is that on bytes. */
  lemma LoadWordAgrees(rs1: Reg, rd: Reg, addr: U32, mem: LineMemory.Word, signed: bool, next: int)
    ensures var p := LoadWord(rs1, rd, addr, NumberOf(mem), next);
      && p.trap == StoreLoad.SpecTrap(addr, 4) && p.memAddr == StoreLoad.SpecAddr(addr)
      && (forall i :: 0 <= i < 4 ==> RvfiMonitor.Bit(p.memRmask, i) == StoreLoad.SpecMask(addr, 4)[i])
      && p.rdData == NumberOf(StoreLoad.SpecLoadResult(addr, 4, mem, signed, rd))
  {
    hide ShiftRight, WordMask, StoreLoad.SpecMask, RvfiMonitor.Bit;
    forall i: nat | i < 4 ensures RvfiMonitor.Bit(WordMask(addr), i) == StoreLoad.SpecMask(addr, 4)[i] {
      MaskAgrees(addr, i);
    }
    ShiftedRight(mem, StoreLoad.SpecLoadResult(addr, 4, mem, signed, 1), addr % 4);
  }

  /** And so is the store. */
  lemma StoreWordAgrees(rs1: Reg, rs2: Reg, addr: U32, data: LineMemory.Word, next: int)
    ensures var p := StoreWord(rs1, rs2, addr, NumberOf(data), next);
      && p.trap == StoreLoad.SpecTrap(addr, 4) && p.memAddr == StoreLoad.SpecAddr(addr)
      && (forall i :: 0 <= i < 4 ==> RvfiMonitor.Bit(p.memWmask, i) == StoreLoad.SpecMask(addr, 4)[i])
      && p.memWdata == NumberOf(StoreLoad.SpecStoreData(addr, data))
  {
    hide ShiftLeft, WordMask, StoreLoad.SpecMask, RvfiMonitor.Bit;
    forall i: nat | i < 4 ensures RvfiMonitor.Bit(WordMask(addr), i) == StoreLoad.SpecMask(addr, 4)[i] {
      MaskAgrees(addr, i);
    }
    ShiftedLeft(data, StoreLoad.SpecStoreData(addr, data), addr % 4);
  }

  lemma PartMaskAgrees(addr: U32, bytes: nat, i: nat)
    requires (bytes == 1 || bytes == 2) && i < 4
    ensures RvfiMonitor.Bit(PartMask(addr, bytes), i) == StoreLoad.SpecMask(addr, bytes)[i]
  {
    BytePowers(addr % 4);
    hide Pow2;
    var k := addr % 4;
    var mask: int := PartMask(addr, bytes);
    if k == 0 { assert mask == if bytes == 1 then 1 else 3; }
    if k == 1 { assert mask == if bytes == 1 then 2 else 6; }
    if k == 2 { assert mask == if bytes == 1 then 4 else 12; }
    if k == 3 { assert mask == 8; }
  }

  /** The low bytes of a number, and what they are widened to. */
  lemma LowBytes(v: LineMemory.Word, n: nat, signed: bool)
    requires n == 1 || n == 2
    ensures var size := if n == 1 then 0x100 else 0x1_0000;
      var low := NumberOf(v) % size;
      Word(if signed then Signed(low, size / 2) else low) == NumberOf(StoreLoad.Extend(v[..n], signed))
  {
    var x: int, a: int, b: int, c: int, d: int := NumberOf(v), v[0], v[1], v[2], v[3];
    if n == 1 {
      QuotientIs(x, 0x100, b + 0x100 * c + 0x1_0000 * d, a);
    } else {
      QuotientIs(x, 0x1_0000, c + 0x100 * d, a + 0x100 * b);
    }
  }

  /** The loads of a byte and of a halfword. */
  lemma LoadPartAgrees(rs1: Reg, rd: Reg, addr: U32, mem: LineMemory.Word, bytes: nat, signed: bool, next: int)
    requires bytes == 1 || bytes == 2
    ensures var p := LoadPart(rs1, rd, addr, NumberOf(mem), bytes, signed, next);
      && p.trap == StoreLoad.SpecTrap(addr, bytes) && p.memAddr == StoreLoad.SpecAddr(addr)
      && (forall i :: 0 <= i < 4 ==> RvfiMonitor.Bit(p.memRmask, i) == StoreLoad.SpecMask(addr, bytes)[i])
      && p.rdData == NumberOf(StoreLoad.SpecLoadResult(addr, bytes, mem, signed, rd))
  {
    hide ShiftRight, PartMask, Word, NumberOf, StoreLoad.SpecMask, StoreLoad.Extend, RvfiMonitor.Bit;
    forall i: nat | i < 4 ensures RvfiMonitor.Bit(PartMask(addr, bytes), i) == StoreLoad.SpecMask(addr, bytes)[i] {
      PartMaskAgrees(addr, bytes, i);
    }
    var k := addr % 4;
    var v: LineMemory.Word := seq(4, i requires 0 <= i < 4 => if i + k < 4 then mem[i + k] else 0);
    ShiftedRight(mem, v, k);
    LowBytes(v, bytes, signed);
    assert v[..bytes] == StoreLoad.SpecLoaded(addr, bytes, mem);
    NoNumber();
  }

  lemma NoNumber()
    ensures NumberOf(seq(4, _ => 0)) == 0
  {
  }

  /** And the stores. */
  lemma StorePartAgrees(rs1: Reg, rs2: Reg, addr: U32, data: LineMemory.Word, bytes: nat, next: int)
    requires bytes == 1 || bytes == 2
    ensures var p := StorePart(rs1, rs2, addr, NumberOf(data), bytes, next);
      && p.trap == StoreLoad.SpecTrap(addr, bytes) && p.memAddr == StoreLoad.SpecAddr(addr)
      && (forall i :: 0 <= i < 4 ==> RvfiMonitor.Bit(p.memWmask, i) == StoreLoad.SpecMask(addr, bytes)[i])
      && p.memWdata == NumberOf(StoreLoad.SpecStoreData(addr, data))
  {
    hide ShiftLeft, PartMask, StoreLoad.SpecMask, RvfiMonitor.Bit;
    forall i: nat | i < 4 ensures RvfiMonitor.Bit(PartMask(addr, bytes), i) == StoreLoad.SpecMask(addr, bytes)[i] {
      PartMaskAgrees(addr, bytes, i);
    }
    ShiftedLeft(data, StoreLoad.SpecStoreData(addr, data), addr % 4);
  }

  // ----- early reads, concretely

  /** addi x0, x5, 0 */
  const ADDI_X0_X5: U32 := 0x2_8013

  /** It retires at pc, reading v. */
  function ReadsX5(pc: U32, v: U32): Record {
    Record(ADDI_X0_X5, false, false, 5, 0, v, 0, 0, 0, pc, (pc + 4) % 0x1_0000_0000, 0, 0, 0, 0, 0)
  }

  lemma AddiDecodes()
    ensures Valid(Addi, ADDI_X0_X5) && Rd(ADDI_X0_X5) == 0 && Rs1(ADDI_X0_X5) == 5
  {
  }

  lemma ReadsX5Checked(pc: U32, v: U32)
    ensures MonitorTheory.Checked(IsaSpec, ReadsX5(pc, v))
  {
    hide IsaSpec, Valid, Rd, Rs1, Rs2, Shamt, ImmI, ImmS, ImmB, ImmU, ImmJ, RvfiMonitor.Bit, RvfiMonitor.ByteOf,
      AndWord, OrWord, XorWord, ShiftLeft, ShiftRight, ShiftRightArith, Branch, LoadWord, StoreWord;
    AddiDecodes();
    IsaSpecIs(Addi, RvfiMonitor.OperandsOf(ReadsX5(pc, v)));
    NoLanes();
  }

  lemma NoLanes()
    ensures forall i :: 0 <= i < 4 ==> !RvfiMonitor.Bit(0, i)
  {
  }

  /** Two such instructions in a row may read 0 and then 1 from x5: the error output stays 0. */
  lemma EarlyReadsPass(any: RvfiMonitor.Registers, input: Option<ReorderBuffers.Slot>, n: nat)
    requires RvfiMonitor.WellSized(any)
    ensures var program, s := [ReadsX5(0, 0), ReadsX5(4, 1)], RvfiMonitor.ResetStep(any, input);
      var ins := ReorderTheory.EncodeAll(MonitorTheory.InOrderRun(program, n));
      && !MonitorTheory.Consistent(MonitorTheory.Numbered(program)) && MonitorTheory.NoErrors(IsaSpec, s, ins)
      && (n >= 2 ==> ReorderBuffers.Outputs(s.rob, ins) == MonitorTheory.Numbered(program))
  {
    hide IsaSpec, MonitorTheory.Checked, MonitorTheory.NoErrors, MonitorTheory.Consistent, ReorderTheory.EncodeAll,
      ReorderBuffers.Outputs, RvfiMonitor.ResetStep;
    ReadsX5Checked(0, 0);
    ReadsX5Checked(4, 1);
    MonitorTheory.EarlyReadsNeedNotAgree(IsaSpec, any, input, ReadsX5(0, 0), ReadsX5(4, 1), n);
  }
}
