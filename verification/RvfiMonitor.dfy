/** The RVFI monitor: per-record checks against an ISA specification, the reorder buffer, and the
    shadow program counter and shadow registers that check the reordered stream. */
module RvfiMonitor {
  import opened MachineTypes
  import opened Rvfi
  import opened ReorderBuffers

  /** The combinational module riscv_formal_monitor_rv32imc_isa_spec, kept abstract. */
  type Isa = Operands -> Spec

  function OperandsOf(r: Record): Operands {
    Operands(r.insn, r.pcRdata, r.rs1Data, r.rs2Data, r.memRdata)
  }

  predicate Bit(m: Mask, i: nat)
    requires i < 4
  {
    m / (if i == 0 then 1 else if i == 1 then 2 else if i == 2 then 4 else 8) % 2 == 1
  }

  function ByteOf(x: U32, i: nat): Byte
    requires i < 4
  {
    x / (if i == 0 then 1 else if i == 1 then 0x100 else if i == 2 then 0x1_0000 else 0x100_0000) % 0x100
  }

  /** A byte lane read by the specification and not by the record, and a written lane that differs. */
  predicate LaneUnread(r: Record, p: Spec, i: nat) requires i < 4 { !Bit(r.memRmask, i) && Bit(p.memRmask, i) }
  predicate LaneDiffers(r: Record, p: Spec, i: nat) requires i < 4 {
    Bit(r.memWmask, i) && ByteOf(r.memWdata, i) != ByteOf(p.memWdata, i)
  }

  /** The record is what the specification says, so far as the monitor looks. */
  ghost predicate Agrees(r: Record, p: Spec) {
    && r.trap == p.trap
    && (p.rs1Addr != 0 ==> r.rs1Addr == p.rs1Addr)
    && (p.rs2Addr != 0 ==> r.rs2Addr == p.rs2Addr)
    && r.rdAddr == p.rdAddr && r.rdData == p.rdData && r.pcWdata == p.pcWdata
    && r.memWmask == p.memWmask
    && (forall i :: 0 <= i < 4 ==> !LaneUnread(r, p, i) && !LaneDiffers(r, p, i))
    && (r.memWmask != 0 || r.memRmask != 0 ==> r.memAddr == p.memAddr)
  }

  /** The code of the checks on one record: of those that fail, the last in program text. */
  function RecordCode(r: Record, p: Spec): U16 {
    if !p.valid then 0
    else if r.memAddr != p.memAddr && (r.memWmask != 0 || r.memRmask != 0) then 107
    else if LaneDiffers(r, p, 3) then 123
    else if LaneUnread(r, p, 3) then 113
    else if LaneDiffers(r, p, 2) then 122
    else if LaneUnread(r, p, 2) then 112
    else if LaneDiffers(r, p, 1) then 121
    else if LaneUnread(r, p, 1) then 111
    else if LaneDiffers(r, p, 0) then 120
    else if LaneUnread(r, p, 0) then 110
    else if r.memWmask != p.memWmask then 108
    else if r.pcWdata != p.pcWdata then 106
    else if r.rdData != p.rdData then 105
    else if r.rdAddr != p.rdAddr then 104
    else if r.rs2Addr != p.rs2Addr && p.rs2Addr != 0 then 103
    else if r.rs1Addr != p.rs1Addr && p.rs1Addr != 0 then 102
    else if r.trap != p.trap then 101
    else 0
  }

  /** No check fails exactly when the record is not specified or agrees with its specification. */
  lemma CodeZeroIsAgreement(r: Record, p: Spec)
    ensures RecordCode(r, p) == 0 <==> (p.valid ==> Agrees(r, p))
  {
  }

  /** The checks on one record, in program text order. */
  method CheckRecord(r: Record, p: Spec) returns (code: U16)
    ensures code == RecordCode(r, p)
  {
    code := 0;
    if p.valid {
      if r.trap != p.trap { code := 101; }
      if r.rs1Addr != p.rs1Addr && p.rs1Addr != 0 { code := 102; }
      if r.rs2Addr != p.rs2Addr && p.rs2Addr != 0 { code := 103; }
      if r.rdAddr != p.rdAddr { code := 104; }
      if r.rdData != p.rdData { code := 105; }
      if r.pcWdata != p.pcWdata { code := 106; }
      if r.memWmask != p.memWmask { code := 108; }
      if LaneUnread(r, p, 0) { code := 110; }
      if LaneDiffers(r, p, 0) { code := 120; }
      if LaneUnread(r, p, 1) { code := 111; }
      if LaneDiffers(r, p, 1) { code := 121; }
      if LaneUnread(r, p, 2) { code := 112; }
      if LaneDiffers(r, p, 2) { code := 122; }
      if LaneUnread(r, p, 3) { code := 113; }
      if LaneDiffers(r, p, 3) { code := 123; }
      if r.memAddr != p.memAddr && (r.memWmask != 0 || r.memRmask != 0) { code := 107; }
    }
  }

  // ----- the registers of the whole monitor

  datatype Registers = Registers(rob: ReorderBuffers.State, recordErr: U16, pcErr: U16, regErr: U16,
                         pcValid: bool, pcTrap: bool, pc: U32, xvalid: seq<bool>, xregs: seq<U32>, errcode: U16)

  const XREGS := 32

  ghost predicate WellSized(s: Registers) {
    Sized(s.rob) && |s.xvalid| == XREGS && |s.xregs| == XREGS
  }

  function PcCode(pcValid: bool, pcTrap: bool, pc: U32, o: Record): U16 {
    if pcValid && pcTrap && !o.intr then 133
    else if pcValid && pc != o.pcRdata && !o.intr then 130
    else 0
  }

  function RegCode(xvalid: seq<bool>, xregs: seq<U32>, o: Record): U16
    requires |xvalid| == XREGS && |xregs| == XREGS
  {
    if xvalid[o.rs2Addr] && xregs[o.rs2Addr] != o.rs2Data then 132
    else if xvalid[o.rs1Addr] && xregs[o.rs1Addr] != o.rs1Data then 131
    else 0
  }

  function OnlyX0(): (v: seq<bool>)
    ensures |v| == XREGS
  {
    seq(XREGS, i => i == 0)
  }

  /** One clock edge of the monitor out of reset: the checks and the shadow registers read the output
      the reorder buffer had, and the error output reads the error registers as they were. */
  function ClockStep(isa: Isa, s: Registers, input: Option<Slot>): (s': Registers)
    requires |s.rob.buffer| == |s.rob.valid| == SLOTS && |s.xvalid| == |s.xregs| == XREGS
    ensures |s'.rob.buffer| == |s'.rob.valid| == SLOTS && |s'.xvalid| == |s'.xregs| == XREGS
  {
    var t := s.(
      rob := ReorderBuffers.Step(s.rob, false, input),
      recordErr := if input.Some? then RecordCode(input.value.data, isa(OperandsOf(input.value.data))) else 0,
      errcode := if s.regErr != 0 then s.regErr else if s.pcErr != 0 then s.pcErr
                 else if s.rob.errcode != 0 then s.rob.errcode else s.recordErr);
    if s.rob.out.None? then t.(pcErr := 0, regErr := 0)
    else
      var o := s.rob.out.value.data;
      t.(pcErr := PcCode(s.pcValid, s.pcTrap, s.pc, o), regErr := RegCode(s.xvalid, s.xregs, o),
         pcValid := !o.trap, pcTrap := o.trap, pc := o.pcWdata,
         xvalid := s.xvalid[o.rdAddr := true], xregs := s.xregs[o.rdAddr := o.rdData])
  }

  /** One clock edge with reset asserted. */
  function ResetStep(s: Registers, input: Option<Slot>): (s': Registers)
    requires |s.rob.buffer| == |s.rob.valid| == SLOTS && |s.xvalid| == |s.xregs| == XREGS
    ensures |s'.rob.buffer| == |s'.rob.valid| == SLOTS && |s'.xvalid| == |s'.xregs| == XREGS
  {
    s.(rob := ReorderBuffers.Step(s.rob, true, input), recordErr := 0, pcErr := 0, regErr := 0,
       pcValid := false, pcTrap := false, xvalid := OnlyX0(), xregs := s.xregs[0 := 0], errcode := 0)
  }

  /** The module riscv_formal_monitor_rv32imc. */
  class Monitor {
    const isa: Isa
    const rob: ReorderBuffer
    var recordErr: U16
    var pcErr: U16
    var regErr: U16
    var pcValid: bool
    var pcTrap: bool
    var pc: U32
    var xvalid: seq<bool>
    var xregs: seq<U32>
    var errcode: U16

    constructor (isa: Isa, rob: ReorderBuffer)
      requires rob.Valid()
      ensures Valid() && this.isa == isa && this.rob == rob
    {
      this.isa, this.rob := isa, rob;
      recordErr, pcErr, regErr, errcode := 0, 0, 0, 0;
      pcValid, pcTrap, pc := false, false, 0;
      xvalid, xregs := OnlyX0(), seq(XREGS, _ => 0);
    }

    ghost predicate Valid()
      reads this, rob
    {
      rob.Valid() && |xvalid| == XREGS && |xregs| == XREGS
    }

    ghost function Now(): Registers
      reads this, rob
    {
      Registers(rob.Registers(), recordErr, pcErr, regErr, pcValid, pcTrap, pc, xvalid, xregs, errcode)
    }

    /** The always blocks, at one clock edge. */
    method Clock(reset: bool, input: Option<Slot>)
      requires Valid()
      modifies this, rob
      ensures Valid()
      ensures Now() == if reset then ResetStep(old(Now()), input) else ClockStep(isa, old(Now()), input)
    {
      hide RecordCode, PcCode, RegCode, ReorderBuffers.Step, OnlyX0;
      ghost var want := if reset then ResetStep(Now(), input) else ClockStep(isa, Now(), input);
      var nextErr := PickError(reset);
      var nextRecordErr: U16 := 0;
      if !reset && input.Some? {
        nextRecordErr := CheckRecord(input.value.data, isa(OperandsOf(input.value.data)));
      }
      ClockPc(reset);
      ClockRegs(reset);
      rob.Clock(reset, input);
      recordErr, errcode := nextRecordErr, nextErr;
      assert rob.Registers() == want.rob && recordErr == want.recordErr && errcode == want.errcode;
      assert pcErr == want.pcErr && pcValid == want.pcValid && pcTrap == want.pcTrap && pc == want.pc;
      assert regErr == want.regErr && xvalid == want.xvalid && xregs == want.xregs;
    }

    /** The block that picks the error to report. */
    method PickError(reset: bool) returns (nextErr: U16)
      ensures nextErr == if reset then 0 else if regErr != 0 then regErr else if pcErr != 0 then pcErr
                         else if rob.errcode != 0 then rob.errcode else recordErr
    {
      nextErr := 0;
      if !reset {
        if recordErr != 0 { nextErr := recordErr; }
        if rob.errcode != 0 { nextErr := rob.errcode; }
        if pcErr != 0 { nextErr := pcErr; }
        if regErr != 0 { nextErr := regErr; }
      }
    }

    /** The block that checks the program counter of the reordered stream. */
    method ClockPc(reset: bool)
      modifies `pcErr, `pcValid, `pcTrap, `pc
      ensures var out := if reset then None else rob.out;
        && pcErr == (if out.Some? then PcCode(old(pcValid), old(pcTrap), old(pc), out.value.data) else 0)
        && pcValid == (if reset then false else if out.Some? then !out.value.data.trap else old(pcValid))
        && pcTrap == (if reset then false else if out.Some? then out.value.data.trap else old(pcTrap))
        && pc == (if out.Some? then out.value.data.pcWdata else old(pc))
    {
      var wasValid, wasTrap, wasPc := pcValid, pcTrap, pc;
      pcErr := 0;
      if reset {
        pcValid, pcTrap := false, false;
      }
      if !reset && rob.out.Some? {
        var o := rob.out.value.data;
        if wasValid && wasPc != o.pcRdata && !o.intr { pcErr := 130; }
        if wasValid && wasTrap && !o.intr { pcErr := 133; }
        pcValid, pcTrap, pc := !o.trap, o.trap, o.pcWdata;
      }
    }

    /** The block that checks the source registers of the reordered stream. */
    method ClockRegs(reset: bool)
      requires |xvalid| == XREGS && |xregs| == XREGS
      modifies `regErr, `xvalid, `xregs
      ensures var out := if reset then None else rob.out;
        && regErr == (if out.Some? then RegCode(old(xvalid), old(xregs), out.value.data) else 0)
        && xvalid == (if reset then OnlyX0()
                      else if out.Some? then old(xvalid)[out.value.data.rdAddr := true]
                      else old(xvalid))
        && xregs == (if reset then old(xregs)[0 := 0] else
                     if out.Some? then old(xregs)[out.value.data.rdAddr := out.value.data.rdData] else old(xregs))
    {
      regErr := 0;
      if reset {
        xvalid := OnlyX0();
        xregs := xregs[0 := 0];
      }
      if !reset && rob.out.Some? {
        var o := rob.out.value.data;
        if xvalid[o.rs1Addr] && xregs[o.rs1Addr] != o.rs1Data { regErr := 131; }
        if xvalid[o.rs2Addr] && xregs[o.rs2Addr] != o.rs2Data { regErr := 132; }
        xvalid := xvalid[o.rdAddr := true];
        xregs := xregs[o.rdAddr := o.rdData];
      }
    }
  }
}
