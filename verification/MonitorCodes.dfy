/** Which code the RVFI monitor reports: what a record that differs from its specification in one respect draws,
    and what two records in a row do. */
module MonitorCodes {
  import opened MachineTypes
  import opened Rvfi
  import opened ReorderBuffers
  import opened RvfiMonitor

  // ----- one record

  /** One wrong field of a record that agrees otherwise. */
  lemma FieldFaults(r: Record, p: Spec, reg: Reg, x: U32)
    requires p.valid && Agrees(r, p)
    ensures RecordCode(r.(trap := !r.trap), p) == 101
    ensures p.rs1Addr != 0 && reg != p.rs1Addr ==> RecordCode(r.(rs1Addr := reg), p) == 102
    ensures p.rs2Addr != 0 && reg != p.rs2Addr ==> RecordCode(r.(rs2Addr := reg), p) == 103
    ensures reg != p.rdAddr ==> RecordCode(r.(rdAddr := reg), p) == 104
    ensures x != p.rdData ==> RecordCode(r.(rdData := x), p) == 105
    ensures x != p.pcWdata ==> RecordCode(r.(pcWdata := x), p) == 106
  {
    AgreeingLanes(r, p);
    hide Bit, ByteOf;
  }

  lemma AgreeingLanes(r: Record, p: Spec)
    requires Agrees(r, p)
    ensures !LaneUnread(r, p, 0) && !LaneUnread(r, p, 1) && !LaneUnread(r, p, 2) && !LaneUnread(r, p, 3)
    ensures !LaneDiffers(r, p, 0) && !LaneDiffers(r, p, 1) && !LaneDiffers(r, p, 2) && !LaneDiffers(r, p, 3)
  {
    hide LaneUnread, LaneDiffers;
  }

  /** An access to another word. */
  lemma AddressFault(r: Record, p: Spec, x: U32)
    requires p.valid && Agrees(r, p) && (r.memRmask != 0 || r.memWmask != 0) && x != p.memAddr
    ensures RecordCode(r.(memAddr := x), p) == 107
  {
  }

  /** A store or a load that does not happen: for a load the code names the highest lane it should have read. */
  lemma MissingAccess(r: Record, p: Spec)
    requires p.valid && Agrees(r, p)
    ensures p.memWmask != 0 ==> RecordCode(r.(memWmask := 0), p) == 108
    ensures p.memRmask != 0 ==> RecordCode(r.(memRmask := 0), p) == 110 + Highest(p.memRmask)
  {
    AgreeingLanes(r, p);
    NothingMasked();
    hide ByteOf;
  }

  lemma NothingMasked()
    ensures forall i :: 0 <= i < 4 ==> !Bit(0, i)
  {
  }

  /** The highest lane of a mask. */
  function Highest(m: Mask): nat
    requires m != 0
  {
    if m >= 8 then 3 else if m >= 4 then 2 else if m >= 2 then 1 else 0
  }

  /** Wrong data in a stored lane: the code names the highest such lane. */
  lemma DataFault(r: Record, p: Spec, x: U32, i: nat)
    requires p.valid && Agrees(r, p) && i < 4 && Bit(p.memWmask, i) && ByteOf(x, i) != ByteOf(p.memWdata, i)
    requires forall j :: i < j < 4 && Bit(p.memWmask, j) ==> ByteOf(x, j) == ByteOf(p.memWdata, j)
    ensures RecordCode(r.(memWdata := x), p) == 120 + i
  {
    AgreeingLanes(r, p);
    SomeLane(p.memWmask, i);
    hide Bit, ByteOf;
  }

  lemma SomeLane(m: Mask, i: nat)
    requires i < 4 && Bit(m, i)
    ensures m != 0
  {
  }

  // ----- two records in a row

  /** Of two records that leave the buffer in consecutive clocks the second is checked against the first: its
      pc, and then, the second operand before the first, the register that the first has written. */
  lemma SecondRecord(isa: Isa, s: Registers, first: Record, second: Record, in1: Option<Slot>, in2: Option<Slot>)
    requires WellSized(s) && s.rob.out.Some? && s.rob.out.value.data == first
    requires var out := ClockStep(isa, s, in1).rob.out; out.Some? && out.value.data == second
    ensures var t := ClockStep(isa, ClockStep(isa, s, in1), in2);
      && t.pcErr == (if !first.trap && !second.intr && second.pcRdata != first.pcWdata then 130 else 0)
      && (second.rs2Addr == first.rdAddr && second.rs2Data != first.rdData ==> t.regErr == 132)
      && (second.rs1Addr == first.rdAddr == second.rs2Addr && second.rs1Data != first.rdData == second.rs2Data ==>
          t.regErr == 131)
  {
    hide RecordCode, ReorderBuffers.Step;
  }

  /** The error registers are reported one clock later: registers before pc before buffer before record. */
  lemma Reported(isa: Isa, s: Registers, input: Option<Slot>)
    requires WellSized(s)
    ensures var e := ClockStep(isa, s, input).errcode;
      && (e == 0 <==> s.regErr == s.pcErr == s.rob.errcode == s.recordErr == 0)
      && (s.regErr != 0 ==> e == s.regErr) && (s.regErr == 0 != s.pcErr ==> e == s.pcErr)
      && (s.regErr == s.pcErr == 0 != s.rob.errcode ==> e == s.rob.errcode)
  {
    hide RecordCode, ReorderBuffers.Step;
  }

  // ----- the buffer

  /** After reset, a second record for a slot whose first one has not left. */
  lemma SecondForSlot(s: State, x: Slot, y: Slot)
    requires JustReset(s) && x.order % SLOTS == y.order % SLOTS != 0
    ensures Run(s, [Some(x), Some(y)]).errcode == 60000 + x.order % SLOTS
  {
    hide Step;
    TwoClocks(s, Some(x), Some(y));
    FirstArrives(s, x);
    SecondConflicts(Step(s, false, Some(x)), y);
  }

  lemma TwoClocks(s: State, a: Option<Slot>, b: Option<Slot>)
    requires Sized(s)
    ensures Run(s, [a, b]) == Step(Step(s, false, a), false, b)
  {
    hide Step;
    assert [a, b][..1] == [a] && [a][..0] == [];
    assert Run(s, [a]) == Step(Run(s, []), false, a);
  }

  lemma FirstArrives(s: State, x: Slot)
    requires JustReset(s)
    ensures var s' := Step(s, false, Some(x));
      s'.cursor == 0 && s'.valid[x.order % SLOTS] && s'.buffer[x.order % SLOTS] == x
      && (x.order % SLOTS != 0 ==> !s'.valid[0])
  {
  }

  lemma SecondConflicts(s: State, y: Slot)
    requires Sized(s) && s.cursor == 0 && s.valid[y.order % SLOTS] && !s.valid[0]
    ensures Step(s, false, Some(y)).errcode == 60000 + y.order % SLOTS
  {
  }

  /** A record that has the slot of the next one, and another order. */
  lemma WrongTurn(s: State, x: Slot, y: Option<Slot>)
    requires JustReset(s) && x.order % SLOTS == 0 != x.order
    ensures Run(s, [Some(x), y]).errcode == 61000
  {
    hide Step;
    TwoClocks(s, Some(x), y);
    FirstArrives(s, x);
    LeavesWrongly(Step(s, false, Some(x)), y);
  }

  lemma LeavesWrongly(s: State, y: Option<Slot>)
    requires Sized(s) && s.cursor == 0 && s.valid[0] && s.buffer[0].order != 0
    ensures Step(s, false, y).errcode == 61000
  {
  }
}
