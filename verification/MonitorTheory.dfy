/** What the silence of the RVFI monitor means for the instructions it has seen. */
module MonitorTheory {
  import opened MachineTypes
  import opened Rvfi
  import opened ReorderBuffers
  import opened ReorderTheory
  import opened RvfiMonitor

  ghost predicate AfterReset(s: Registers) {
    && WellSized(s) && JustReset(s.rob)
    && s.recordErr == 0 && s.pcErr == 0 && s.regErr == 0 && s.errcode == 0
    && !s.pcValid && !s.pcTrap && s.xvalid == OnlyX0() && s.xregs[0] == 0
  }

  /** One clock with reset asserted brings the monitor from any state to its start. */
  lemma ResetStarts(s: Registers, input: Option<Slot>)
    requires WellSized(s)
    ensures AfterReset(ResetStep(s, input))
  {
    ResetResets(s.rob, input);
  }

  ghost function MonitorRun(isa: Isa, s: Registers, ins: seq<Option<Slot>>): (s': Registers)
    requires WellSized(s)
    ensures WellSized(s')
  {
    if ins == [] then s else ClockStep(isa, MonitorRun(isa, s, ins[..|ins| - 1]), ins[|ins| - 1])
  }

  /** The error output stayed 0. */
  ghost predicate NoErrors(isa: Isa, s: Registers, ins: seq<Option<Slot>>)
    requires WellSized(s)
  {
    MonitorRun(isa, s, ins).errcode == 0 && (ins == [] || NoErrors(isa, s, ins[..|ins| - 1]))
  }

  ghost predicate Calm(s: Registers) {
    s.recordErr == 0 && s.rob.errcode == 0 && s.pcErr == 0 && s.regErr == 0
  }

  /** No error register was ever set. */
  ghost predicate Quiet(isa: Isa, s: Registers, ins: seq<Option<Slot>>)
    requires WellSized(s)
  {
    Calm(MonitorRun(isa, s, ins)) && (ins == [] || Quiet(isa, s, ins[..|ins| - 1]))
  }

  /** The error output follows the error registers one clock later. */
  lemma {:induction false} ErrorsShow(isa: Isa, s: Registers, ins: seq<Option<Slot>>)
    requires AfterReset(s) && ins != [] && NoErrors(isa, s, ins)
    ensures Quiet(isa, s, ins[..|ins| - 1])
    decreases |ins|
  {
    var before := ins[..|ins| - 1];
    if before != [] { ErrorsShow(isa, s, before); }
  }

  // ----- the sequential machine the monitor checks against

  /** The registers whose value is known after these instructions, x0 included, with that value. */
  ghost function Known(os: seq<Slot>): map<Reg, U32> {
    if os == [] then map[0 := 0] else
      var o := os[|os| - 1].data;
      Known(os[..|os| - 1])[o.rdAddr := o.rdData]
  }

  /** The sources of o that are known hold their known values. */
  ghost predicate ReadsKnown(o: Record, known: map<Reg, U32>) {
    && (o.rs1Addr in known ==> o.rs1Data == known[o.rs1Addr])
    && (o.rs2Addr in known ==> o.rs2Data == known[o.rs2Addr])
  }

  /** o starts where the instruction before it left off, unless one of them is a trap or interrupt. */
  ghost predicate Follows(before: Record, o: Record) {
    !before.trap && !o.intr ==> o.pcRdata == before.pcWdata
  }

  /** The instructions execute one after the other. */
  ghost predicate Sequential(os: seq<Slot>) {
    os != [] ==>
      var before, o := os[..|os| - 1], os[|os| - 1].data;
      Sequential(before) && ReadsKnown(o, Known(before)) && (before != [] ==> Follows(os[|os| - 2].data, o))
  }

  /** The record passed its own checks. */
  ghost predicate Checked(isa: Isa, o: Record) {
    var p := isa(OperandsOf(o));
    p.valid ==> Agrees(o, p)
  }

  // ----- the invariant of a quiet run

  /** The shadow program counter and registers reflect the instructions checked so far. */
  ghost predicate Shadows(s: Registers, os: seq<Slot>) {
    && WellSized(s)
    && (os == [] ==> !s.pcValid && !s.pcTrap)
    && (os != [] ==> var o := os[|os| - 1].data; s.pcValid == !o.trap && s.pcTrap == o.trap && s.pc == o.pcWdata)
    && (forall r: Reg :: s.xvalid[r] <==> r in Known(os))
    && (forall r: Reg :: r in Known(os) ==> s.xregs[r] == Known(os)[r])
  }

  /** The shadow registers after taking in o. */
  ghost function TakenIn(s: Registers, o: Record): Registers
    requires WellSized(s)
  {
    s.(pcValid := !o.trap, pcTrap := o.trap, pc := o.pcWdata,
       xvalid := s.xvalid[o.rdAddr := true], xregs := s.xregs[o.rdAddr := o.rdData])
  }

  /** Checking one more instruction without an error. */
  lemma ShadowStep(s: Registers, os: seq<Slot>, x: Slot)
    requires Shadows(s, os) && Sequential(os)
    requires PcCode(s.pcValid, s.pcTrap, s.pc, x.data) == 0 && RegCode(s.xvalid, s.xregs, x.data) == 0
    ensures Sequential(os + [x])
    ensures Shadows(TakenIn(s, x.data), os + [x])
  {
    var os' := os + [x];
    assert os'[..|os'| - 1] == os;
    assert Known(os') == Known(os)[x.data.rdAddr := x.data.rdData];
  }

  /** The records the shadow checkers have taken in: all that came out but the one now at the output. */
  ghost function Consumed(r: State, ins: seq<Option<Slot>>): seq<Slot>
    requires Sized(r)
  {
    if ins == [] then [] else Outputs(r, ins[..|ins| - 1])
  }

  lemma {:induction false} QuietRun(isa: Isa, s: Registers, ins: seq<Option<Slot>>)
    requires AfterReset(s) && Quiet(isa, s, ins)
    ensures MonitorRun(isa, s, ins).rob == Run(s.rob, ins) && Silent(s.rob, ins)
    ensures Outputs(s.rob, ins) ==
      Consumed(s.rob, ins) + (if Run(s.rob, ins).out.Some? then [Run(s.rob, ins).out.value] else [])
    ensures Sequential(Consumed(s.rob, ins)) && Shadows(MonitorRun(isa, s, ins), Consumed(s.rob, ins))
    ensures forall x :: x in Arrivals(ins) ==> Checked(isa, x.data)
    decreases |ins|
  {
    hide Sequential, Shadows, Agrees, RecordCode, PcCode, RegCode, ReorderBuffers.Step;
    if ins == [] {
      ShadowsStart(s);
    } else {
      var before, last := ins[..|ins| - 1], ins[|ins| - 1];
      QuietRun(isa, s, before);
      var t := MonitorRun(isa, s, before);
      if t.rob.out.Some? {
        ShadowStep(t, Consumed(s.rob, before), t.rob.out.value);
        ShadowsOnly(TakenIn(t, t.rob.out.value.data), MonitorRun(isa, s, ins), Consumed(s.rob, ins));
      } else {
        assert Consumed(s.rob, ins) == Consumed(s.rob, before);
        ShadowsOnly(t, MonitorRun(isa, s, ins), Consumed(s.rob, ins));
      }
      if last.Some? {
        CodeZeroIsAgreement(last.value.data, isa(OperandsOf(last.value.data)));
      }
    }
  }

  lemma ShadowsStart(s: Registers)
    requires AfterReset(s)
    ensures Shadows(s, []) && Sequential([])
  {
  }

  /** Only the shadow registers matter to the invariant. */
  lemma ShadowsOnly(s: Registers, t: Registers, os: seq<Slot>)
    requires Shadows(s, os) && WellSized(t)
    requires t.pcValid == s.pcValid && t.pcTrap == s.pcTrap && t.pc == s.pc && t.xvalid == s.xvalid
    requires t.xregs == s.xregs
    ensures Shadows(t, os)
  {
  }

  lemma {:induction false} SequentialPrefix(os: seq<Slot>, n: nat)
    requires Sequential(os) && n <= |os|
    ensures Sequential(os[..n])
    decreases |os|
  {
    if n < |os| {
      SequentialPrefix(os[..|os| - 1], n);
      assert os[..|os| - 1][..n] == os[..n];
    } else {
      assert os[..n] == os;
    }
  }

  lemma ConsumedOfOutputs(r: State, ins: seq<Option<Slot>>)
    requires Sized(r) && Sequential(Outputs(r, ins))
    ensures Sequential(Consumed(r, ins))
  {
    if ins != [] {
      var earlier := Outputs(r, ins[..|ins| - 1]);
      assert Outputs(r, ins)[..|earlier|] == earlier;
      SequentialPrefix(Outputs(r, ins), |earlier|);
    }
  }

  /** The shadow registers raise no error for an instruction that continues the stream. */
  lemma ShadowAccepts(s: Registers, os: seq<Slot>, x: Slot)
    requires Shadows(s, os) && Sequential(os + [x])
    ensures Sequential(os) && PcCode(s.pcValid, s.pcTrap, s.pc, x.data) == 0 && RegCode(s.xvalid, s.xregs, x.data) == 0
  {
    var os' := os + [x];
    assert os'[..|os'| - 1] == os;
  }

  /** What is consumed by the end of a clock. */
  lemma ConsumedNext(isa: Isa, s: Registers, ins: seq<Option<Slot>>)
    requires AfterReset(s) && ins != [] && Quiet(isa, s, ins[..|ins| - 1])
    ensures var before := ins[..|ins| - 1];
      var out := MonitorRun(isa, s, before).rob.out;
      && Consumed(s.rob, ins) == Consumed(s.rob, before) + (if out.Some? then [out.value] else [])
      && Shadows(MonitorRun(isa, s, before), Consumed(s.rob, before))
      && MonitorRun(isa, s, ins).rob == Run(s.rob, ins)
  {
    hide Sequential, Shadows, Quiet, Checked;
    QuietRun(isa, s, ins[..|ins| - 1]);
  }

  /** The converse: a silent buffer, a sequential stream and agreeing records set no error register. */
  lemma {:induction false} SequentialIsQuiet(isa: Isa, s: Registers, ins: seq<Option<Slot>>)
    requires AfterReset(s) && Silent(s.rob, ins) && Sequential(Consumed(s.rob, ins))
    requires forall x :: x in Arrivals(ins) ==> Checked(isa, x.data)
    ensures Quiet(isa, s, ins) && NoErrors(isa, s, ins)
    decreases |ins|
  {
    hide Sequential, Shadows, Checked, RecordCode, PcCode, RegCode, ReorderBuffers.Step;
    if ins != [] {
      var before, last := ins[..|ins| - 1], ins[|ins| - 1];
      ConsumedOfOutputs(s.rob, before);
      SequentialIsQuiet(isa, s, before);
      ConsumedNext(isa, s, ins);
      var t := MonitorRun(isa, s, before);
      if t.rob.out.Some? { ShadowAccepts(t, Consumed(s.rob, before), t.rob.out.value); }
      if last.Some? { CheckedCode(isa, last.value); }
      assert ClockStep(isa, t, last) == MonitorRun(isa, s, ins);
    }
  }

  lemma CheckedCode(isa: Isa, x: Slot)
    ensures Checked(isa, x.data) <==> RecordCode(x.data, isa(OperandsOf(x.data))) == 0
  {
    hide Agrees, RecordCode;
    CodeZeroIsAgreement(x.data, isa(OperandsOf(x.data)));
  }

  /** The error registers of the monitor are an exact test: none is ever set if and only if the buffer
      reports no misnumbered record, the stream it has passed on executes sequentially, and every record
      agrees with its specification. */
  lemma MonitorIsExact(isa: Isa, s: Registers, ins: seq<Option<Slot>>)
    requires AfterReset(s)
    ensures Quiet(isa, s, ins) <==>
      Silent(s.rob, ins) && Sequential(Consumed(s.rob, ins)) && forall x :: x in Arrivals(ins) ==> Checked(isa, x.data)
  {
    hide Quiet, Sequential, Checked, Silent;
    if Quiet(isa, s, ins) { QuietRun(isa, s, ins); }
    if Silent(s.rob, ins) && Sequential(Consumed(s.rob, ins))
      && forall x :: x in Arrivals(ins) ==> Checked(isa, x.data) {
      SequentialIsQuiet(isa, s, ins);
    }
  }

  lemma SoundFrom(isa: Isa, s: Registers, ins: seq<Option<Slot>>)
    requires AfterReset(s) && |ins| >= 2 && NoErrors(isa, s, ins)
    ensures var os := Outputs(s.rob, ins[..|ins| - 2]);
      && Sequential(os)
      && (forall k: nat :: k < |os| ==> os[k].order == Wrap(k))
      && multiset(os) <= multiset(Arrivals(ins[..|ins| - 2]))
    ensures forall x :: x in Arrivals(ins[..|ins| - 1]) ==> Checked(isa, x.data)
  {
    hide Sequential, Checked, Silent, Contents, Quiet;
    var seen, earlier := ins[..|ins| - 1], ins[..|ins| - 2];
    ErrorsShow(isa, s, ins);
    QuietRun(isa, s, seen);
    assert seen[..|seen| - 1] == earlier;
    assert Silent(s.rob, earlier) by { SilentBefore(s.rob, seen); }
    SilenceIsExact(s.rob, earlier);
  }

  /** Soundness: after a clock with reset in any state, while the error output of the monitor stays 0, up
      to its two clocks of delay, the reordered stream is numbered without gaps, contains only records
      that arrived, executes sequentially, and every record that arrived agrees with its specification. */
  lemma MonitorSound(isa: Isa, any: Registers, input: Option<Slot>, ins: seq<Option<Slot>>)
    requires WellSized(any) && |ins| >= 2 && NoErrors(isa, ResetStep(any, input), ins)
    ensures var os := Outputs(ResetStep(any, input).rob, ins[..|ins| - 2]);
      && Sequential(os)
      && (forall k: nat :: k < |os| ==> os[k].order == Wrap(k))
      && multiset(os) <= multiset(Arrivals(ins[..|ins| - 2]))
    ensures forall x :: x in Arrivals(ins[..|ins| - 1]) ==> Checked(isa, x.data)
  {
    hide Sequential, Checked, NoErrors, ResetStep, AfterReset;
    ResetStarts(any, input);
    SoundFrom(isa, ResetStep(any, input), ins);
  }

  lemma ArrivedBefore(ins: seq<Option<Slot>>)
    requires ins != []
    ensures forall x :: x in Arrivals(ins[..|ins| - 1]) ==> x in Arrivals(ins)
  {
  }

  lemma SilentBefore(r: State, ins: seq<Option<Slot>>)
    requires Sized(r) && ins != [] && Silent(r, ins)
    ensures Silent(r, ins[..|ins| - 1])
  {
  }

  // ----- no false alarms

  /** A program order as the reorder buffer numbers it. */
  ghost function Numbered(program: seq<Record>): (os: seq<Slot>)
    ensures |os| == |program| && forall k: nat :: k < |program| ==> os[k] == Slot(Wrap(k), program[k])
  {
    seq(|program|, k requires 0 <= k < |program| => Slot(Wrap(k), program[k]))
  }

  /** Records of the program, each at its index. */
  ghost predicate Retires(xs: seq<Option<Stamped>>, program: seq<Record>) {
    forall k :: 0 <= k < |xs| && xs[k].Some? ==>
      xs[k].value.index < |program| && xs[k].value.data == program[xs[k].value.index]
  }

  lemma {:induction false} ReceivedOfProgram(xs: seq<Option<Stamped>>, program: seq<Record>)
    requires Retires(xs, program)
    ensures forall i :: i in Received(xs) ==> i < |program| && Received(xs)[i] == program[i]
    decreases |xs|
  {
    if xs != [] { ReceivedOfProgram(xs[..|xs| - 1], program); }
  }

  lemma {:induction false} ArrivalsOfProgram(xs: seq<Option<Stamped>>, program: seq<Record>)
    requires Retires(xs, program)
    ensures forall x :: x in Arrivals(EncodeAll(xs)) ==> x.data in program
    decreases |xs|
  {
    if xs != [] {
      ArrivalsOfProgram(xs[..|xs| - 1], program);
      assert EncodeAll(xs)[..|xs| - 1] == EncodeAll(xs[..|xs| - 1]);
    }
  }

  /** What has come out of the buffer is a prefix of the program. */
  lemma OutputsAreProgram(r: State, xs: seq<Option<Stamped>>, program: seq<Record>)
    requires JustReset(r) && WellTimed(r, xs) && Retires(xs, program)
    ensures Silent(r, EncodeAll(xs))
    ensures var os := Outputs(r, EncodeAll(xs)); |os| <= |program| && os == Numbered(program)[..|os|]
  {
    hide WellTimed, Silent, InWindow, EncodeAll, Outputs, Received, Wrap, Retires;
    Reserializes(r, xs);
    ReceivedOfProgram(xs, program);
    var os := Outputs(r, EncodeAll(xs));
    assert |os| > 0 ==> os[|os| - 1] == Slot(Wrap(|os| - 1), Received(xs)[|os| - 1]);
  }

  /** Completeness: a program that executes sequentially and agrees with its specification, retired in
      any order that keeps each record within 256 of the next one due, sets no error register and shows
      no error, from a clock with reset in any state on. */
  lemma NoFalseAlarm(isa: Isa, any: Registers, input: Option<Slot>, program: seq<Record>, xs: seq<Option<Stamped>>)
    requires WellSized(any) && WellTimed(ResetStep(any, input).rob, xs) && Retires(xs, program)
    requires Sequential(Numbered(program)) && forall o :: o in program ==> Checked(isa, o)
    ensures Quiet(isa, ResetStep(any, input), EncodeAll(xs)) && NoErrors(isa, ResetStep(any, input), EncodeAll(xs))
  {
    hide WellTimed, Silent, EncodeAll, Outputs, Retires, Checked, Quiet, NoErrors, ResetStep, Sequential, Numbered;
    var s, ins := ResetStep(any, input), EncodeAll(xs);
    ResetStarts(any, input);
    OutputsAreProgram(s.rob, xs, program);
    SequentialPrefix(Numbered(program), |Outputs(s.rob, ins)|);
    ConsumedOfOutputs(s.rob, ins);
    ArrivalsOfProgram(xs, program);
    SequentialIsQuiet(isa, s, ins);
  }

  // ----- what is and what is not checked

  /** The specification leaves x0 at 0. */
  ghost predicate KeepsX0(isa: Isa) {
    forall x: Operands :: isa(x).rdAddr == 0 ==> isa(x).rdData == 0
  }

  /** The k-th instruction computes what the ISA computes from the architectural state: its result and
      next pc are the specified functions of its operands, and a source register that is known is read
      correctly - provided the record names that register, which is checked for all but x0. */
  ghost predicate Executes(isa: Isa, o: Record, known: map<Reg, U32>) {
    var p := isa(OperandsOf(o));
    && 0 in known && known[0] == 0
    && o.rdAddr == p.rdAddr && o.rdData == p.rdData && o.pcWdata == p.pcWdata
    && (p.rs1Addr in known && (p.rs1Addr != 0 || o.rs1Addr == 0) ==> o.rs1Data == known[p.rs1Addr])
    && (p.rs2Addr in known && (p.rs2Addr != 0 || o.rs2Addr == 0) ==> o.rs2Data == known[p.rs2Addr])
  }

  lemma {:induction false} X0StaysZero(isa: Isa, os: seq<Slot>)
    requires KeepsX0(isa)
    requires forall x :: x in os ==> isa(OperandsOf(x.data)).valid && Checked(isa, x.data)
    ensures 0 in Known(os) && Known(os)[0] == 0
    decreases |os|
  {
    if os != [] {
      var x := os[|os| - 1];
      X0StaysZero(isa, os[..|os| - 1]);
      assert isa(OperandsOf(x.data)).valid && Checked(isa, x.data);
    }
  }

  /** Sequential, checked records of specified instructions are an execution of the ISA. */
  lemma {:induction false} SequentialExecutes(isa: Isa, os: seq<Slot>, k: nat)
    requires KeepsX0(isa) && Sequential(os) && k < |os|
    requires forall x :: x in os ==> isa(OperandsOf(x.data)).valid && Checked(isa, x.data)
    ensures Executes(isa, os[k].data, Known(os[..k]))
    ensures k > 0 ==> Follows(os[k - 1].data, os[k].data)
    decreases |os|
  {
    var before := os[..|os| - 1];
    if k == |os| - 1 {
      X0StaysZero(isa, before);
      assert Checked(isa, os[k].data);
    } else {
      SequentialExecutes(isa, before, k);
      assert before[..k] == os[..k];
    }
  }

  /** The check for an interrupt after a trap can never fire, on no run, with errors or without: the
      shadow pc is never valid after a trap, so that the next pc is not checked at all. */
  lemma {:induction false} TrapCheckIsDead(isa: Isa, any: Registers, input: Option<Slot>, ins: seq<Option<Slot>>)
    requires WellSized(any)
    ensures var t := MonitorRun(isa, ResetStep(any, input), ins);
      && !(t.pcValid && t.pcTrap) && t.pcErr != 133
      && forall o: Record :: t.pcTrap ==> PcCode(t.pcValid, t.pcTrap, t.pc, o) == 0
    decreases |ins|
  {
    hide RecordCode, RegCode, ReorderBuffers.Step;
    if ins != [] { TrapCheckIsDead(isa, any, input, ins[..|ins| - 1]); }
  }

  // ----- registers read before they are written

  /** What a source holds in a machine started with these registers. */
  ghost predicate ReadsFrom(file: seq<U32>, known: map<Reg, U32>, a: Reg, v: U32)
    requires |file| == XREGS
  {
    v == if a in known then known[a] else file[a]
  }

  /** All sources are read from a machine started with these registers. */
  ghost predicate Explained(file: seq<U32>, os: seq<Slot>)
    requires |file| == XREGS
  {
    os != [] ==>
      var before, o := os[..|os| - 1], os[|os| - 1].data;
      && Explained(file, before)
      && ReadsFrom(file, Known(before), o.rs1Addr, o.rs1Data)
      && ReadsFrom(file, Known(before), o.rs2Addr, o.rs2Data)
  }

  ghost function Note(known: map<Reg, U32>, first: map<Reg, U32>, a: Reg, v: U32): map<Reg, U32> {
    if a in known || a in first then first else first[a := v]
  }

  /** The first value read of each register read before it was written. */
  ghost function FirstReads(os: seq<Slot>): map<Reg, U32> {
    if os == [] then map[] else
      var before, o := os[..|os| - 1], os[|os| - 1].data;
      var known := Known(before);
      Note(known, Note(known, FirstReads(before), o.rs1Addr, o.rs1Data), o.rs2Addr, o.rs2Data)
  }

  /** Reads of a register that is not yet written all give the same value. */
  ghost predicate Consistent(os: seq<Slot>) {
    os != [] ==>
      var before, o := os[..|os| - 1], os[|os| - 1].data;
      var known := Known(before);
      var first := Note(known, FirstReads(before), o.rs1Addr, o.rs1Data);
      && Consistent(before)
      && (o.rs1Addr in known || first[o.rs1Addr] == o.rs1Data)
      && (o.rs2Addr !in known && o.rs2Addr in first ==> first[o.rs2Addr] == o.rs2Data)
  }

  ghost predicate Starts(file: seq<U32>, first: map<Reg, U32>)
    requires |file| == XREGS
  {
    forall r: Reg :: r in first ==> file[r] == first[r]
  }

  lemma {:induction false} ExplainedFromFirst(file: seq<U32>, os: seq<Slot>)
    requires |file| == XREGS && Starts(file, FirstReads(os)) && Sequential(os) && Consistent(os)
    ensures Explained(file, os)
    decreases |os|
  {
    if os != [] {
      var before, o := os[..|os| - 1], os[|os| - 1].data;
      var known := Known(before);
      var first := Note(known, FirstReads(before), o.rs1Addr, o.rs1Data);
      assert forall r: Reg :: r in FirstReads(before) ==>
        r in FirstReads(os) && FirstReads(os)[r] == FirstReads(before)[r];
      ExplainedFromFirst(file, before);
    }
  }

  lemma {:induction false} FirstFromExplained(file: seq<U32>, os: seq<Slot>)
    requires |file| == XREGS && Explained(file, os)
    ensures Consistent(os) && Starts(file, FirstReads(os))
    decreases |os|
  {
    if os != [] {
      FirstFromExplained(file, os[..|os| - 1]);
    }
  }

  /** The monitor does not check registers before their first write: a sequential stream is an execution
      from some initial register file exactly when such early reads of a register agree. */
  lemma InitialFileExists(os: seq<Slot>)
    requires Sequential(os)
    ensures Consistent(os) <==> exists file: seq<U32> :: |file| == XREGS && Explained(file, os)
  {
    if Consistent(os) {
      var first := FirstReads(os);
      var file: seq<U32> := seq(XREGS, i requires 0 <= i < XREGS => if i in first then first[i] else 0);
      ExplainedFromFirst(file, os);
    }
    if file: seq<U32> :| |file| == XREGS && Explained(file, os) {
      FirstFromExplained(file, os);
    }
  }

  /** A run of the monitor over a program retired in order, one record a clock, and n idle clocks. */
  ghost function InOrderRun(program: seq<Record>, n: nat): seq<Option<Stamped>> {
    Idle(seq(|program|, k requires 0 <= k < |program| => Some(Stamped(k, program[k]))), n)
  }

  lemma TwoAreWellTimed(r: State, x: Record, y: Record)
    requires JustReset(r)
    ensures var xs := [Some(Stamped(0, x)), Some(Stamped(1, y))];
      InOrderRun([x, y], 0) == xs && WellTimed(r, xs) && 0 in Received(xs) && 1 in Received(xs) && Retires(xs, [x, y])
  {
    var one, xs := [Some(Stamped(0, x))], [Some(Stamped(0, x)), Some(Stamped(1, y))];
    assert InOrderRun([x, y], 0) == xs;
    assert one[..|one| - 1] == [] && xs[..|xs| - 1] == one;
    assert EncodeAll([]) == [] && Outputs(r, EncodeAll([])) == [];
    LastClock(r, one);
    assert Received([]) == map[] && WellTimed(r, []);
    assert WellTimed(r, one);
    assert Received(one) == map[0 := x];
  }

  lemma {:induction false} IdleRetires(xs: seq<Option<Stamped>>, program: seq<Record>, n: nat)
    requires Retires(xs, program)
    ensures Retires(Idle(xs, n), program)
  {
    if n > 0 { IdleRetires(xs, program, n - 1); }
  }

  /** So they need not agree: two records that read a register nothing has written, with different
      values, pass all checks and leave the error output 0 for ever. */
  lemma EarlyReadsNeedNotAgree(isa: Isa, any: Registers, input: Option<Slot>, x: Record, y: Record, n: nat)
    requires WellSized(any) && Checked(isa, x) && Checked(isa, y) && Follows(x, y)
    requires x.rs1Addr == y.rs1Addr != 0 && x.rs1Data != y.rs1Data && x.rdAddr == 0 == x.rdData
    requires x.rs2Addr == 0 == x.rs2Data && y.rs2Addr == 0 == y.rs2Data
    ensures !Consistent(Numbered([x, y]))
    ensures var s, ins := ResetStep(any, input), EncodeAll(InOrderRun([x, y], n));
      NoErrors(isa, s, ins) && Sized(s.rob) && (n >= 2 ==> Outputs(s.rob, ins) == Numbered([x, y]))
  {
    hide Checked, ResetStep, EncodeAll, NoErrors, WellTimed, Received, Outputs, Quiet, Silent;
    var s := ResetStep(any, input);
    ResetStarts(any, input);
    TwoAreWellTimed(s.rob, x, y);
    Drains(s.rob, InOrderRun([x, y], 0), 2, n);
    IdleRetires(InOrderRun([x, y], 0), [x, y], n);
    TwoReads(x, y);
    NoFalseAlarm(isa, any, input, [x, y], InOrderRun([x, y], n));
    OutputsAreProgram(s.rob, InOrderRun([x, y], n), [x, y]);
  }

  lemma TwoReads(x: Record, y: Record)
    requires x.rs1Addr == y.rs1Addr != 0 && x.rs1Data != y.rs1Data && x.rdAddr == 0 == x.rdData && Follows(x, y)
    requires x.rs2Addr == 0 == x.rs2Data && y.rs2Addr == 0 == y.rs2Data
    ensures Sequential(Numbered([x, y])) && !Consistent(Numbered([x, y]))
  {
    var os := Numbered([x, y]);
    assert os[..1] == Numbered([x]) && os[..1][..0] == [];
    assert Known([]) == map[0 := 0];
    assert Known(os[..1]) == Known([])[0 := 0] == map[0 := 0];
    assert FirstReads(os[..1]) == Note(Known([]), Note(Known([]), FirstReads([]), x.rs1Addr, x.rs1Data), 0, 0);
    assert Sequential(os[..1]);
  }
}
