/** The reorder buffer of the RVFI monitor: 256 slots that put a stream of retired instructions,
    numbered but out of order, back into order. */
module ReorderBuffers {
  import opened MachineTypes
  import opened Rvfi

  const SLOTS := 256
  const ORDERS := 0x1_0000_0000_0000_0000

  /** What a slot holds: the 64-bit order of a record, and the record. */
  datatype Slot = Slot(order: U64, data: Record)

  /** The registers of the buffer, outputs included. */
  datatype State = State(buffer: seq<Slot>, valid: seq<bool>, cursor: U64, out: Option<Slot>, errcode: U16)

  ghost predicate Sized(s: State) {
    |s.buffer| == SLOTS && |s.valid| == SLOTS
  }

  /** The code of a record arriving at a taken slot, and of a record leaving out of turn. */
  function Conflict(k: nat): U16 requires k < SLOTS { 60000 + k }
  function OutOfTurn(k: nat): U16 requires k < SLOTS { 61000 + k }

  /** One clock edge: every right-hand side reads the registers as they were. */
  function Step(s: State, reset: bool, input: Option<Slot>): (s': State)
    requires |s.buffer| == SLOTS && |s.valid| == SLOTS
    ensures |s'.buffer| == SLOTS && |s'.valid| == SLOTS
  {
    if reset then
      s.(valid := seq(SLOTS, _ => false), cursor := 0, out := None, errcode := 0)
    else
      var c := s.cursor % SLOTS;
      var taken := s.valid[c];
      var buffer := if input.Some? then s.buffer[input.value.order % SLOTS := input.value] else s.buffer;
      var arrived := if input.Some? then s.valid[input.value.order % SLOTS := true] else s.valid;
      var conflict := input.Some? && s.valid[input.value.order % SLOTS];
      State(buffer,
            if taken then arrived[c := false] else arrived,
            if taken then (s.cursor + 1) % ORDERS else s.cursor,
            if taken then Some(s.buffer[c]) else None,
            if taken && s.buffer[c].order != s.cursor then OutOfTurn(c)
            else if conflict then Conflict(input.value.order % SLOTS) else 0)
  }

  /** The module riscv_formal_monitor_rv32imc_rob. */
  class ReorderBuffer {
    var buffer: seq<Slot>
    var valid: seq<bool>
    var cursor: U64
    var out: Option<Slot>
    var errcode: U16

    constructor (buffer: seq<Slot>, valid: seq<bool>, cursor: U64)
      requires |buffer| == SLOTS && |valid| == SLOTS
      ensures Valid() && Registers() == State(buffer, valid, cursor, None, 0)
    {
      this.buffer, this.valid, this.cursor, out, errcode := buffer, valid, cursor, None, 0;
    }

    ghost predicate Valid()
      reads this
    {
      |buffer| == SLOTS && |valid| == SLOTS
    }

    ghost function Registers(): State
      reads this
    {
      State(buffer, valid, cursor, out, errcode)
    }

    /** The always block. Non-blocking assignments go to copies that are committed at the end; the
        cursor is assigned directly. */
    method Clock(reset: bool, input: Option<Slot>)
      requires Valid()
      modifies this
      ensures Valid() && Registers() == Step(old(Registers()), reset, input)
    {
      var nextBuffer, nextValid := buffer, valid;
      var nextOut: Option<Slot>, nextErr: U16 := None, 0;
      var continueFlag := true;
      if reset {
        nextValid := seq(SLOTS, _ => false);
        cursor := 0;
      } else {
        match input {
          case Some(x) =>
            var k := x.order % SLOTS;
            if valid[k] {
              nextErr := 60000 + k;
            }
            nextBuffer := nextBuffer[k := x];
            nextValid := nextValid[k := true];
          case None =>
        }
        if continueFlag && valid[cursor % SLOTS] {
          var c := cursor % SLOTS;
          if buffer[c].order != cursor {
            nextErr := 61000 + c;
          }
          nextOut := Some(buffer[c]);
          nextValid := nextValid[c := false];
          cursor := (cursor + 1) % ORDERS;
        } else {
          continueFlag := false;
        }
      }
      buffer, valid, out, errcode := nextBuffer, nextValid, nextOut, nextErr;
    }
  }

  // ----- runs after reset

  ghost predicate JustReset(s: State) {
    Sized(s) && (forall k :: 0 <= k < SLOTS ==> !s.valid[k]) && s.cursor == 0 && s.out == None && s.errcode == 0
  }

  lemma ResetResets(s: State, input: Option<Slot>)
    requires Sized(s)
    ensures JustReset(Step(s, true, input))
  {
  }

  /** The registers after clocking in a sequence of inputs, one a clock. */
  ghost function Run(s: State, ins: seq<Option<Slot>>): (s': State)
    requires Sized(s)
    ensures Sized(s')
  {
    if ins == [] then s else Step(Run(s, ins[..|ins| - 1]), false, ins[|ins| - 1])
  }

  /** What has come out by the end of a run. */
  ghost function Outputs(s: State, ins: seq<Option<Slot>>): seq<Slot>
    requires Sized(s)
  {
    if ins == [] then [] else
      var out := Run(s, ins).out;
      Outputs(s, ins[..|ins| - 1]) + if out.Some? then [out.value] else []
  }

  /** No error was ever reported. */
  ghost predicate Silent(s: State, ins: seq<Option<Slot>>)
    requires Sized(s)
  {
    ins == [] || (Silent(s, ins[..|ins| - 1]) && Run(s, ins).errcode == 0)
  }
}
