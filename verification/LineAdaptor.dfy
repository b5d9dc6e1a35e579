/** The cacheline adaptor: whole lines above, bursts of four 64-bit beats below. Driven by commands that
    are held until they are answered, it is the line memory that the arbiter counts on. */
module LineAdaptor {
  import opened MachineTypes
  import opened LineMemory

  datatype Macro = Idle | WaitR | WaitW | R | W | Done

  type Beat = b: seq<Byte> | |b| == 8 witness seq(8, _ => 0)

  /** The registers; count is two bits wide. */
  datatype Registers = Registers(macro: Macro, count: nat, linebuf: Line, addressbuf: nat)

  /** What the arbiter drives: a read goes before a write. */
  datatype Command = Command(read: bool, write: bool, address: nat, line: Line)

  predicate Active(c: Command) {
    c.read || c.write
  }

  function BeatOf(line: Line, i: nat): Beat
    requires i < 4
  {
    line[8 * i..8 * i + 8]
  }

  function WithBeat(line: Line, i: nat, beat: Beat): Line
    requires i < 4
  {
    line[..8 * i] + beat + line[8 * i + 8..]
  }

  /** burst_o, read_o, write_o and resp_o; line_o and address_o are the buffers themselves. */
  function BurstOut(r: Registers): Beat
    requires r.count < 4
  {
    BeatOf(r.linebuf, r.count)
  }

  predicate ReadOut(r: Registers) { r.macro == WaitR || r.macro == R }

  predicate WriteOut(r: Registers) { r.macro == WaitW || r.macro == W }

  predicate RespOut(r: Registers) { r.macro == Done }

  /** One clock edge. */
  function Next(r: Registers, c: Command, resp: bool, burst: Beat): (r': Registers)
    requires r.count < 4
    ensures r'.count < 4
  {
    match r.macro
    case Idle =>
      if c.read then r.(macro := WaitR, addressbuf := c.address)
      else if c.write then Registers(WaitW, 0, c.line, c.address)
      else r
    case WaitR => if resp then r.(macro := R, count := 1, linebuf := WithBeat(r.linebuf, 0, burst)) else r
    case WaitW => if resp then r.(macro := W, count := 1) else r
    case R =>
      r.(macro := if r.count == 3 then Done else R, count := (r.count + 1) % 4,
        linebuf := WithBeat(r.linebuf, r.count, burst))
    case W => r.(macro := if r.count == 3 then Done else W, count := (r.count + 1) % 4)
    case Done => r.(macro := Idle)
  }

  /** The module cacheline_adaptor. */
  class CachelineAdaptor {
    var macro: Macro
    var count: nat
    var linebuf: Line
    var addressbuf: nat

    constructor (linebuf: Line, addressbuf: nat)
      ensures State() == Registers(Idle, 0, linebuf, addressbuf)
    {
      macro, count, this.linebuf, this.addressbuf := Idle, 0, linebuf, addressbuf;
    }

    ghost function State(): Registers
      reads this
    {
      Registers(macro, count, linebuf, addressbuf)
    }

    method Clock(reset: bool, c: Command, resp: bool, burst: Beat)
      requires count < 4
      modifies this
      ensures count < 4
      ensures State() == if reset then old(State()).(macro := Idle) else Next(old(State()), c, resp, burst)
    {
      if reset {
        macro := Idle;
      } else {
        match macro {
          case Idle =>
            if c.read {
              macro, addressbuf := WaitR, c.address;
            } else if c.write {
              macro, linebuf, addressbuf, count := WaitW, c.line, c.address, 0;
            }
          case WaitR =>
            if resp {
              macro, count := R, 1;
              linebuf := WithBeat(linebuf, 0, burst);
            }
          case WaitW =>
            if resp {
              macro, count := W, 1;
            }
          case R =>
            linebuf := WithBeat(linebuf, count, burst);
            if count == 3 {
              macro := Done;
            }
            count := (count + 1) % 4;
          case W =>
            if count == 3 {
              macro := Done;
            }
            count := (count + 1) % 4;
          case Done =>
            macro := Idle;
        }
      }
    }
  }

  // ----- the burst memory below

  /** The memory, the next beat of the burst under way, and the line that a write burst has gathered. */
  datatype Bursts = Bursts(mem: nat -> Line, beat: nat, gathered: Line)

  datatype System = System(adaptor: Registers, below: Bursts)

  predicate Sized(s: System) {
    s.adaptor.count < 4 && s.below.beat < 4
  }

  /** A burst starts when the memory is ready for a command, and then runs on. */
  predicate Bursting(s: System, ready: bool) {
    s.below.beat > 0 || (ready && (ReadOut(s.adaptor) || WriteOut(s.adaptor)))
  }

  function Delivered(s: System): Beat
    requires Sized(s)
  {
    BeatOf(s.below.mem(s.adaptor.addressbuf), s.below.beat)
  }

  function NextBursts(s: System, ready: bool): Bursts
    requires Sized(s)
  {
    if !Bursting(s, ready) then s.below
    else
      var gathered := WithBeat(s.below.gathered, s.below.beat, BurstOut(s.adaptor));
      Bursts(
        if s.below.beat == 3 && WriteOut(s.adaptor) then WriteLine(s.below.mem, s.adaptor.addressbuf, gathered)
        else s.below.mem,
             (s.below.beat + 1) % 4, gathered)
  }

  function Step(s: System, c: Command, ready: bool): (s': System)
    requires Sized(s)
    ensures Sized(s')
  {
    System(Next(s.adaptor, c, Bursting(s, ready), Delivered(s)), NextBursts(s, ready))
  }

  // ----- as a line memory

  datatype Cycle = Cycle(command: Command, ready: bool)

  ghost function Run(start: System, cs: seq<Cycle>): (s: System)
    requires Sized(start)
    ensures Sized(s)
  {
    if cs == [] then start else Step(Run(start, cs[..|cs| - 1]), cs[|cs| - 1].command, cs[|cs| - 1].ready)
  }

  /** A command that is not answered is still there in the next cycle. */
  predicate Holding(s: System, c: Command, next: Command) {
    Active(c) && !RespOut(s.adaptor) ==> next == c
  }

  ghost predicate Steady(start: System, cs: seq<Cycle>)
    requires Sized(start)
  {
    forall k | 0 < k < |cs| :: HoldsAt(start, cs, k)
  }

  ghost predicate HoldsAt(start: System, cs: seq<Cycle>, k: int)
    requires Sized(start) && 0 < k < |cs|
  {
    Holding(Run(start, cs[..k - 1]), cs[k - 1].command, cs[k].command)
  }

  /** The line memory: a write takes effect when it is answered. */
  function LineStep(lines: nat -> Line, answered: bool, c: Command): nat -> Line {
    if answered && !c.read && c.write then WriteLine(lines, c.address, c.line) else lines
  }

  ghost function Lines(start: System, cs: seq<Cycle>): nat -> Line
    requires Sized(start)
  {
    if cs == [] then start.below.mem
    else
      var before, c := cs[..|cs| - 1], cs[|cs| - 1];
      LineStep(Lines(start, before), RespOut(Run(start, before).adaptor), c.command)
  }

  /** The first n beats of two lines agree. */
  predicate SameBeats(a: Line, b: Line, n: nat)
    requires n <= 4
  {
    a[..8 * n] == b[..8 * n]
  }

  /** Where the adaptor and the memory are with command c, the memory above being lines. */
  ghost predicate Inv(s: System, c: Command, lines: nat -> Line) {
    var r, b := s.adaptor, s.below;
    && Sized(s)
    && (r.macro != Idle ==> Active(c) && r.addressbuf == c.address)
    && (r.macro == WaitR || r.macro == R ==> c.read && b.mem == lines)
    && (r.macro == WaitW || r.macro == W ==> !c.read && b.mem == lines && r.linebuf == c.line)
    && b.beat == (if r.macro == R || r.macro == W then r.count else 0)
    && match r.macro
       case Idle => b.mem == lines
       case WaitR => true
       case WaitW => r.count == 0
       case R => r.count > 0 && SameBeats(r.linebuf, lines(c.address), r.count)
       case W => r.count > 0 && SameBeats(b.gathered, c.line, r.count)
       case Done =>
         if c.read then b.mem == lines && r.linebuf == lines(c.address)
         else b.mem == WriteLine(lines, c.address, c.line)
  }

  lemma OneMoreBeat(a: Line, b: Line, i: nat)
    requires i < 4 && SameBeats(a, b, i)
    ensures SameBeats(WithBeat(a, i, BeatOf(b, i)), b, i + 1)
  {
    var a' := WithBeat(a, i, BeatOf(b, i));
    forall j | 0 <= j < 8 * (i + 1) ensures a'[j] == b[j] {
      if j < 8 * i { assert a[..8 * i][j] == b[..8 * i][j]; }
    }
  }

  lemma AllBeats(a: Line, b: Line)
    requires SameBeats(a, b, 4)
    ensures a == b
  {
    assert a[..32] == a && b[..32] == b;
  }

  lemma ReadStep(s: System, c: Command, ready: bool, lines: nat -> Line)
    requires Inv(s, c, lines) && ReadOut(s.adaptor)
    ensures Inv(Step(s, c, ready), c, lines)
  {
    var r, b := s.adaptor, s.below;
    if Bursting(s, ready) {
      OneMoreBeat(r.linebuf, lines(c.address), b.beat);
      if b.beat == 3 { AllBeats(Step(s, c, ready).adaptor.linebuf, lines(c.address)); }
    }
    hide SameBeats, WithBeat, BeatOf;
  }

  lemma WriteStep(s: System, c: Command, ready: bool, lines: nat -> Line)
    requires Inv(s, c, lines) && WriteOut(s.adaptor)
    ensures Inv(Step(s, c, ready), c, lines)
  {
    var r, b := s.adaptor, s.below;
    if Bursting(s, ready) {
      OneMoreBeat(b.gathered, c.line, b.beat);
      if b.beat == 3 { AllBeats(NextBursts(s, ready).gathered, c.line); }
    }
    hide SameBeats, WithBeat, BeatOf;
  }

  lemma StepInv(s: System, c: Command, ready: bool, next: Command, lines: nat -> Line)
    requires Inv(s, c, lines) && Holding(s, c, next)
    ensures Inv(Step(s, c, ready), next, LineStep(lines, RespOut(s.adaptor), c))
    ensures RespOut(s.adaptor) ==> Active(c) && (c.read ==> s.adaptor.linebuf == lines(c.address))
  {
    hide SameBeats, WithBeat, BeatOf;
    if ReadOut(s.adaptor) {
      ReadStep(s, c, ready, lines);
    } else if WriteOut(s.adaptor) {
      WriteStep(s, c, ready, lines);
    }
  }

  lemma {:induction false} RunInv(start: System, cs: seq<Cycle>, k: nat)
    requires Sized(start) && Steady(start, cs) && k < |cs| && start.adaptor.macro == Idle && start.below.beat == 0
    ensures Inv(Run(start, cs[..k]), cs[k].command, Lines(start, cs[..k]))
  {
    if k > 0 {
      RunInv(start, cs, k - 1);
      assert cs[..k][..k - 1] == cs[..k - 1];
      assert HoldsAt(start, cs, k);
      StepInv(Run(start, cs[..k - 1]), cs[k - 1].command, cs[k - 1].ready, cs[k].command, Lines(start, cs[..k - 1]));
      hide Inv, Step, LineStep;
    }
  }

  /** Every response answers a command that is there; a read gets the line that the answered writes
      have left, and each answered write counts once and whole. */
  lemma IsLineMemory(start: System, cs: seq<Cycle>, k: nat)
    requires Sized(start) && Steady(start, cs) && k < |cs| && start.adaptor.macro == Idle && start.below.beat == 0
    ensures var s, c := Run(start, cs[..k]), cs[k].command;
      && (RespOut(s.adaptor) ==> Active(c) && (c.read ==> s.adaptor.linebuf == Lines(start, cs[..k])(c.address)))
      && (s.adaptor.macro == Idle ==> s.below.mem == Lines(start, cs[..k]))
  {
    RunInv(start, cs, k);
  }
}
