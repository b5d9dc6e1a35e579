/** The memory path of the top level as it is wired: both first-level caches, the arbiter, the cacheline
    adaptor and the burst memory. Clock by clock it is the memory system over one line memory, so that
    what holds of that system holds here. */
module WholeMemory {
  import opened LineMemory
  import opened Cache
  import opened ReadOnlyCache
  import A = CacheArbiter
  import LA = LineAdaptor
  import MS = MemorySystem
  import MP = MemoryProgress

  datatype Whole = Whole(data: Cache.State, inst: Cache.State, grant: A.Grant, line: LA.System)

  /** The port of the instruction cache has its write line tied low. */
  type Fetch = q: Request | !q.write witness Request(false, false, 0, [0, 0, 0, 0], [false, false, false, false])

  /** One clock: what the processor asks of either cache, and whether the memory is ready for a burst. */
  datatype Cycle = Cycle(cpu: Request, fetch: Fetch, ready: bool)

  predicate Sized(s: Whole) {
    Shapely(s.data) && Shapely(s.inst) && LA.Sized(s.line)
  }

  /** The response and the line that the adaptor drives. */
  predicate Resp(s: Whole) {
    LA.RespOut(s.line.adaptor)
  }

  function Bus(s: Whole): Line {
    s.line.adaptor.linebuf
  }

  /** What the memory system above the adaptor sees of a clock. */
  function Seen(s: Whole, c: Cycle): MS.Cycle
    requires Sized(s)
  {
    var inst := Drive(s.inst, c.fetch, Bus(s));
    MS.Cycle(c.cpu, inst.pmemRead, inst.pmemLine, Resp(s), Bus(s))
  }

  /** Data cache and arbiter above a line memory. */
  function View(s: Whole, lines: nat -> Line): MS.System {
    MS.System(s.data, s.grant, lines)
  }

  function Wires(s: Whole, c: Cycle): A.Requests
    requires Sized(s)
  {
    MS.Wires(View(s, s.line.below.mem), Seen(s, c))
  }

  /** What the arbiter tells the adaptor. */
  function CommandOf(s: Whole, c: Cycle): LA.Command
    requires Sized(s)
  {
    var command := A.Command(s.grant, Wires(s, c));
    LA.Command(command.cacheRead, command.cacheWrite, command.cacheAddr, command.cacheWdata)
  }

  /** What it hands to the caches. */
  function Below(s: Whole, c: Cycle): A.Outputs
    requires Sized(s)
  {
    A.Actions(s.grant, Wires(s, c), Resp(s), Bus(s))
  }

  /** What the processor gets back, from either cache. */
  function Answer(s: Whole, c: Cycle): Outputs
    requires Sized(s)
  {
    Drive(s.data, c.cpu, Below(s, c).dataOut)
  }

  function Fetched(s: Whole, c: Cycle): Outputs
    requires Sized(s)
  {
    Drive(s.inst, c.fetch, Below(s, c).iData)
  }

  function Step(s: Whole, c: Cycle): (s': Whole)
    requires Sized(s)
    ensures Sized(s')
  {
    var below := Below(s, c);
    Whole(Next(s.data, c.cpu, below.dataResp, below.dataOut), Next(s.inst, c.fetch, below.iResp, below.iData),
          A.NextGrant(s.grant, Wires(s, c), Resp(s)), LA.Step(s.line, CommandOf(s, c), c.ready))
  }

  /** After reset, with any memory below. */
  ghost predicate Starts(s: Whole, mem: nat -> Line) {
    && Sized(s) && s.data == Reset(|s.data.sets|, |s.data.sets[0]|) && s.inst == Reset(|s.inst.sets|, |s.inst.sets[0]|)
    && s.grant == A.Decode && s.line.adaptor.macro == LA.Idle && s.line.below.beat == 0 && s.line.below.mem == mem
  }

  /** There is such a state for any sets and ways, memory, and contents of the registers without reset. */
  ghost function Start(dataSets: nat, dataWays: nat, instSets: nat, instWays: nat, mem: nat -> Line, bus: Line,
                       address: nat): (s: Whole)
    requires dataSets > 0 && dataWays > 0 && instSets > 0 && instWays > 0
    ensures Starts(s, mem)
  {
    Whole(Reset(dataSets, dataWays), Reset(instSets, instWays), A.Decode,
          LA.System(LA.Registers(LA.Idle, 0, bus, address), LA.Bursts(mem, 0, bus)))
  }

  ghost function Run(start: Whole, cs: seq<Cycle>): (s: Whole)
    requires Sized(start)
    ensures Sized(s)
  {
    if cs == [] then start else Step(Run(start, cs[..|cs| - 1]), cs[|cs| - 1])
  }

  /** The processor holds its requests until they are answered. */
  predicate Holding(s: Whole, c: Cycle, next: Cycle)
    requires Sized(s)
  {
    && (Active(c.cpu) && !Answer(s, c).memResp ==> next.cpu == c.cpu)
    && (Active(c.fetch) && !Fetched(s, c).memResp ==> next.fetch == c.fetch)
  }

  ghost predicate Stable(start: Whole, cs: seq<Cycle>)
    requires Sized(start)
  {
    forall k | 0 < k < |cs| :: HoldsAt(start, cs, k)
  }

  ghost predicate HoldsAt(start: Whole, cs: seq<Cycle>, k: int)
    requires Sized(start) && 0 < k < |cs|
  {
    Holding(Run(start, cs[..k - 1]), cs[k - 1], cs[k])
  }

  /** The plain memory, and the line memory that the adaptor makes of the bursts. */
  ghost function Plain(start: Whole, cs: seq<Cycle>): nat -> Line
    requires Sized(start)
  {
    if cs == [] then start.line.below.mem
    else
      var before, c := cs[..|cs| - 1], cs[|cs| - 1];
      MS.PlainStep(Plain(start, before), Answer(Run(start, before), c).memResp, c.cpu)
  }

  ghost function Lines(start: Whole, cs: seq<Cycle>): nat -> Line
    requires Sized(start)
  {
    if cs == [] then start.line.below.mem
    else
      var before, c := cs[..|cs| - 1], cs[|cs| - 1];
      LA.LineStep(Lines(start, before), Resp(Run(start, before)), CommandOf(Run(start, before), c))
  }

  // ----- the invariant

  ghost predicate Inv(s: Whole, c: Cycle, plain: nat -> Line, lines: nat -> Line) {
    && Sized(s)
    && MS.Inv(View(s, lines), c.cpu, plain) && MP.GrantAsked(View(s, lines), c.cpu)
    && LA.Inv(s.line, CommandOf(s, c), lines)
    && Clean(s.inst) && Fetching(s.inst, c.fetch)
    && (s.grant == A.ICache ==> s.inst.phase == ReadMem)
  }

  /** A clock of the whole path is a clock of the memory system over the line memory. */
  lemma Simulates(s: Whole, c: Cycle, lines: nat -> Line)
    requires Sized(s) && LA.Inv(s.line, CommandOf(s, c), lines)
    ensures MS.Sized(View(s, lines))
    ensures MS.Below(View(s, lines), Seen(s, c)) == Below(s, c) && MS.Answer(View(s, lines), Seen(s, c)) == Answer(s, c)
    ensures MS.Step(View(s, lines), Seen(s, c)) == View(Step(s, c), LA.LineStep(lines, Resp(s), CommandOf(s, c)))
  {
    hide Drive, Next, LA.Step;
    assert MS.Wires(View(s, lines), Seen(s, c)) == Wires(s, c);
  }

  /** A command that is not answered is still there in the next clock. */
  lemma CommandHolds(s: Whole, c: Cycle, next: Cycle, plain: nat -> Line, lines: nat -> Line)
    requires Inv(s, c, plain, lines) && Holding(s, c, next)
    ensures LA.Holding(s.line, CommandOf(s, c), CommandOf(Step(s, c), next))
  {
    Simulates(s, c, lines);
    if !Resp(s) {
      match s.grant {
        case Decode =>
          hide Drive, Next, LA.Step, LA.Inv, MS.Inv;
        case ICache =>
          FetchHolds(s, c, next);
        case DCache =>
          hide Drive, Next, LA.Step, LA.Inv, MS.Inv, MP.GrantAsked;
          MP.SteadyDownstream(View(s, lines), Seen(s, c), Seen(Step(s, c), next), plain);
      }
    }
  }

  lemma FetchHolds(s: Whole, c: Cycle, next: Cycle)
    requires Sized(s) && Clean(s.inst) && Fetching(s.inst, c.fetch) && Holding(s, c, next)
    requires s.grant == A.ICache && s.inst.phase == ReadMem && !Resp(s)
    ensures CommandOf(Step(s, c), next) == CommandOf(s, c)
  {
    StaysClean(s.inst, c.fetch, false, Below(s, c).iData);
    HoldsCommand(s.inst, c.fetch, next.fetch, Below(s, c).iData, Bus(s));
    NeverWrites(s.inst, c.fetch, Bus(s));
    NeverWrites(Step(s, c).inst, next.fetch, Bus(Step(s, c)));
    hide Selected, IsHit, IndexOf, TagOf, LA.Step, Clean, Fetching, Next;
  }

  /** The part of the instruction cache. */
  lemma FetchPart(s: Whole, c: Cycle, next: Cycle)
    requires Sized(s) && Clean(s.inst) && Fetching(s.inst, c.fetch) && Holding(s, c, next)
    requires s.grant == A.ICache ==> s.inst.phase == ReadMem
    ensures Clean(Step(s, c).inst) && Fetching(Step(s, c).inst, next.fetch)
    ensures Step(s, c).grant == A.ICache ==> Step(s, c).inst.phase == ReadMem
  {
    var below := Below(s, c);
    StaysClean(s.inst, c.fetch, below.iResp, below.iData);
    StaysFetching(s.inst, c.fetch, below.iResp, below.iData, next.fetch);
    hide Selected, IsHit, IndexOf, TagOf, LA.Step, Clean, Fetching, NextWays;
  }

  lemma StepInv(s: Whole, c: Cycle, next: Cycle, plain: nat -> Line, lines: nat -> Line)
    requires Inv(s, c, plain, lines) && Holding(s, c, next)
    ensures var answer := Answer(s, c);
      && Inv(Step(s, c), next, MS.PlainStep(plain, answer.memResp, c.cpu), LA.LineStep(lines, Resp(s), CommandOf(s, c)))
      && (answer.memResp ==> answer.rdata == MS.PlainStep(plain, true, c.cpu)(LineOf(c.cpu)))
  {
    Simulates(s, c, lines);
    CommandHolds(s, c, next, plain, lines);
    FetchPart(s, c, next);
    hide Drive, Next, LA.Step, LA.Inv, MS.Inv, MP.GrantAsked, MS.Step, MS.Answer, Clean, Fetching, LA.Holding, Resp;
    MS.StepInv(View(s, lines), Seen(s, c), next.cpu, plain);
    MP.GrantNext(View(s, lines), Seen(s, c), next.cpu, plain);
    LA.StepInv(s.line, CommandOf(s, c), c.ready, CommandOf(Step(s, c), next), lines);
  }

  lemma StartInv(start: Whole, mem: nat -> Line, c: Cycle)
    requires Starts(start, mem)
    ensures Inv(start, c, mem, mem) && View(start, mem) == MS.Start(|start.data.sets|, |start.data.sets[0]|, mem)
  {
    hide MS.Inv, LA.Inv, Clean, Fetching, MP.GrantAsked, Reset;
    var numSets, numWays := |start.data.sets|, |start.data.sets[0]|;
    MS.StartInv(numSets, numWays, mem, c.cpu);
    StartParts(start, mem, c);
  }

  lemma StartParts(start: Whole, mem: nat -> Line, c: Cycle)
    requires Starts(start, mem)
    ensures Sized(start) && MP.GrantAsked(View(start, mem), c.cpu)
    ensures LA.Inv(start.line, CommandOf(start, c), mem) && Clean(start.inst) && Fetching(start.inst, c.fetch)
  {
    hide Drive, IsHit, SetOf;
  }

  lemma StartsSized(start: Whole, mem: nat -> Line)
    requires Starts(start, mem)
    ensures Sized(start)
  {
  }

  lemma RunNext(start: Whole, cs: seq<Cycle>, k: nat)
    requires Sized(start) && k < |cs|
    ensures var s, c := Run(start, cs[..k]), cs[k];
      && Run(start, cs[..k + 1]) == Step(s, c)
      && Plain(start, cs[..k + 1]) == MS.PlainStep(Plain(start, cs[..k]), Answer(s, c).memResp, c.cpu)
      && Lines(start, cs[..k + 1]) == LA.LineStep(Lines(start, cs[..k]), Resp(s), CommandOf(s, c))
  {
    hide Step, Answer, Sized, LA.LineStep, MS.PlainStep, Resp, CommandOf;
    assert cs[..k + 1][..k] == cs[..k];
  }

  lemma RunStart(start: Whole, mem: nat -> Line, cs: seq<Cycle>)
    requires Starts(start, mem)
    ensures Sized(start) && Run(start, cs[..0]) == start && Plain(start, cs[..0]) == mem == Lines(start, cs[..0])
  {
    hide Sized;
    StartsSized(start, mem);
  }

  lemma {:induction false} RunInv(start: Whole, mem: nat -> Line, cs: seq<Cycle>, k: nat)
    requires Starts(start, mem) && Sized(start) && Stable(start, cs) && k < |cs|
    ensures Inv(Run(start, cs[..k]), cs[k], Plain(start, cs[..k]), Lines(start, cs[..k]))
  {
    hide Inv, Step, Answer, Starts, Sized, LA.LineStep, MS.PlainStep, Resp, CommandOf, Holding, Run, Plain, Lines;
    if k == 0 {
      RunStart(start, mem, cs);
      StartInv(start, mem, cs[0]);
    } else {
      RunInv(start, mem, cs, k - 1);
      RunNext(start, cs, k - 1);
      assert HoldsAt(start, cs, k);
      StepInv(Run(start, cs[..k - 1]), cs[k - 1], cs[k], Plain(start, cs[..k - 1]), Lines(start, cs[..k - 1]));
    }
  }

  // ----- what the processor sees of its data

  /** The whole path is a plain memory to the processor: on every run from reset, with any sets and ways of
      both caches, any fetches and any delays of the burst memory, each data request is answered from the
      memory that the writes answered before it, and its own, have made. */
  lemma Transparent(start: Whole, mem: nat -> Line, cs: seq<Cycle>, k: nat)
    requires Starts(start, mem) && Sized(start) && Stable(start, cs) && k < |cs|
    ensures var answer := Answer(Run(start, cs[..k]), cs[k]);
      answer.memResp ==> answer.rdata == Plain(start, cs[..k + 1])(LineOf(cs[k].cpu))
  {
    hide Inv, Step, Answer, Fetched, Starts, Sized, LA.LineStep, Resp, CommandOf, Run, Plain, Lines;
    RunInv(start, mem, cs, k);
    StepInv(Run(start, cs[..k]), cs[k], cs[k], Plain(start, cs[..k]), Lines(start, cs[..k]));
    RunNext(start, cs, k);
  }

  ghost function PlainBytes(start: Whole, bytes: Bytes, cs: seq<Cycle>): Bytes
    requires Sized(start)
  {
    if cs == [] then bytes
    else
      var before, c := cs[..|cs| - 1], cs[|cs| - 1];
      if Answer(Run(start, before), c).memResp && c.cpu.write
      then ByteWrite(PlainBytes(start, bytes, before), c.cpu.address, c.cpu.wdata, c.cpu.enable)
      else PlainBytes(start, bytes, before)
  }

  lemma {:induction false} PlainHoldsBytes(start: Whole, bytes: Bytes, cs: seq<Cycle>)
    requires Sized(start) && Holds(start.line.below.mem, bytes)
    ensures Holds(Plain(start, cs), PlainBytes(start, bytes, cs))
    decreases |cs|
  {
    hide Holds, Answer, Stored, ByteWrite, Sized;
    if cs != [] {
      var before, c := cs[..|cs| - 1], cs[|cs| - 1];
      PlainHoldsBytes(start, bytes, before);
      WriteAgrees(Plain(start, before), PlainBytes(start, bytes, before), c.cpu.address, c.cpu.wdata, c.cpu.enable);
    }
  }

  lemma StartsWith(start: Whole, mem: nat -> Line)
    requires Starts(start, mem)
    ensures start.line.below.mem == mem
  {
  }

  /** Each word it reads is made of the bytes last written at its addresses. */
  lemma ProcessorSeesBytes(start: Whole, mem: nat -> Line, bytes: Bytes, cs: seq<Cycle>, k: nat)
    requires Starts(start, mem) && Sized(start) && Stable(start, cs) && k < |cs| && Holds(mem, bytes)
    ensures var answer, q := Answer(Run(start, cs[..k]), cs[k]), cs[k].cpu;
      answer.memResp ==> WordAt(answer.rdata, q.address) == ByteRead(PlainBytes(start, bytes, cs[..k + 1]), q.address)
  {
    hide Holds, Answer, Starts, ByteRead, WordAt, Plain, PlainBytes, Run, Stable, Sized;
    StartsWith(start, mem);
    Transparent(start, mem, cs, k);
    PlainHoldsBytes(start, bytes, cs[..k + 1]);
    ReadAgrees(Plain(start, cs[..k + 1]), PlainBytes(start, bytes, cs[..k + 1]), cs[k].cpu.address);
  }

  // ----- how many answers it waits for

  /** The run as the memory system sees it. */
  ghost function Projected(start: Whole, cs: seq<Cycle>): (seen: seq<MS.Cycle>)
    requires Sized(start)
    ensures |seen| == |cs|
  {
    if cs == [] then []
    else Projected(start, cs[..|cs| - 1]) + [Seen(Run(start, cs[..|cs| - 1]), cs[|cs| - 1])]
  }

  lemma {:induction false} ProjectedAt(start: Whole, cs: seq<Cycle>, k: nat)
    requires Sized(start) && k < |cs|
    ensures Projected(start, cs)[k] == Seen(Run(start, cs[..k]), cs[k])
    ensures Projected(start, cs)[..k + 1] == Projected(start, cs[..k + 1])
    decreases |cs|
  {
    hide Seen, Sized, Run;
    if k < |cs| - 1 {
      var before := cs[..|cs| - 1];
      ProjectedAt(start, before, k);
      assert before[..k] == cs[..k] && before[..k + 1] == cs[..k + 1];
    } else {
      assert cs[..k + 1] == cs;
    }
  }

  ghost function Above(start: Whole, mem: nat -> Line): (s: MS.System)
    requires Starts(start, mem)
    ensures MS.Sized(s)
  {
    MS.Start(|start.data.sets|, |start.data.sets[0]|, mem)
  }

  /** The memory system over the line memory makes the same run. */
  lemma {:induction false} Refines(start: Whole, mem: nat -> Line, cs: seq<Cycle>, k: nat)
    requires Starts(start, mem) && Sized(start) && Stable(start, cs) && k <= |cs|
    ensures MS.Run(Above(start, mem), Projected(start, cs)[..k]) == View(Run(start, cs[..k]), Lines(start, cs[..k]))
  {
    if k == 0 {
      RefinesStart(start, mem, cs);
    } else {
      Refines(start, mem, cs, k - 1);
      RefinesNext(start, mem, cs, k - 1);
    }
  }

  lemma RefinesStart(start: Whole, mem: nat -> Line, cs: seq<Cycle>)
    requires Starts(start, mem) && Sized(start)
    ensures MS.Run(Above(start, mem), Projected(start, cs)[..0]) == View(Run(start, cs[..0]), Lines(start, cs[..0]))
  {
    RunStart(start, mem, cs);
    hide Projected, Run, Lines;
  }

  lemma RefinesNext(start: Whole, mem: nat -> Line, cs: seq<Cycle>, k: nat)
    requires Starts(start, mem) && Sized(start) && Stable(start, cs) && k < |cs|
    requires MS.Run(Above(start, mem), Projected(start, cs)[..k]) == View(Run(start, cs[..k]), Lines(start, cs[..k]))
    ensures MS.Run(Above(start, mem), Projected(start, cs)[..k + 1]) ==
      View(Run(start, cs[..k + 1]), Lines(start, cs[..k + 1]))
  {
    hide Step, Answer, Starts, Sized, LA.LineStep, Resp, CommandOf, Run, Plain, Lines, Projected, MS.Run, MS.Step, View,
      Above, Seen, LA.Inv, MS.Inv, MP.GrantAsked, Clean, Fetching;
    RunInv(start, mem, cs, k);
    RunNext(start, cs, k);
    ProjectedAt(start, cs, k);
    MS.RunNext(Above(start, mem), Projected(start, cs), k);
    Simulates(Run(start, cs[..k]), cs[k], Lines(start, cs[..k]));
  }

  lemma RefinesStable(start: Whole, mem: nat -> Line, cs: seq<Cycle>)
    requires Starts(start, mem) && Sized(start) && Stable(start, cs)
    ensures MS.Stable(Above(start, mem), Projected(start, cs))
  {
    forall k | 0 < k < |cs| ensures MS.HoldsAt(Above(start, mem), Projected(start, cs), k) {
      RefinesHolding(start, mem, cs, k);
    }
  }

  lemma RefinesHolding(start: Whole, mem: nat -> Line, cs: seq<Cycle>, k: nat)
    requires Starts(start, mem) && Sized(start) && Stable(start, cs) && 0 < k < |cs|
    ensures MS.HoldsAt(Above(start, mem), Projected(start, cs), k)
  {
    hide Step, Starts, Sized, LA.LineStep, Resp, Run, Plain, Lines, Projected, MS.Run, MS.Step, View, Above, LA.Inv,
      MS.Inv, MP.GrantAsked, Clean, Fetching, CommandOf, MS.Answer, Answer, Active;
    RunInv(start, mem, cs, k - 1);
    Refines(start, mem, cs, k - 1);
    ProjectedAt(start, cs, k - 1);
    ProjectedAt(start, cs, k);
    Simulates(Run(start, cs[..k - 1]), cs[k - 1], Lines(start, cs[..k - 1]));
    assert HoldsAt(start, cs, k);
  }

  /** In clock i the processor asks for data and is not answered, or the instruction cache for a line. */
  ghost predicate DataWaits(start: Whole, cs: seq<Cycle>, i: nat)
    requires Sized(start) && i < |cs|
  {
    Active(cs[i].cpu) && !Answer(Run(start, cs[..i]), cs[i]).memResp
  }

  ghost predicate InstWaits(start: Whole, cs: seq<Cycle>, i: nat)
    requires Sized(start) && i < |cs|
  {
    Seen(Run(start, cs[..i]), cs[i]).iRead && !Below(Run(start, cs[..i]), cs[i]).iResp
  }

  /** How often the adaptor answers from clock j to before clock k. */
  ghost function Responses(start: Whole, cs: seq<Cycle>, j: nat, k: nat): nat
    requires Sized(start) && k <= |cs|
  {
    if k <= j then 0 else Responses(start, cs, j, k - 1) + if Resp(Run(start, cs[..k - 1])) then 1 else 0
  }

  lemma {:induction false} ResponsesAreReady(start: Whole, cs: seq<Cycle>, j: nat, k: nat)
    requires Sized(start) && k <= |cs|
    ensures Responses(start, cs, j, k) == MP.ReadyIn(Projected(start, cs), j, k)
  {
    hide Resp, Run, Sized, Projected;
    if j < k {
      ResponsesAreReady(start, cs, j, k - 1);
      ProjectedAt(start, cs, k - 1);
    }
  }

  lemma WaitsAlike(start: Whole, mem: nat -> Line, cs: seq<Cycle>, i: nat)
    requires Starts(start, mem) && Sized(start) && Stable(start, cs) && i < |cs|
    ensures MP.WaitsAt(Above(start, mem), Projected(start, cs), i) == DataWaits(start, cs, i)
    ensures MP.FetchWaitsAt(Above(start, mem), Projected(start, cs), i) == InstWaits(start, cs, i)
  {
    hide Step, Starts, Sized, LA.LineStep, Resp, Run, Plain, Lines, Projected, MS.Run, MS.Step, View, Above, LA.Inv,
      MS.Inv, MP.GrantAsked, Clean, Fetching, CommandOf, MS.Answer, Answer, MS.Below, Below, Active;
    RunInv(start, mem, cs, i);
    Refines(start, mem, cs, i);
    ProjectedAt(start, cs, i);
    Simulates(Run(start, cs[..i]), cs[i], Lines(start, cs[..i]));
  }

  /** While a data request waits, and while a fetch does, the adaptor answers at most five times. */
  lemma AnswersWhileWaiting(start: Whole, mem: nat -> Line, cs: seq<Cycle>, j: nat, k: nat)
    requires Starts(start, mem) && Sized(start) && Stable(start, cs) && j <= k < |cs|
    ensures (forall i: nat | j <= i < k :: DataWaits(start, cs, i)) ==> Responses(start, cs, j, k) <= 5
    ensures (forall i: nat | j <= i < k :: InstWaits(start, cs, i)) ==> Responses(start, cs, j, k) <= 5
  {
    hide Projected, MS.Stable, Stable, Responses, DataWaits, InstWaits, MP.WaitsAt, MP.FetchWaitsAt, MP.ReadyIn;
    var seen, numSets, numWays := Projected(start, cs), |start.data.sets|, |start.data.sets[0]|;
    RefinesStable(start, mem, cs);
    ResponsesAreReady(start, cs, j, k);
    forall i: nat | i < |cs|
      ensures MP.WaitsAt(Above(start, mem), seen, i) == DataWaits(start, cs, i)
      ensures MP.FetchWaitsAt(Above(start, mem), seen, i) == InstWaits(start, cs, i)
    {
      WaitsAlike(start, mem, cs, i);
    }
    if forall i: nat | j <= i < k :: DataWaits(start, cs, i) { MP.AnsweredInTime(numSets, numWays, mem, seen, j, k); }
    if forall i: nat | j <= i < k :: InstWaits(start, cs, i) {
      MP.FetchAnsweredInTime(numSets, numWays, mem, seen, j, k);
    }
  }
}
