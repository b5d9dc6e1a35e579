/** How soon the memory path of the top level answers, down to the bursts: every request, for data or for an
    instruction, is answered after a bounded number of clocks, not counting those in which the adaptor
    waits for a memory that is not ready. */
module WholeProgress {
  import opened LineMemory
  import opened Cache
  import opened ReadOnlyCache
  import opened WholeMemory
  import A = CacheArbiter
  import LA = LineAdaptor
  import MS = MemorySystem
  import MP = MemoryProgress

  /** How many clocks the adaptor still takes for a command. */
  function AdaptorRank(r: LA.Registers): (k: nat)
    requires r.count < 4
    ensures k <= 5
  {
    match r.macro
    case Idle => 5
    case WaitR => 4
    case WaitW => 4
    case R => 4 - r.count
    case W => 4 - r.count
    case Done => 0
  }

  /** The adaptor waits for the memory, which is not ready. */
  predicate StalledAt(line: LA.System, ready: bool) {
    (line.adaptor.macro == LA.WaitR || line.adaptor.macro == LA.WaitW) && !ready
  }

  /** Every clock of a command that is not its last, nor stalled, brings its answer closer. */
  lemma AdaptorStep(line: LA.System, command: LA.Command, ready: bool, lines: nat -> Line)
    requires LA.Inv(line, command, lines) && LA.Active(command) && !LA.RespOut(line.adaptor)
    ensures AdaptorRank(LA.Step(line, command, ready).adaptor) + (if StalledAt(line, ready) then 0 else 1)
      <= AdaptorRank(line.adaptor)
  {
    hide LA.SameBeats, LA.WithBeat, LA.BeatOf;
  }

  lemma AdaptorRests(line: LA.System, command: LA.Command, ready: bool, lines: nat -> Line)
    requires LA.Inv(line, command, lines) && !LA.Active(command)
    ensures line.adaptor.macro == LA.Idle == LA.Step(line, command, ready).adaptor.macro
  {
  }

  lemma AdaptorDone(line: LA.System, command: LA.Command, ready: bool)
    requires LA.Sized(line) && LA.RespOut(line.adaptor)
    ensures AdaptorRank(line.adaptor) == 0 && LA.Step(line, command, ready).adaptor.macro == LA.Idle
  {
  }

  /** While a cache has the grant the adaptor has a command, and otherwise none. */
  lemma GrantIsCommand(s: Whole, c: Cycle, plain: nat -> Line, lines: nat -> Line)
    requires Inv(s, c, plain, lines)
    ensures LA.Active(CommandOf(s, c)) <==> s.grant != A.Decode
  {
    hide MS.Inv, LA.Inv, Clean, Fetching, IsHit, Selected, IndexOf, TagOf, LineAt;
  }

  predicate Stalled(s: Whole, c: Cycle) {
    StalledAt(s.line, c.ready)
  }

  // ----- a request for data

  /** How many clocks, but for stalled ones, before an active data request is answered. */
  function DataRank(s: Whole, q: Request): (r: nat)
    requires Sized(s)
    ensures r <= 35
  {
    6 * MP.Rank(View(s, s.line.below.mem), q) + AdaptorRank(s.line.adaptor)
  }

  lemma SameRank(s: Whole, lines: nat -> Line, q: Request)
    requires Sized(s)
    ensures MS.Sized(View(s, lines)) && MP.Rank(View(s, lines), q) == MP.Rank(View(s, s.line.below.mem), q)
    ensures MP.FetchRank(View(s, lines), q) == MP.FetchRank(View(s, s.line.below.mem), q)
  {
    hide MP.Look;
  }

  lemma InvParts(s: Whole, c: Cycle, plain: nat -> Line, lines: nat -> Line)
    requires Inv(s, c, plain, lines)
    ensures Sized(s) && MS.Inv(View(s, lines), c.cpu, plain) && MP.GrantAsked(View(s, lines), c.cpu)
    ensures LA.Inv(s.line, CommandOf(s, c), lines) && Clean(s.inst) && Fetching(s.inst, c.fetch)
  {
  }

  /** What a clock does to the adaptor, told by the grant. */
  lemma AdaptorPart(s: Whole, c: Cycle, plain: nat -> Line, lines: nat -> Line)
    requires Inv(s, c, plain, lines)
    ensures Step(s, c).line == LA.Step(s.line, CommandOf(s, c), c.ready)
    ensures var r, r' := AdaptorRank(s.line.adaptor), AdaptorRank(Step(s, c).line.adaptor);
      && (s.grant == A.Decode ==> r == r' && !Resp(s))
      && (s.grant != A.Decode && Resp(s) ==> r == 0 && r' == 5)
      && (s.grant != A.Decode && !Resp(s) ==> r' + (if Stalled(s, c) then 0 else 1) <= r)
  {
    InvParts(s, c, plain, lines);
    GrantIsCommand(s, c, plain, lines);
    hide Inv, MS.Inv, LA.Inv, LA.Step, CommandOf, Next, Below;
    if s.grant == A.Decode {
      AdaptorRests(s.line, CommandOf(s, c), c.ready, lines);
    } else if Resp(s) {
      AdaptorDone(s.line, CommandOf(s, c), c.ready);
    } else {
      AdaptorStep(s.line, CommandOf(s, c), c.ready, lines);
    }
  }

  /** What it does to the rank of the system above. */
  lemma RankPart(s: Whole, c: Cycle, plain: nat -> Line, lines: nat -> Line)
    requires Inv(s, c, plain, lines) && Active(c.cpu) && !Answer(s, c).memResp
    ensures var r, r' :=
      MP.Rank(View(s, s.line.below.mem), c.cpu), MP.Rank(View(Step(s, c), Step(s, c).line.below.mem), c.cpu);
      r' + (if Resp(s) || s.grant == A.Decode then 1 else 0) <= r
  {
    InvParts(s, c, plain, lines);
    Simulates(s, c, lines);
    SameRank(s, lines, c.cpu);
    SameRank(Step(s, c), LA.LineStep(lines, Resp(s), CommandOf(s, c)), c.cpu);
    hide Inv, MS.Inv, LA.Inv, MP.Rank, MP.GrantAsked, MS.Step, MS.Answer, Answer, Step, LA.LineStep, CommandOf, Active;
    MP.RankStep(View(s, lines), Seen(s, c), plain);
    if s.grant == A.Decode { MP.RankInDecode(View(s, lines), Seen(s, c), plain); }
  }

  lemma DataStep(s: Whole, c: Cycle, plain: nat -> Line, lines: nat -> Line)
    requires Inv(s, c, plain, lines) && Active(c.cpu) && !Answer(s, c).memResp
    ensures DataRank(Step(s, c), c.cpu) + (if Stalled(s, c) then 0 else 1) <= DataRank(s, c.cpu)
  {
    InvParts(s, c, plain, lines);
    hide Inv, MS.Inv, LA.Inv, MP.Rank, AdaptorRank, Answer, Step, Stalled, Resp;
    AdaptorPart(s, c, plain, lines);
    RankPart(s, c, plain, lines);
  }

  // ----- a fetch

  /** How many clocks, but for stalled ones, before an active fetch is answered. */
  function FetchRank(s: Whole, c: Cycle): (r: nat)
    requires Sized(s)
    ensures r <= 37
  {
    if s.inst.phase == ReadMem then 1 + 6 * MP.FetchRank(View(s, s.line.below.mem), c.cpu) + AdaptorRank(s.line.adaptor)
    else if IsHit(SetOf(s.inst, c.fetch), ReqTag(s.inst, c.fetch)) then 0
    else 37
  }

  /** A fetch that misses goes on to ask for its line. */
  lemma MissAsks(s: Whole, c: Cycle)
    requires Sized(s) && Clean(s.inst) && s.inst.phase == CheckHit && Active(c.fetch) && !Fetched(s, c).memResp
    ensures Step(s, c).inst.phase == ReadMem
  {
    hide Selected, IndexOf, TagOf, LA.Step, NextWays;
  }

  /** A line that has come hits. */
  lemma RefillHits(s: Whole, c: Cycle, next: Cycle)
    requires Sized(s) && s.inst.phase == ReadMem && Below(s, c).iResp && next.fetch == c.fetch
    ensures FetchRank(Step(s, c), next) == 0
  {
    var ways, tag := SetOf(s.inst, c.fetch), ReqTag(s.inst, c.fetch);
    var k, ways' := Selected(ways, tag), SetOf(Step(s, c).inst, c.fetch);
    hide Selected, IsHit, IndexOf, TagOf, LA.Step;
    MP.FillHits(ways, tag, k, ways'[k]);
  }

  lemma FetchRankPart(s: Whole, c: Cycle, next: Cycle, plain: nat -> Line, lines: nat -> Line)
    requires Inv(s, c, plain, lines) && Holding(s, c, next) && s.inst.phase == ReadMem && !Below(s, c).iResp
    ensures var r := MP.FetchRank(View(s, s.line.below.mem), c.cpu);
      var r' := MP.FetchRank(View(Step(s, c), Step(s, c).line.below.mem), next.cpu);
      r' + (if Resp(s) || s.grant == A.Decode then 1 else 0) <= r
    ensures Step(s, c).inst.phase == ReadMem
  {
    InvParts(s, c, plain, lines);
    Simulates(s, c, lines);
    SameRank(s, lines, c.cpu);
    SameRank(Step(s, c), LA.LineStep(lines, Resp(s), CommandOf(s, c)), next.cpu);
    hide Inv, MS.Inv, LA.Inv, MP.FetchRank, MP.GrantAsked, MS.Step, MS.Answer, MS.Below, Answer, LA.LineStep, LA.Step,
      CommandOf, Active, NextWays;
    MP.FetchStep(View(s, lines), Seen(s, c), next.cpu, plain);
    if s.grant == A.Decode { MP.FetchRankInDecode(View(s, lines), Seen(s, c), next.cpu, plain); }
  }

  lemma FetchMoves(s: Whole, c: Cycle, next: Cycle, plain: nat -> Line, lines: nat -> Line)
    requires Inv(s, c, plain, lines) && Holding(s, c, next) && Active(c.fetch) && !Fetched(s, c).memResp
    ensures FetchRank(Step(s, c), next) + (if Stalled(s, c) then 0 else 1) <= FetchRank(s, c)
  {
    InvParts(s, c, plain, lines);
    if s.inst.phase == CheckHit {
      MissAsks(s, c);
      hide Inv, Step, MP.FetchRank, AdaptorRank, Selected, IndexOf, TagOf;
    } else if Below(s, c).iResp {
      RefillHits(s, c, next);
      hide Inv, Step, MP.FetchRank, AdaptorRank, Selected, IndexOf, TagOf;
    } else {
      hide Inv, MS.Inv, LA.Inv, MP.FetchRank, AdaptorRank, Step, Stalled, Resp, IsHit;
      AdaptorPart(s, c, plain, lines);
      FetchRankPart(s, c, next, plain, lines);
    }
  }

  // ----- over runs

  /** How many of the clocks from j to before k are not stalled, and in how many the memory is ready. */
  ghost function Moving(start: Whole, cs: seq<Cycle>, j: nat, k: nat): nat
    requires Sized(start) && k <= |cs|
  {
    if k <= j then 0 else Moving(start, cs, j, k - 1) + if Stalled(Run(start, cs[..k - 1]), cs[k - 1]) then 0 else 1
  }

  function ReadyClocks(cs: seq<Cycle>, j: nat, k: nat): nat
    requires k <= |cs|
  {
    if k <= j then 0 else ReadyClocks(cs, j, k - 1) + if cs[k - 1].ready then 1 else 0
  }

  lemma {:induction false} ReadyIsMoving(start: Whole, cs: seq<Cycle>, j: nat, k: nat)
    requires Sized(start) && k <= |cs|
    ensures ReadyClocks(cs, j, k) <= Moving(start, cs, j, k)
  {
    hide Run, Sized;
    if j < k { ReadyIsMoving(start, cs, j, k - 1); }
  }

  /** In clock i the processor asks for an instruction and is not answered. */
  ghost predicate FetchWaits(start: Whole, cs: seq<Cycle>, i: nat)
    requires Sized(start) && i < |cs|
  {
    Active(cs[i].fetch) && !Fetched(Run(start, cs[..i]), cs[i]).memResp
  }

  lemma DataNext(start: Whole, mem: nat -> Line, cs: seq<Cycle>, i: nat)
    requires Starts(start, mem) && Sized(start) && Stable(start, cs) && i + 1 < |cs| && DataWaits(start, cs, i)
    ensures DataRank(Run(start, cs[..i + 1]), cs[i + 1].cpu) + (if Stalled(Run(start, cs[..i]), cs[i]) then 0 else 1)
      <= DataRank(Run(start, cs[..i]), cs[i].cpu)
  {
    hide Inv, Step, Answer, Fetched, Starts, Sized, Run, Plain, Lines, DataRank, Stalled, Active, LA.LineStep,
      MS.PlainStep, CommandOf, Resp;
    RunInv(start, mem, cs, i);
    RunNext(start, cs, i);
    assert HoldsAt(start, cs, i + 1);
    DataStep(Run(start, cs[..i]), cs[i], Plain(start, cs[..i]), Lines(start, cs[..i]));
  }

  lemma FetchNext(start: Whole, mem: nat -> Line, cs: seq<Cycle>, i: nat)
    requires Starts(start, mem) && Sized(start) && Stable(start, cs) && i + 1 < |cs| && FetchWaits(start, cs, i)
    ensures FetchRank(Run(start, cs[..i + 1]), cs[i + 1]) + (if Stalled(Run(start, cs[..i]), cs[i]) then 0 else 1)
      <= FetchRank(Run(start, cs[..i]), cs[i])
  {
    hide Inv, Step, Answer, Fetched, Starts, Sized, Run, Plain, Lines, FetchRank, Stalled, Active, LA.LineStep,
      MS.PlainStep, CommandOf, Resp, Holding;
    RunInv(start, mem, cs, i);
    RunNext(start, cs, i);
    assert HoldsAt(start, cs, i + 1);
    FetchMoves(Run(start, cs[..i]), cs[i], cs[i + 1], Plain(start, cs[..i]), Lines(start, cs[..i]));
  }

  lemma {:induction false} DataFalls(start: Whole, mem: nat -> Line, cs: seq<Cycle>, j: nat, k: nat)
    requires Starts(start, mem) && Sized(start) && Stable(start, cs) && j <= k < |cs|
    requires forall i: nat | j <= i < k :: DataWaits(start, cs, i)
    ensures DataRank(Run(start, cs[..k]), cs[k].cpu) + Moving(start, cs, j, k)
      <= DataRank(Run(start, cs[..j]), cs[j].cpu)
  {
    hide Starts, Sized, Stable, Run, DataRank, Stalled, DataWaits;
    if j < k {
      DataFalls(start, mem, cs, j, k - 1);
      DataNext(start, mem, cs, k - 1);
    }
  }

  lemma {:induction false} FetchFalls(start: Whole, mem: nat -> Line, cs: seq<Cycle>, j: nat, k: nat)
    requires Starts(start, mem) && Sized(start) && Stable(start, cs) && j <= k < |cs|
    requires forall i: nat | j <= i < k :: FetchWaits(start, cs, i)
    ensures FetchRank(Run(start, cs[..k]), cs[k]) + Moving(start, cs, j, k) <= FetchRank(Run(start, cs[..j]), cs[j])
  {
    hide Starts, Sized, Stable, Run, FetchRank, Stalled, FetchWaits;
    if j < k {
      FetchFalls(start, mem, cs, j, k - 1);
      FetchNext(start, mem, cs, k - 1);
    }
  }

  /** The path always answers. While a data request waits at most 35 clocks pass in which the adaptor is
      not kept waiting by the memory; so the memory is ready in at most 35 of them, and when it is ready
      in every clock no request waits longer than that. */
  lemma DataAnsweredInTime(start: Whole, mem: nat -> Line, cs: seq<Cycle>, j: nat, k: nat)
    requires Starts(start, mem) && Sized(start) && Stable(start, cs) && j <= k < |cs|
    requires forall i: nat | j <= i < k :: DataWaits(start, cs, i)
    ensures Moving(start, cs, j, k) <= 35 && ReadyClocks(cs, j, k) <= 35
  {
    hide Starts, Sized, Stable, Run, DataRank, Moving, ReadyClocks, DataWaits;
    DataFalls(start, mem, cs, j, k);
    ReadyIsMoving(start, cs, j, k);
  }

  /** The same for what the processor fetches, from the clock of the miss on. */
  lemma FetchAnsweredInTime(start: Whole, mem: nat -> Line, cs: seq<Cycle>, j: nat, k: nat)
    requires Starts(start, mem) && Sized(start) && Stable(start, cs) && j <= k < |cs|
    requires forall i: nat | j <= i < k :: FetchWaits(start, cs, i)
    ensures Moving(start, cs, j, k) <= 37 && ReadyClocks(cs, j, k) <= 37
  {
    hide Starts, Sized, Stable, Run, FetchRank, Moving, ReadyClocks, FetchWaits;
    FetchFalls(start, mem, cs, j, k);
    ReadyIsMoving(start, cs, j, k);
  }
}
