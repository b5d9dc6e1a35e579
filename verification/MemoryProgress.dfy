/** How soon the memory system answers, and what the memory below it sees. */
module MemoryProgress {
  import opened LineMemory
  import opened Cache
  import opened MemorySystem

  /** What a request finds in its set. */
  datatype Finding = Found | CleanMiss | DirtyMiss

  function Look(cache: Cache.State, q: Request): Finding
    requires |cache.sets| > 0 && |SetOf(cache, q)| > 0
  {
    var ways, tag := SetOf(cache, q), ReqTag(cache, q);
    if IsHit(ways, tag) then Found else if ways[Selected(ways, tag)].dirty then DirtyMiss else CleanMiss
  }

  /** A grant to the data cache is always for a command. */
  predicate GrantAsked(s: System, q: Request)
    requires Sized(s)
  {
    s.grant == A.DCache ==> s.cache.phase == ReadMem || (Active(q) && Look(s.cache, q) == DirtyMiss)
  }

  /** How often the memory can be ready before an active request is answered. */
  function Rank(s: System, q: Request): (r: nat)
    requires Sized(s)
    ensures r <= 5
  {
    match s.cache.phase
    case ReadMem => (match s.grant case DCache => 1 case Decode => 2 case ICache => 3)
    case CheckHit =>
      match Look(s.cache, q)
      case Found => 0
      case CleanMiss => if s.grant == A.ICache then 3 else 4
      case DirtyMiss => match s.grant case DCache => 3 case Decode => 4 case ICache => 5
  }

  /** After a refill the request hits. */
  lemma FillHits(ways: seq<Way>, tag: nat, k: nat, way: Way)
    requires k < |ways| && way.valid && way.tag == tag
    ensures IsHit(ways[k := way], tag)
  {
    HitIsSomewhere(ways[k := way], tag);
    assert Fits(ways[k := way][k], Hit(tag), |ways|);
  }

  /** A cycle that does not answer an active request brings its answer closer, if the memory is ready,
      and never further away. */
  lemma RankStep(s: System, c: Cycle, plain: nat -> Line)
    requires Inv(s, c.cpu, plain) && GrantAsked(s, c.cpu) && Active(c.cpu) && !Answer(s, c).memResp
    ensures GrantAsked(Step(s, c), c.cpu)
    ensures Rank(Step(s, c), c.cpu) + (if c.ready then 1 else 0) <= Rank(s, c.cpu)
  {
    var ways, tag := SetOf(s.cache, c.cpu), ReqTag(s.cache, c.cpu);
    var k := Selected(ways, tag);
    var ways' := SetOf(Step(s, c).cache, c.cpu);
    hide SetsTrue, IndexOf, TagOf, LineAt;
    if s.cache.phase == ReadMem {
      hide Selected, IsHit;
      if Step(s, c).cache.phase == CheckHit {
        FillHits(ways, tag, k, ways'[k]);
      }
    }
  }

  /** While the arbiter decides, every cycle does. */
  lemma RankInDecode(s: System, c: Cycle, plain: nat -> Line)
    requires Inv(s, c.cpu, plain) && GrantAsked(s, c.cpu) && Active(c.cpu) && !Answer(s, c).memResp
    requires s.grant == A.Decode
    ensures Rank(Step(s, c), c.cpu) < Rank(s, c.cpu)
  {
    hide SetsTrue, IndexOf, TagOf, LineAt, Selected, Stored;
  }

  /** A cycle without an active request, or with an answer, leaves no grant to the data cache. */
  lemma GrantStep(s: System, c: Cycle, q': Request, plain: nat -> Line)
    requires Inv(s, c.cpu, plain) && GrantAsked(s, c.cpu) && (!Active(c.cpu) || Answer(s, c).memResp)
    ensures Step(s, c).grant != A.DCache && GrantAsked(Step(s, c), q')
  {
    hide SetsTrue, IndexOf, TagOf, LineAt, Selected, Stored;
  }

  lemma GrantNext(s: System, c: Cycle, q': Request, plain: nat -> Line)
    requires Inv(s, c.cpu, plain) && GrantAsked(s, c.cpu) && Holding(s, c, q')
    ensures GrantAsked(Step(s, c), q')
  {
    assert Sized(s);
    hide Inv, GrantAsked, Step, Answer, Active;
    if Active(c.cpu) && !Answer(s, c).memResp { RankStep(s, c, plain); } else { GrantStep(s, c, q', plain); }
  }

  lemma StartGrant(numSets: nat, numWays: nat, mem: nat -> Line, cs: seq<Cycle>, q: Request)
    requires numSets > 0 && numWays > 0
    ensures GrantAsked(Run(Start(numSets, numWays, mem), cs[..0]), q)
  {
    hide Look, Active, Reset, Step;
  }

  lemma {:induction false} RunGrantAsked(numSets: nat, numWays: nat, mem: nat -> Line, cs: seq<Cycle>, k: nat)
    requires numSets > 0 && numWays > 0 && Stable(Start(numSets, numWays, mem), cs) && k < |cs|
    ensures GrantAsked(Run(Start(numSets, numWays, mem), cs[..k]), cs[k].cpu)
  {
    hide Inv, GrantAsked, Step, Answer, Start, Run, Active, Plain, PlainStep;
    if k == 0 {
      StartGrant(numSets, numWays, mem, cs, cs[0].cpu);
    } else {
      RunGrantAsked(numSets, numWays, mem, cs, k - 1);
      NextGrantAsked(numSets, numWays, mem, cs, k);
    }
  }

  lemma NextGrantAsked(numSets: nat, numWays: nat, mem: nat -> Line, cs: seq<Cycle>, k: nat)
    requires numSets > 0 && numWays > 0 && Stable(Start(numSets, numWays, mem), cs) && 0 < k < |cs|
    requires GrantAsked(Run(Start(numSets, numWays, mem), cs[..k - 1]), cs[k - 1].cpu)
    ensures GrantAsked(Run(Start(numSets, numWays, mem), cs[..k]), cs[k].cpu)
  {
    var start := Start(numSets, numWays, mem);
    hide Inv, GrantAsked, Step, Answer, Start, Run, Active, Plain, PlainStep;
    RunNext(start, cs, k - 1);
    assert HoldsAt(start, cs, k);
    RunInv(numSets, numWays, mem, cs, k - 1);
    GrantNext(Run(start, cs[..k - 1]), cs[k - 1], cs[k].cpu, Plain(start, cs[..k - 1]));
  }

  /** From cycle j to before cycle k the processor asks and is not answered. */
  ghost predicate Pending(start: System, cs: seq<Cycle>, j: nat, k: nat)
    requires Sized(start) && k <= |cs|
  {
    forall i: nat | j <= i < k :: WaitsAt(start, cs, i)
  }

  ghost predicate WaitsAt(start: System, cs: seq<Cycle>, i: nat)
    requires Sized(start) && i < |cs|
  {
    Active(cs[i].cpu) && !Answer(Run(start, cs[..i]), cs[i]).memResp
  }

  /** How often the memory is ready in those cycles. */
  function ReadyIn(cs: seq<Cycle>, j: nat, k: nat): nat
    requires k <= |cs|
  {
    if k <= j then 0 else ReadyIn(cs, j, k - 1) + if cs[k - 1].ready then 1 else 0
  }

  lemma {:induction false} PendingRank(numSets: nat, numWays: nat, mem: nat -> Line, cs: seq<Cycle>, j: nat, k: nat)
    requires numSets > 0 && numWays > 0 && Stable(Start(numSets, numWays, mem), cs) && j <= k < |cs|
    requires Pending(Start(numSets, numWays, mem), cs, j, k)
    ensures var start := Start(numSets, numWays, mem);
      Rank(Run(start, cs[..k]), cs[k].cpu) + ReadyIn(cs, j, k) <= Rank(Run(start, cs[..j]), cs[j].cpu)
  {
    var start := Start(numSets, numWays, mem);
    hide WaitsAt, Start, Rank, Run, Stable, Sized;
    if j < k {
      PendingRank(numSets, numWays, mem, cs, j, k - 1);
      assert WaitsAt(start, cs, k - 1);
      NextRank(numSets, numWays, mem, cs, k);
    }
  }

  lemma NextRank(numSets: nat, numWays: nat, mem: nat -> Line, cs: seq<Cycle>, k: nat)
    requires numSets > 0 && numWays > 0 && Stable(Start(numSets, numWays, mem), cs) && 0 < k < |cs|
    requires WaitsAt(Start(numSets, numWays, mem), cs, k - 1)
    ensures var start := Start(numSets, numWays, mem);
      Rank(Run(start, cs[..k]), cs[k].cpu) + (if cs[k - 1].ready then 1 else 0)
        <= Rank(Run(start, cs[..k - 1]), cs[k - 1].cpu)
  {
    hide Inv, GrantAsked, Step, Answer, Start, Rank, Run, Active, Plain, Sized, Stable, Holding;
    var start := Start(numSets, numWays, mem);
    RunNext(start, cs, k - 1);
    AtCycle(numSets, numWays, mem, cs, k);
    StillAsked(Run(start, cs[..k - 1]), cs[k - 1], cs[k].cpu);
    RankStep(Run(start, cs[..k - 1]), cs[k - 1], Plain(start, cs[..k - 1]));
  }

  lemma StillAsked(s: System, c: Cycle, q: Request)
    requires Sized(s) && Holding(s, c, q) && Active(c.cpu) && !Answer(s, c).memResp
    ensures q == c.cpu
  {
  }

  /** A request of the processor is never forgotten: while it waits the memory is ready at most five
      times, whatever it finds in the cache and whatever the instruction cache asks for. */
  lemma AnsweredInTime(numSets: nat, numWays: nat, mem: nat -> Line, cs: seq<Cycle>, j: nat, k: nat)
    requires numSets > 0 && numWays > 0 && Stable(Start(numSets, numWays, mem), cs) && j <= k < |cs|
    requires Pending(Start(numSets, numWays, mem), cs, j, k)
    ensures ReadyIn(cs, j, k) <= 5
  {
    hide Run, Start, Stable, Pending, Rank;
    PendingRank(numSets, numWays, mem, cs, j, k);
  }

  // ----- instruction fetches

  /** How many answers to the data cache a fetch can have ahead of it: a write-back and a refill, only
      the refill, or none. */
  function Ahead(s: System, q: Request): (r: nat)
    requires Sized(s)
    ensures r <= 2
  {
    if s.grant == A.ICache then 0
    else if s.cache.phase == ReadMem then 1
    else if Active(q) && Look(s.cache, q) == DirtyMiss then 2
    else 0
  }

  function FetchRank(s: System, q: Request): (r: nat)
    requires Sized(s)
    ensures r <= 5
  {
    2 * Ahead(s, q) + if s.grant == A.Decode then 1 else 0
  }

  /** The data cache pauses after a refill: the request that it was for hits, so that in the next cycle
      the arbiter is free to grant and hears nothing from the data side. */
  lemma PauseAfterRefill(s: System, c: Cycle, q': Request, plain: nat -> Line)
    requires Inv(s, c.cpu, plain) && Holding(s, c, q')
    requires s.cache.phase == ReadMem && Below(s, c).dataResp
    ensures Step(s, c).grant == A.Decode && Look(Step(s, c).cache, q') == Found && Ahead(Step(s, c), q') == 0
    ensures forall noise :: var out := Drive(Step(s, c).cache, q', noise); !out.pmemRead && !out.pmemWrite
  {
    var ways, tag := SetOf(s.cache, c.cpu), ReqTag(s.cache, c.cpu);
    var k := Selected(ways, tag);
    var ways' := SetOf(Step(s, c).cache, c.cpu);
    BelowEffect(s.grant, s.mem, Wires(s, c), c.ready, c.noise);
    hide SetsTrue, IndexOf, TagOf, LineAt, Selected, IsHit;
    FillHits(ways, tag, k, ways'[k]);
  }

  /** A cycle that does not answer a fetch brings its answer closer in the same way. */
  lemma FetchStep(s: System, c: Cycle, q': Request, plain: nat -> Line)
    requires Inv(s, c.cpu, plain) && GrantAsked(s, c.cpu) && Holding(s, c, q')
    requires c.iRead && !Below(s, c).iResp
    ensures Ahead(Step(s, c), q') + (if Below(s, c).dataResp then 1 else 0) <= Ahead(s, c.cpu)
    ensures FetchRank(Step(s, c), q') + (if c.ready then 1 else 0) <= FetchRank(s, c.cpu)
  {
    if s.cache.phase == ReadMem && Below(s, c).dataResp {
      PauseAfterRefill(s, c, q', plain);
    }
    hide SetsTrue, IndexOf, TagOf, LineAt, Selected, Stored;
  }

  lemma FetchRankInDecode(s: System, c: Cycle, q': Request, plain: nat -> Line)
    requires Inv(s, c.cpu, plain) && GrantAsked(s, c.cpu) && Holding(s, c, q') && c.iRead && s.grant == A.Decode
    ensures FetchRank(Step(s, c), q') < FetchRank(s, c.cpu)
  {
    hide SetsTrue, IndexOf, TagOf, LineAt, Selected, Stored;
  }

  ghost predicate FetchWaitsAt(start: System, cs: seq<Cycle>, i: nat)
    requires Sized(start) && i < |cs|
  {
    cs[i].iRead && !Below(Run(start, cs[..i]), cs[i]).iResp
  }

  /** From cycle j to before cycle k the instruction cache asks and is not answered. */
  ghost predicate FetchPending(start: System, cs: seq<Cycle>, j: nat, k: nat)
    requires Sized(start) && k <= |cs|
  {
    forall i: nat | j <= i < k :: FetchWaitsAt(start, cs, i)
  }

  /** How often the data cache is answered in those cycles. */
  ghost function DataAnswers(start: System, cs: seq<Cycle>, j: nat, k: nat): nat
    requires Sized(start) && k <= |cs|
  {
    if k <= j then 0
    else DataAnswers(start, cs, j, k - 1) + if Below(Run(start, cs[..k - 1]), cs[k - 1]).dataResp then 1 else 0
  }

  lemma {:induction false} FetchPendingRank(numSets: nat, numWays: nat, mem: nat -> Line, cs: seq<Cycle>, j: nat,
                                            k: nat)
    requires numSets > 0 && numWays > 0 && Stable(Start(numSets, numWays, mem), cs) && j <= k < |cs|
    requires FetchPending(Start(numSets, numWays, mem), cs, j, k)
    ensures var start := Start(numSets, numWays, mem);
      && FetchRank(Run(start, cs[..k]), cs[k].cpu) + ReadyIn(cs, j, k) <= FetchRank(Run(start, cs[..j]), cs[j].cpu)
      && Ahead(Run(start, cs[..k]), cs[k].cpu) + DataAnswers(start, cs, j, k) <= Ahead(Run(start, cs[..j]), cs[j].cpu)
  {
    hide Start, FetchRank, Ahead, Run, Below, Stable, FetchPending;
    if j < k {
      FetchPendingBefore(numSets, numWays, mem, cs, j, k);
      FetchPendingRank(numSets, numWays, mem, cs, j, k - 1);
      FetchNext(numSets, numWays, mem, cs, k);
    }
  }

  lemma FetchPendingBefore(numSets: nat, numWays: nat, mem: nat -> Line, cs: seq<Cycle>, j: nat, k: nat)
    requires numSets > 0 && numWays > 0 && j < k < |cs|
    requires FetchPending(Start(numSets, numWays, mem), cs, j, k)
    ensures FetchPending(Start(numSets, numWays, mem), cs, j, k - 1)
    ensures FetchWaitsAt(Start(numSets, numWays, mem), cs, k - 1)
  {
    hide Start, Run, FetchWaitsAt;
  }

  lemma FetchNext(numSets: nat, numWays: nat, mem: nat -> Line, cs: seq<Cycle>, k: nat)
    requires numSets > 0 && numWays > 0 && Stable(Start(numSets, numWays, mem), cs) && 0 < k < |cs|
    requires FetchWaitsAt(Start(numSets, numWays, mem), cs, k - 1)
    ensures var start := Start(numSets, numWays, mem);
      var s, s', c := Run(start, cs[..k - 1]), Run(start, cs[..k]), cs[k - 1];
      && FetchRank(s', cs[k].cpu) + (if c.ready then 1 else 0) <= FetchRank(s, c.cpu)
      && Ahead(s', cs[k].cpu) + (if Below(s, c).dataResp then 1 else 0) <= Ahead(s, c.cpu)
  {
    var start := Start(numSets, numWays, mem);
    hide Inv, GrantAsked, Step, Below, Start, FetchRank, Ahead, Run, Holding, Plain, Stable, Sized;
    RunNext(start, cs, k - 1);
    AtCycle(numSets, numWays, mem, cs, k);
    FetchStep(Run(start, cs[..k - 1]), cs[k - 1], cs[k].cpu, Plain(start, cs[..k - 1]));
  }

  lemma AtCycle(numSets: nat, numWays: nat, mem: nat -> Line, cs: seq<Cycle>, k: nat)
    requires numSets > 0 && numWays > 0 && Stable(Start(numSets, numWays, mem), cs) && 0 < k < |cs|
    ensures var start := Start(numSets, numWays, mem);
      var s, c := Run(start, cs[..k - 1]), cs[k - 1];
      Inv(s, c.cpu, Plain(start, cs[..k - 1])) && GrantAsked(s, c.cpu) && Holding(s, c, cs[k].cpu)
  {
    hide Inv, GrantAsked, Start, Run, Holding, Plain;
    assert HoldsAt(Start(numSets, numWays, mem), cs, k);
    RunInv(numSets, numWays, mem, cs, k - 1);
    RunGrantAsked(numSets, numWays, mem, cs, k - 1);
  }

  /** Above this cache a fetch is never starved, although the arbiter prefers data: while it waits the
      data cache is answered at most twice and the memory is ready at most five times. */
  lemma FetchAnsweredInTime(numSets: nat, numWays: nat, mem: nat -> Line, cs: seq<Cycle>, j: nat, k: nat)
    requires numSets > 0 && numWays > 0 && Stable(Start(numSets, numWays, mem), cs) && j <= k < |cs|
    requires FetchPending(Start(numSets, numWays, mem), cs, j, k)
    ensures DataAnswers(Start(numSets, numWays, mem), cs, j, k) <= 2 && ReadyIn(cs, j, k) <= 5
  {
    hide Run, Start, Stable, FetchPending, FetchRank, Ahead, DataAnswers;
    FetchPendingRank(numSets, numWays, mem, cs, j, k);
  }

  /** The command on behalf of the data cache does not change while it waits for the memory. */
  lemma SteadyDownstream(s: System, c: Cycle, next: Cycle, plain: nat -> Line)
    requires Inv(s, c.cpu, plain) && GrantAsked(s, c.cpu) && Holding(s, c, next.cpu)
    requires s.grant == A.DCache && !Below(s, c).dataResp
    ensures Step(s, c).grant == A.DCache
    ensures A.Command(A.DCache, Wires(Step(s, c), next)) == A.Command(A.DCache, Wires(s, c))
    ensures var command := A.Command(A.DCache, Wires(s, c));
      (command.cacheRead <==> !command.cacheWrite) && (command.cacheRead ==> command.cacheAddr == LineOf(c.cpu))
  {
    var ways, tag := SetOf(s.cache, c.cpu), ReqTag(s.cache, c.cpu);
    if s.cache.phase == ReadMem {
      SelectedSame(ways, SetOf(Step(s, c).cache, c.cpu), tag);
    }
    hide SetsTrue, IndexOf, TagOf, LineAt, Selected;
  }

  /** It is only the arbiter that makes this so: in the first cycle after a write-back the cache itself
      asks to read the line it has just written back instead of the one it misses. */
  lemma FirstReadIsMisaddressed(s: System, c: Cycle, plain: nat -> Line)
    requires Inv(s, c.cpu, plain) && s.cache.phase == CheckHit && Step(s, c).cache.phase == ReadMem
    requires Look(s.cache, c.cpu) == DirtyMiss
    ensures var out := Drive(Step(s, c).cache, c.cpu, c.noise);
      out.pmemRead && out.pmemLine == Drive(s.cache, c.cpu, c.noise).pmemLine != LineOf(c.cpu)
    ensures Step(s, c).grant == A.Decode
  {
    var numSets, index := |s.cache.sets|, IndexOf(LineOf(c.cpu), |s.cache.sets|);
    var ways, tag := SetOf(s.cache, c.cpu), ReqTag(s.cache, c.cpu);
    var k := Selected(ways, tag);
    assert SetTrue(s.mem, plain, ways, index, numSets, Skip(s.cache, c.cpu, index));
    assert ways[k].valid && ways[k].tag != tag;
    Addresses(LineOf(c.cpu), numSets, ways[k].tag, index);
    BelowEffect(s.grant, s.mem, Wires(s, c), c.ready, c.noise);
    hide SetsTrue, IndexOf, TagOf, LineAt, Selected;
  }
}
