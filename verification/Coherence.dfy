/** What the processor fetches, beside a data cache that nothing keeps coherent with the instruction cache:
    always some version of the line, the current one of lines that it does not store to, and an old one on
    some run for every line that it may store to. */
module Coherence {
  import opened LineMemory
  import opened Cache
  import opened ReadOnlyCache
  import opened WholeMemory
  import opened WholeProgress
  import A = CacheArbiter
  import LA = LineAdaptor
  import MS = MemorySystem
  import MP = MemoryProgress

  // ----- one clock

  /** The memory below keeps what it has, or takes what the plain memory has. */
  lemma MemoryFollows(s: MS.System, c: MS.Cycle, plain: nat -> Line, a: nat)
    requires MS.Inv(s, c.cpu, plain)
    ensures MS.Step(s, c).mem(a) == s.mem(a) || MS.Step(s, c).mem(a) == plain(a)
  {
    var index := IndexOf(LineOf(c.cpu), |s.cache.sets|);
    assert MS.SetTrue(s.mem, plain, s.cache.sets[index], index, |s.cache.sets|, MS.Skip(s.cache, c.cpu, index));
    MS.BelowEffect(s.grant, s.mem, MS.Wires(s, c), c.ready, c.noise);
    hide IndexOf, TagOf, LineAt, Selected, MS.DirtyCopy;
  }

  /** What is handed to the instruction cache. */
  lemma FetchedLine(s: Whole, c: Cycle, plain: nat -> Line, lines: nat -> Line)
    requires Inv(s, c, plain, lines) && Below(s, c).iResp
    ensures Below(s, c).iData == lines(LineOf(c.fetch))
  {
    NeverWrites(s.inst, c.fetch, Bus(s));
    hide MS.Inv, MP.GrantAsked, Clean, Fetching, Selected, IsHit;
  }

  lemma FetchGoesOn(s: Whole, c: Cycle, next: Cycle, a: nat, v: Line)
    requires Sized(s) && Clean(s.inst) && Fetching(s.inst, c.fetch) && Holding(s, c, next)
    requires CacheHolds(s.inst, c.fetch, a, v)
    requires Below(s, c).iResp && LineOf(c.fetch) == a ==> Below(s, c).iData == v
    ensures CacheHolds(Step(s, c).inst, next.fetch, a, v)
  {
    GoesOn(s.inst, c.fetch, Below(s, c).iResp, Below(s, c).iData, next.fetch, a, v);
    hide Selected, IsHit, IndexOf, TagOf, LA.Step, Clean, Fetching, NextWays, CacheHolds;
  }

  /** What becomes of line a below, and of the versions of it that the instruction cache may hold. */
  lemma VersionStep(s: Whole, c: Cycle, next: Cycle, plain: nat -> Line, lines: nat -> Line, a: nat, v: Line)
    requires Inv(s, c, plain, lines) && Holding(s, c, next) && CacheHolds(s.inst, c.fetch, a, v)
    ensures var lines' := LA.LineStep(lines, Resp(s), CommandOf(s, c)); lines'(a) == lines(a) || lines'(a) == plain(a)
    ensures CacheHolds(Step(s, c).inst, next.fetch, a, v) || CacheHolds(Step(s, c).inst, next.fetch, a, lines(a))
    ensures v == lines(a) ==> CacheHolds(Step(s, c).inst, next.fetch, a, v)
    ensures Fetched(s, c).memResp && LineOf(c.fetch) == a ==> Fetched(s, c).rdata == v
  {
    InvParts(s, c, plain, lines);
    Simulates(s, c, lines);
    MemoryFollows(View(s, lines), Seen(s, c), plain, a);
    if Fetched(s, c).memResp && LineOf(c.fetch) == a { HitDelivers(s.inst, c.fetch, a, v, Below(s, c).iData); }
    HeldVersion(s, c, next, plain, lines, a, v);
    hide Drive, Next, LA.Step, LA.Inv, MS.Inv, MP.GrantAsked, MS.Step, Clean, Fetching, CacheHolds, Inv;
  }

  lemma HeldVersion(s: Whole, c: Cycle, next: Cycle, plain: nat -> Line, lines: nat -> Line, a: nat, v: Line)
    requires Inv(s, c, plain, lines) && Holding(s, c, next) && CacheHolds(s.inst, c.fetch, a, v)
    ensures CacheHolds(Step(s, c).inst, next.fetch, a, v) || CacheHolds(Step(s, c).inst, next.fetch, a, lines(a))
    ensures v == lines(a) ==> CacheHolds(Step(s, c).inst, next.fetch, a, v)
  {
    InvParts(s, c, plain, lines);
    if Below(s, c).iResp && LineOf(c.fetch) == a {
      FetchedLine(s, c, plain, lines);
      RespWhileReading(s, c, plain, lines);
      MissHoldsAnything(s.inst, c.fetch, a, lines(a));
      hide Inv, Step, CacheHolds, Clean, Fetching, Holding, Below;
      FetchGoesOn(s, c, next, a, lines(a));
    } else {
      hide Inv, Step, CacheHolds, Clean, Fetching, Holding, Below;
      FetchGoesOn(s, c, next, a, v);
    }
  }

  lemma RespWhileReading(s: Whole, c: Cycle, plain: nat -> Line, lines: nat -> Line)
    requires Inv(s, c, plain, lines) && Below(s, c).iResp
    ensures s.inst.phase == ReadMem
  {
    hide MS.Inv, LA.Inv, Clean, Fetching, MP.GrantAsked, Drive;
  }

  // ----- every fetch gets a version

  lemma StartHolds(start: Whole, mem: nat -> Line, c: Cycle, a: nat)
    requires Starts(start, mem)
    ensures Sized(start) && CacheHolds(start.inst, c.fetch, a, mem(a))
  {
  }

  lemma {:induction false} RunVersions(start: Whole, mem: nat -> Line, cs: seq<Cycle>, a: nat, k: nat)
    returns (i: nat, j: nat)
    requires Starts(start, mem) && Sized(start) && Stable(start, cs) && k < |cs|
    ensures i <= k && Lines(start, cs[..k])(a) == Plain(start, cs[..i])(a)
    ensures j <= k && CacheHolds(Run(start, cs[..k]).inst, cs[k].fetch, a, Plain(start, cs[..j])(a))
  {
    hide Inv, Step, Starts, LA.LineStep, MS.PlainStep, Resp, CommandOf, Holding, Run, Plain, Lines, CacheHolds, Fetched;
    if k == 0 {
      RunStart(start, mem, cs);
      StartHolds(start, mem, cs[0], a);
      i, j := 0, 0;
    } else {
      i, j := RunVersions(start, mem, cs, a, k - 1);
      RunInv(start, mem, cs, k - 1);
      RunNext(start, cs, k - 1);
      assert HoldsAt(start, cs, k);
      var s, c, lines := Run(start, cs[..k - 1]), cs[k - 1], Lines(start, cs[..k - 1]);
      var v := Plain(start, cs[..j])(a);
      VersionStep(s, c, cs[k], Plain(start, cs[..k - 1]), lines, a, v);
      if !CacheHolds(Step(s, c).inst, cs[k].fetch, a, v) { j := i; }
      if LA.LineStep(lines, Resp(s), CommandOf(s, c))(a) != lines(a) { i := k - 1; }
    }
  }

  /** Every fetch, on every run, gets its line as the plain memory had it at that or some earlier clock. */
  lemma FetchesAreVersions(start: Whole, mem: nat -> Line, cs: seq<Cycle>, k: nat) returns (j: nat)
    requires Starts(start, mem) && Sized(start) && Stable(start, cs) && k < |cs|
    ensures j <= k
    ensures var fetched := Fetched(Run(start, cs[..k]), cs[k]);
      fetched.memResp ==> fetched.rdata == Plain(start, cs[..j])(LineOf(cs[k].fetch))
  {
    hide Inv, Step, Answer, Fetched, Starts, Sized, LA.LineStep, Resp, CommandOf, Run, Plain, Lines, Stable, CacheHolds;
    var a, i := LineOf(cs[k].fetch), 0;
    i, j := RunVersions(start, mem, cs, a, k);
    RunInv(start, mem, cs, k);
    VersionStep(Run(start, cs[..k]), cs[k], cs[k], Plain(start, cs[..k]), Lines(start, cs[..k]), a,
      Plain(start, cs[..j])(a));
  }

  // ----- and the current one of lines that are not stored to

  /** The processor does not store to line a. */
  ghost predicate NeverStored(cs: seq<Cycle>, a: nat) {
    forall k :: 0 <= k < |cs| && cs[k].cpu.write ==> LineOf(cs[k].cpu) != a
  }

  lemma {:induction false} PlainKeeps(start: Whole, cs: seq<Cycle>, a: nat)
    requires Sized(start) && NeverStored(cs, a)
    ensures Plain(start, cs)(a) == start.line.below.mem(a)
    decreases |cs|
  {
    hide Answer, Sized, Run;
    if cs != [] { PlainKeeps(start, cs[..|cs| - 1], a); }
  }

  /** So what is fetched from a line that has not been stored to is what was in memory: write-backs,
      refills and evictions in between never change it. */
  lemma FetchesAreExact(start: Whole, mem: nat -> Line, cs: seq<Cycle>, k: nat)
    requires Starts(start, mem) && Sized(start) && Stable(start, cs) && k < |cs|
    requires NeverStored(cs[..k], LineOf(cs[k].fetch))
    ensures var fetched, a := Fetched(Run(start, cs[..k]), cs[k]), LineOf(cs[k].fetch);
      fetched.memResp ==> fetched.rdata == mem(a) == Plain(start, cs[..k])(a)
  {
    hide Fetched, Starts, Sized, Run, Plain, Stable;
    var j := FetchesAreVersions(start, mem, cs, k);
    StartsWith(start, mem);
    var a := LineOf(cs[k].fetch);
    assert cs[..k][..j] == cs[..j];
    PlainKeeps(start, cs[..j], a);
    PlainKeeps(start, cs[..k], a);
  }

  // ----- an old one of a line that is stored to

  /** The store of another word to line a, the fetch from it, and a clock without either. */
  function OtherWord(mem: nat -> Line, a: nat): Request
    requires a < 0x800_0000
  {
    var byte: int := mem(a)[0];
    Request(false, true, 32 * a, [(byte + 1) % 0x100, 0, 0, 0], [true, false, false, false])
  }

  function FetchOf(a: nat): Fetch
    requires a < 0x800_0000
  {
    Request(true, false, 32 * a, [0, 0, 0, 0], [false, false, false, false])
  }

  function Nothing(): Fetch {
    Request(false, false, 0, [0, 0, 0, 0], [false, false, false, false])
  }

  function Storing(mem: nat -> Line, a: nat): Cycle
    requires a < 0x800_0000
  {
    Cycle(OtherWord(mem, a), Nothing(), true)
  }

  function FetchingFrom(a: nat): Cycle
    requires a < 0x800_0000
  {
    Cycle(Nothing(), FetchOf(a), true)
  }

  /** Clocks of the one and then of the other. */
  function Program(mem: nat -> Line, a: nat, stores: nat, fetches: nat): (cs: seq<Cycle>)
    requires a < 0x800_0000
    ensures |cs| == stores + fetches
    ensures forall k :: 0 <= k < |cs| ==> cs[k] == if k < stores then Storing(mem, a) else FetchingFrom(a)
  {
    seq(stores, _ => Storing(mem, a)) + seq(fetches, _ => FetchingFrom(a))
  }

  lemma ProgramPrefix(mem: nat -> Line, a: nat, stores: nat, fetches: nat, k: nat)
    requires a < 0x800_0000 && k <= stores + fetches
    ensures Program(mem, a, stores, fetches)[..k] == if k <= stores then Program(mem, a, k, 0)
      else Program(mem, a, stores, k - stores)
  {
  }

  /** The store is answered after n clocks of asking for it. */
  ghost predicate StoredAfter(start: Whole, mem: nat -> Line, a: nat, n: nat)
    requires Sized(start) && a < 0x800_0000
  {
    Answer(Run(start, Program(mem, a, n, 0)), Storing(mem, a)).memResp
  }

  lemma ReadyAlways(cs: seq<Cycle>, j: nat, k: nat)
    requires j <= k <= |cs| && forall i :: 0 <= i < |cs| ==> cs[i].ready
    ensures ReadyClocks(cs, j, k) == k - j
  {
    if j < k { ReadyAlways(cs, j, k - 1); }
  }

  lemma SameHolds(start: Whole, mem: nat -> Line, a: nat, n: nat)
    requires Sized(start) && a < 0x800_0000
    ensures Stable(start, Program(mem, a, n, 0))
  {
    hide Answer, Fetched, Run, Sized;
  }

  lemma Asks(mem: nat -> Line, a: nat)
    requires a < 0x800_0000
    ensures Active(Storing(mem, a).cpu) && !Active(Storing(mem, a).fetch) && Storing(mem, a).ready
    ensures !Active(FetchingFrom(a).cpu) && Active(FetchingFrom(a).fetch) && FetchingFrom(a).ready
    ensures LineOf(Storing(mem, a).cpu) == a == LineOf(FetchingFrom(a).fetch)
  {
  }

  lemma StoreWaits(start: Whole, mem: nat -> Line, a: nat, k: nat)
    requires Sized(start) && a < 0x800_0000 && k < 37 && !StoredAfter(start, mem, a, k)
    ensures DataWaits(start, Program(mem, a, 37, 0), k)
  {
    hide Run, Answer, Active, Program, Sized;
    ProgramPrefix(mem, a, 37, 0, k);
    Asks(mem, a);
  }

  /** The path answers it within 36 clocks. */
  lemma StoreIsAnswered(start: Whole, mem: nat -> Line, a: nat)
    requires Starts(start, mem) && Sized(start) && a < 0x800_0000
    ensures exists n: nat | n < 36 :: StoredAfter(start, mem, a, n)
  {
    hide Run, Starts, Sized, Stable, DataWaits, StoredAfter, Moving, Active, Answer;
    if forall n: nat | n < 36 :: !StoredAfter(start, mem, a, n) {
      var cs := Program(mem, a, 37, 0);
      SameHolds(start, mem, a, 37);
      forall k: nat | k < 36 ensures DataWaits(start, cs, k) { StoreWaits(start, mem, a, k); }
      DataAnsweredInTime(start, mem, cs, 0, 36);
      ReadyAlways(cs, 0, 36);
    }
  }

  lemma {:induction false} FirstStored(start: Whole, mem: nat -> Line, a: nat, n0: nat) returns (n: nat)
    requires Sized(start) && a < 0x800_0000 && StoredAfter(start, mem, a, n0)
    ensures StoredAfter(start, mem, a, n) && forall k: nat | k < n :: !StoredAfter(start, mem, a, k)
    decreases n0
  {
    hide StoredAfter;
    n := n0;
    if k: nat :| k < n0 && StoredAfter(start, mem, a, k) { n := FirstStored(start, mem, a, k); }
  }

  ghost predicate FirstAnswer(start: Whole, mem: nat -> Line, a: nat, n: nat)
    requires Sized(start) && a < 0x800_0000
  {
    StoredAfter(start, mem, a, n) && forall k: nat | k < n :: !StoredAfter(start, mem, a, k)
  }

  /** The store is asked for until it is answered, and then line a is fetched. */
  lemma ProgramAt(start: Whole, mem: nat -> Line, a: nat, n: nat, fetches: nat, k: nat)
    requires Sized(start) && a < 0x800_0000 && FirstAnswer(start, mem, a, n) && k < n + 1 + fetches
    ensures var cs := Program(mem, a, n + 1, fetches);
      && cs[k] == (if k <= n then Storing(mem, a) else FetchingFrom(a))
      && (k <= n ==> Answer(Run(start, cs[..k]), cs[k]).memResp == (k == n))
      && (k > n ==> !Answer(Run(start, cs[..k]), cs[k]).memResp)
  {
    hide Run, Answer, Program, Sized, Storing, FetchingFrom, Active;
    ProgramPrefix(mem, a, n + 1, fetches, k);
    Asks(mem, a);
    var cs := Program(mem, a, n + 1, fetches);
    if k <= n {
      assert StoredAfter(start, mem, a, k) == (k == n);
    } else {
      IdleGetsNothing(Run(start, cs[..k]), cs[k]);
    }
  }

  lemma IdleGetsNothing(s: Whole, c: Cycle)
    requires Sized(s) && !Active(c.cpu)
    ensures !Answer(s, c).memResp
  {
    hide IsHit, Selected, Below;
  }

  lemma ProgramStable(start: Whole, mem: nat -> Line, a: nat, n: nat, fetches: nat)
    requires Sized(start) && a < 0x800_0000 && FirstAnswer(start, mem, a, n)
    ensures Stable(start, Program(mem, a, n + 1, fetches))
  {
    hide Run, Sized, FirstAnswer, Answer, Fetched, Active;
    var cs := Program(mem, a, n + 1, fetches);
    Asks(mem, a);
    forall k | 0 < k < |cs| ensures HoldsAt(start, cs, k) {
      ProgramAt(start, mem, a, n, fetches, k - 1);
      ProgramAt(start, mem, a, n, fetches, k);
    }
  }

  /** Without a write-back the memory below stays. */
  lemma NoWriteBack(s: Whole, c: Cycle, lines: nat -> Line)
    requires Sized(s) && !Drive(s.data, c.cpu, Bus(s)).pmemWrite
    ensures LA.LineStep(lines, Resp(s), CommandOf(s, c)) == lines
  {
    hide Drive;
  }

  lemma IdleWritesNothing(cache: Cache.State, q: Request, x: Line)
    requires Shapely(cache) && !Active(q)
    ensures !Drive(cache, q, x).pmemWrite
  {
    hide Selected, IsHit;
  }

  /** Until its answer the store is in no way, and after it in no memory. */
  lemma {:induction false} StoreStaysUp(start: Whole, mem: nat -> Line, a: nat, n: nat, fetches: nat, k: nat)
    requires Starts(start, mem) && Sized(start) && a < 0x800_0000 && FirstAnswer(start, mem, a, n)
    requires k <= n + 1 + fetches
    ensures var cs := Program(mem, a, n + 1, fetches);
      && (k <= n ==> Clean(Run(start, cs[..k]).data))
      && Lines(start, cs[..k]) == mem
      && Plain(start, cs[..k]) == if k <= n then mem else MS.PlainStep(mem, true, OtherWord(mem, a))
  {
    hide Run, Lines, Plain, Sized, FirstAnswer, Answer, Step, Program, Starts, Clean, LA.LineStep, Resp, CommandOf,
      Storing, OtherWord, Active, MS.PlainStep;
    var cs := Program(mem, a, n + 1, fetches);
    if k == 0 {
      RunStart(start, mem, cs);
      StartsClean(start, mem);
    } else {
      StoreStaysUp(start, mem, a, n, fetches, k - 1);
      ProgramAt(start, mem, a, n, fetches, k - 1);
      RunNext(start, cs, k - 1);
      StoreStep(Run(start, cs[..k - 1]), mem, a, k <= n, k <= n + 1);
    }
  }

  lemma StartsClean(start: Whole, mem: nat -> Line)
    requires Starts(start, mem)
    ensures Clean(start.data)
  {
  }

  /** The clocks of StoreStaysUp: asking without answer, the answer, and fetching. */
  lemma StoreStep(s: Whole, mem: nat -> Line, a: nat, waiting: bool, storing: bool)
    requires Sized(s) && a < 0x800_0000 && (waiting ==> storing) && (storing ==> Clean(s.data))
    requires var c := if storing then Storing(mem, a) else FetchingFrom(a);
      Answer(s, c).memResp == (storing && !waiting)
    ensures var c := if storing then Storing(mem, a) else FetchingFrom(a);
      && (waiting ==> Clean(Step(s, c).data))
      && LA.LineStep(mem, Resp(s), CommandOf(s, c)) == mem
      && (waiting ==> MS.PlainStep(mem, Answer(s, c).memResp, c.cpu) == mem)
      && (storing && !waiting ==>
         MS.PlainStep(mem, Answer(s, c).memResp, c.cpu) == MS.PlainStep(mem, true, OtherWord(mem, a)))
      && forall plain :: !storing ==> MS.PlainStep(plain, Answer(s, c).memResp, c.cpu) == plain
  {
    var c := if storing then Storing(mem, a) else FetchingFrom(a);
    Asks(mem, a);
    if storing {
      NeverWrites(s.data, c.cpu, Bus(s));
    } else {
      IdleWritesNothing(s.data, c.cpu, Bus(s));
    }
    NoWriteBack(s, c, mem);
    if waiting { WaitingClean(s, c); }
    hide Step, Answer, LA.LineStep, Resp, CommandOf, OtherWord, Drive;
  }

  lemma WaitingClean(s: Whole, c: Cycle)
    requires Sized(s) && Clean(s.data) && Active(c.cpu) && !Answer(s, c).memResp
    ensures Clean(Step(s, c).data)
  {
    StaysCleanUnlessWritten(s.data, c.cpu, Below(s, c).dataResp, Below(s, c).dataOut);
    hide Clean, Selected, IsHit, NextWays, LA.Step;
  }

  /** All the while the instruction cache has nothing but the old line. */
  lemma {:induction false} OldLineStays(start: Whole, mem: nat -> Line, a: nat, n: nat, fetches: nat, k: nat)
    requires Starts(start, mem) && Sized(start) && a < 0x800_0000 && FirstAnswer(start, mem, a, n)
    requires k < n + 1 + fetches
    ensures CacheHolds(Run(start, Program(mem, a, n + 1, fetches)[..k]).inst, Program(mem, a, n + 1, fetches)[k].fetch,
      a, mem(a))
  {
    hide Run, Lines, Plain, FirstAnswer, Fetched, Step, Program, Starts, LA.LineStep, Resp, CommandOf, Storing,
      OtherWord, Active, MS.PlainStep, Inv, Holding, CacheHolds, Stable;
    var cs := Program(mem, a, n + 1, fetches);
    if k == 0 {
      RunStart(start, mem, cs);
      StartHolds(start, mem, cs[0], a);
    } else {
      OldLineStays(start, mem, a, n, fetches, k - 1);
      OldLineNext(start, mem, a, n, fetches, k);
    }
  }

  lemma OldLineNext(start: Whole, mem: nat -> Line, a: nat, n: nat, fetches: nat, k: nat)
    requires Starts(start, mem) && Sized(start) && a < 0x800_0000 && FirstAnswer(start, mem, a, n)
    requires 0 < k < n + 1 + fetches
    requires CacheHolds(Run(start, Program(mem, a, n + 1, fetches)[..k - 1]).inst,
      Program(mem, a, n + 1, fetches)[k - 1].fetch, a, mem(a))
    ensures CacheHolds(Run(start, Program(mem, a, n + 1, fetches)[..k]).inst, Program(mem, a, n + 1, fetches)[k].fetch,
      a, mem(a))
  {
    hide Run, Lines, Plain, FirstAnswer, Fetched, Step, Program, Starts, LA.LineStep, Resp, CommandOf, Storing,
      OtherWord, Active, MS.PlainStep, Inv, Holding, CacheHolds;
    var cs := Program(mem, a, n + 1, fetches);
    ProgramStable(start, mem, a, n, fetches);
    RunInv(start, mem, cs, k - 1);
    RunNext(start, cs, k - 1);
    assert HoldsAt(start, cs, k);
    StoreStaysUp(start, mem, a, n, fetches, k - 1);
    VersionStep(Run(start, cs[..k - 1]), cs[k - 1], cs[k], Plain(start, cs[..k - 1]), Lines(start, cs[..k - 1]), a,
      mem(a));
  }

  lemma OldLineFetched(start: Whole, mem: nat -> Line, a: nat, n: nat, fetches: nat, k: nat)
    requires Starts(start, mem) && Sized(start) && a < 0x800_0000 && FirstAnswer(start, mem, a, n)
    requires n < k < n + 1 + fetches
    ensures var cs := Program(mem, a, n + 1, fetches);
      var fetched := Fetched(Run(start, cs[..k]), cs[k]);
      && cs[k] == FetchingFrom(a) && (fetched.memResp ==> fetched.rdata == mem(a))
      && Plain(start, cs[..k])(a) == Stored(mem(a), 32 * a, OtherWord(mem, a).wdata, OtherWord(mem, a).enable)
  {
    hide Run, Lines, Plain, FirstAnswer, Fetched, Step, Program, Starts, LA.LineStep, Resp, CommandOf, Active, Inv,
      Holding, CacheHolds, Stored;
    var cs := Program(mem, a, n + 1, fetches);
    Asks(mem, a);
    ProgramStable(start, mem, a, n, fetches);
    ProgramAt(start, mem, a, n, fetches, k);
    OldLineStays(start, mem, a, n, fetches, k);
    RunInv(start, mem, cs, k);
    StoreStaysUp(start, mem, a, n, fetches, k);
    assert Holding(Run(start, cs[..k]), cs[k], cs[k]) by { HoldsItself(Run(start, cs[..k]), cs[k]); }
    VersionStep(Run(start, cs[..k]), cs[k], cs[k], Plain(start, cs[..k]), Lines(start, cs[..k]), a, mem(a));
  }

  lemma HoldsItself(s: Whole, c: Cycle)
    requires Sized(s)
    ensures Holding(s, c, c)
  {
  }

  /** The other word is another word. */
  lemma OtherWordDiffers(mem: nat -> Line, a: nat)
    requires a < 0x800_0000
    ensures Stored(mem(a), 32 * a, OtherWord(mem, a).wdata, OtherWord(mem, a).enable) != mem(a)
  {
    var stored := Stored(mem(a), 32 * a, OtherWord(mem, a).wdata, OtherWord(mem, a).enable);
    assert WordIndex(32 * a) == 0;
    var byte: int, byte': int := mem(a)[0], stored[0];
    assert byte' == (byte + 1) % 0x100;
  }

  lemma FetchIsAnswered(start: Whole, mem: nat -> Line, a: nat, n: nat)
    requires Starts(start, mem) && Sized(start) && a < 0x800_0000 && FirstAnswer(start, mem, a, n)
    ensures var cs := Program(mem, a, n + 1, 39);
      exists k: nat | n < k < n + 39 :: Fetched(Run(start, cs[..k]), cs[k]).memResp
  {
    hide Run, Starts, Sized, Stable, FetchWaits, Moving, Fetched, FirstAnswer, Program;
    var cs := Program(mem, a, n + 1, 39);
    if forall k: nat | n < k < n + 39 :: !Fetched(Run(start, cs[..k]), cs[k]).memResp {
      ProgramStable(start, mem, a, n, 39);
      forall k: nat | n + 1 <= k < n + 39 ensures FetchWaits(start, cs, k) { FetchIsWaiting(start, mem, a, n, k); }
      FetchAnsweredInTime(start, mem, cs, n + 1, n + 39);
      ReadyAlways(cs, n + 1, n + 39);
    }
  }

  lemma FetchIsWaiting(start: Whole, mem: nat -> Line, a: nat, n: nat, k: nat)
    requires Sized(start) && a < 0x800_0000 && FirstAnswer(start, mem, a, n) && n < k < n + 40
    requires !Fetched(Run(start, Program(mem, a, n + 1, 39)[..k]), Program(mem, a, n + 1, 39)[k]).memResp
    ensures FetchWaits(start, Program(mem, a, n + 1, 39), k)
  {
    hide Run, Sized, Fetched, FirstAnswer, Active;
    ProgramAt(start, mem, a, n, 39, k);
    Asks(mem, a);
  }

  /** From every start and for every line: a run that stores another word to the line and then fetches from
      it, and is given the line as it was. */
  lemma StaleFetch(start: Whole, mem: nat -> Line, a: nat) returns (cs: seq<Cycle>, k: nat)
    requires Starts(start, mem) && Sized(start) && a < 0x800_0000
    ensures Stable(start, cs) && k < |cs| && LineOf(cs[k].fetch) == a
    ensures forall i :: 0 <= i < |cs| && cs[i].cpu.write ==> LineOf(cs[i].cpu) == a
    ensures var fetched := Fetched(Run(start, cs[..k]), cs[k]);
      fetched.memResp && fetched.rdata == mem(a) != Plain(start, cs[..k])(a)
  {
    hide Run, Starts, Stable, Sized, StoredAfter, Plain, Fetched, Stored;
    StoreIsAnswered(start, mem, a);
    var n0: nat :| n0 < 36 && StoredAfter(start, mem, a, n0);
    var n := FirstStored(start, mem, a, n0);
    cs := Program(mem, a, n + 1, 39);
    Asks(mem, a);
    ProgramStable(start, mem, a, n, 39);
    FetchIsAnswered(start, mem, a, n);
    k :| n < k < n + 39 && Fetched(Run(start, cs[..k]), cs[k]).memResp;
    OldLineFetched(start, mem, a, n, 39, k);
    OtherWordDiffers(mem, a);
  }

  // ----- the exact condition

  ghost predicate StoresWithin(cs: seq<Cycle>, lines: set<nat>) {
    forall k :: 0 <= k < |cs| && cs[k].cpu.write ==> LineOf(cs[k].cpu) in lines
  }

  /** What is fetched in clock k, if it is answered, is what the answered stores have made of the line. */
  ghost predicate IsExact(start: Whole, cs: seq<Cycle>, k: nat)
    requires Sized(start) && k < |cs|
  {
    var fetched := Fetched(Run(start, cs[..k]), cs[k]);
    fetched.memResp ==> fetched.rdata == Plain(start, cs[..k])(LineOf(cs[k].fetch))
  }

  /** Fetches from a line are exact on every run of a processor that stores only to certain lines if and
      only if the line is not one of them. */
  lemma ExactIffNotStored(start: Whole, mem: nat -> Line, lines: set<nat>, a: nat)
    requires Starts(start, mem) && Sized(start) && a < 0x800_0000
    ensures a !in lines <==>
      forall cs: seq<Cycle>, k: nat ::
        Stable(start, cs) && StoresWithin(cs, lines) && k < |cs| && LineOf(cs[k].fetch) == a
        ==> IsExact(start, cs, k)
  {
    hide Starts, Sized, Stable, Run, Fetched, Plain;
    if a in lines {
      var cs, k := StaleFetch(start, mem, a);
      assert StoresWithin(cs, lines) && !IsExact(start, cs, k);
    } else {
      forall cs: seq<Cycle>, k: nat | Stable(start, cs) && StoresWithin(cs, lines) && k < |cs|
        && LineOf(cs[k].fetch) == a
        ensures IsExact(start, cs, k)
      {
        FetchesAreExact(start, mem, cs, k);
      }
    }
  }
}
