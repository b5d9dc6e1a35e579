/** The data cache, the arbiter and the memory as one system: over any run the processor sees a plain
    memory, whatever the delays and whatever the instruction cache asks for in between. */
module MemorySystem {
  import opened Division
  import opened LineMemory
  import opened Cache
  import A = CacheArbiter

  datatype System = System(cache: Cache.State, grant: A.Grant, mem: nat -> Line)

  /** One clock: what the processor and the instruction cache ask for, whether the memory is ready to
      answer, and the line that is on the bus when it answers no read. */
  datatype Cycle = Cycle(cpu: Request, iRead: bool, iLine: nat, ready: bool, noise: Line)

  predicate Sized(s: System) {
    |s.cache.sets| > 0 && forall i :: 0 <= i < |s.cache.sets| ==> |s.cache.sets[i]| > 0
  }

  /** The requests at the arbiter. While the cache fills a way its write data echo the read data, but
      then the arbiter passes no write data on. */
  function Wires(s: System, c: Cycle): A.Requests
    requires Sized(s)
  {
    var out := Drive(s.cache, c.cpu, c.noise);
    A.Requests(out.pmemRead, out.pmemWrite, out.pmemLine, out.pmemWdata, c.iRead, c.iLine)
  }

  function Below(s: System, c: Cycle): A.Outputs
    requires Sized(s)
  {
    A.Driven(s.grant, s.mem, Wires(s, c), c.ready, c.noise)
  }

  /** What the processor gets back. */
  function Answer(s: System, c: Cycle): Outputs
    requires Sized(s)
  {
    Drive(s.cache, c.cpu, Below(s, c).dataOut)
  }

  function Step(s: System, c: Cycle): (s': System)
    requires Sized(s)
    ensures Sized(s') && |s'.cache.sets| == |s.cache.sets|
  {
    var below := Below(s, c);
    System(Next(s.cache, c.cpu, below.dataResp, below.dataOut),
          A.NextGrant(s.grant, Wires(s, c), A.Answers(s.grant, Wires(s, c), c.ready)),
          A.NextMemory(s.grant, s.mem, Wires(s, c), c.ready))
  }

  /** After reset. */
  function Start(numSets: nat, numWays: nat, mem: nat -> Line): (s: System)
    requires numSets > 0 && numWays > 0
    ensures Sized(s) && |s.cache.sets| == numSets
  {
    System(Reset(numSets, numWays), A.Decode, mem)
  }

  ghost function Run(start: System, cs: seq<Cycle>): (s: System)
    requires Sized(start)
    ensures Sized(s) && |s.cache.sets| == |start.cache.sets|
  {
    if cs == [] then start else Step(Run(start, cs[..|cs| - 1]), cs[|cs| - 1])
  }

  /** The plain memory: each answered write applied at once, under its byte mask. */
  function PlainStep(plain: nat -> Line, answered: bool, q: Request): nat -> Line {
    if answered && q.write
    then WriteLine(plain, LineOf(q), Stored(plain(LineOf(q)), q.address, q.wdata, q.enable))
    else plain
  }

  ghost function Plain(start: System, cs: seq<Cycle>): nat -> Line
    requires Sized(start)
  {
    if cs == [] then start.mem
    else
      var before, c := cs[..|cs| - 1], cs[|cs| - 1];
      PlainStep(Plain(start, before), Answer(Run(start, before), c).memResp, c.cpu)
  }

  /** The processor holds a request until it is answered. */
  predicate Holding(s: System, c: Cycle, next: Request)
    requires Sized(s)
  {
    Active(c.cpu) && !Answer(s, c).memResp ==> next == c.cpu
  }

  ghost predicate Stable(start: System, cs: seq<Cycle>)
    requires Sized(start)
  {
    forall k | 0 < k < |cs| :: HoldsAt(start, cs, k)
  }

  ghost predicate HoldsAt(start: System, cs: seq<Cycle>, k: int)
    requires Sized(start) && 0 < k < |cs|
  {
    Holding(Run(start, cs[..k - 1]), cs[k - 1], cs[k].cpu)
  }

  lemma RunNext(start: System, cs: seq<Cycle>, k: nat)
    requires Sized(start) && k < |cs|
    ensures Run(start, cs[..k + 1]) == Step(Run(start, cs[..k]), cs[k])
  {
    assert cs[..k + 1][..k] == cs[..k];
  }

  // ----- addresses

  /** Tag and index together are the address of a line. */
  lemma Addresses(a: nat, numSets: nat, tag: nat, index: nat)
    requires index < numSets
    ensures a == LineAt(tag, index, numSets) <==> TagOf(a, numSets) == tag && IndexOf(a, numSets) == index
  {
    assert a == numSets * (a / numSets) + a % numSets;
    if a == LineAt(tag, index, numSets) { QuotientIs(a, numSets, tag, index); }
  }

  // ----- one set

  /** A dirty way other than skip holds the tag. */
  ghost predicate DirtyCopy(ways: seq<Way>, tag: nat, skip: nat) {
    exists w :: 0 <= w < |ways| && w != skip && ways[w].valid && ways[w].dirty && ways[w].tag == tag
  }

  /** A set whose ways, but for skip, hold what the plain memory holds, and for whose lines the memory
      does so too unless a dirty way does. */
  ghost predicate SetTrue(mem: nat -> Line, plain: nat -> Line, ways: seq<Way>, index: nat, numSets: nat, skip: nat)
    requires index < numSets
  {
    && (forall w :: 0 <= w < |ways| && ways[w].dirty ==> ways[w].valid)
    && (forall w, v ::
          0 <= w < |ways| && 0 <= v < |ways| && ways[w].valid && ways[v].valid && ways[w].tag == ways[v].tag ==> w == v)
    && (forall w :: 0 <= w < |ways| && w != skip && ways[w].valid ==>
       ways[w].line == plain(LineAt(ways[w].tag, index, numSets)))
    && (forall a: nat :: IndexOf(a, numSets) == index ==>
       mem(a) == plain(a) || DirtyCopy(ways, TagOf(a, numSets), skip))
  }

  /** Other sets do not notice changes to lines of this one. */
  lemma OtherSet(mem: nat -> Line, plain: nat -> Line, mem': nat -> Line, plain': nat -> Line, ways: seq<Way>,
                 index: nat, numSets: nat, skip: nat)
    requires index < numSets && SetTrue(mem, plain, ways, index, numSets, skip)
    requires forall a: nat :: IndexOf(a, numSets) == index ==> mem'(a) == mem(a) && plain'(a) == plain(a)
    ensures SetTrue(mem', plain', ways, index, numSets, skip)
  {
    hide IndexOf, TagOf, LineAt, DirtyCopy;
    forall w | 0 <= w < |ways| && w != skip && ways[w].valid
      ensures ways[w].line == plain'(LineAt(ways[w].tag, index, numSets))
    {
      Addresses(LineAt(ways[w].tag, index, numSets), numSets, ways[w].tag, index);
    }
  }

  /** A hit: the way holds what the plain memory holds. Reading only ages the ways. */
  lemma HitRead(mem: nat -> Line, plain: nat -> Line, ways: seq<Way>, index: nat, numSets: nat, a: nat)
    requires index < numSets && |ways| > 0 && SetTrue(mem, plain, ways, index, numSets, |ways|)
    requires IndexOf(a, numSets) == index && IsHit(ways, TagOf(a, numSets))
    ensures var k := Selected(ways, TagOf(a, numSets));
      ways[k].line == plain(a) && SetTrue(mem, plain, Touched(ways, k), index, numSets, |ways|)
  {
    var tag := TagOf(a, numSets);
    var k := Selected(ways, tag);
    Addresses(a, numSets, tag, index);
    var aged := Touched(ways, k);
    hide IndexOf, TagOf, LineAt, Selected;
    forall x: nat | IndexOf(x, numSets) == index
      ensures mem(x) == plain(x) || DirtyCopy(aged, TagOf(x, numSets), |ways|)
    {
      if mem(x) != plain(x) {
        var w :| 0 <= w < |ways| && ways[w].valid && ways[w].dirty && ways[w].tag == TagOf(x, numSets);
        assert aged[w].dirty;
      }
    }
  }

  /** Writing makes the way dirty and the plain memory follows. */
  lemma HitWrite(mem: nat -> Line, plain: nat -> Line, ways: seq<Way>, index: nat, numSets: nat, a: nat, line: Line)
    requires index < numSets && |ways| > 0 && SetTrue(mem, plain, ways, index, numSets, |ways|)
    requires IndexOf(a, numSets) == index && IsHit(ways, TagOf(a, numSets))
    ensures var k := Selected(ways, TagOf(a, numSets));
      SetTrue(mem, WriteLine(plain, a, line), ways[k := ways[k].(dirty := true, line := line)], index, numSets, |ways|)
  {
    var tag := TagOf(a, numSets);
    var k := Selected(ways, tag);
    assert ways[k].valid && ways[k].tag == tag;
    var ways' := ways[k := ways[k].(dirty := true, line := line)];
    hide IndexOf, TagOf, LineAt, Selected, IsHit;
    forall w | 0 <= w < |ways| && ways[w].valid
      ensures ways'[w].line == WriteLine(plain, a, line)(LineAt(ways[w].tag, index, numSets))
    {
      Addresses(a, numSets, ways[w].tag, index);
    }
    forall x: nat | IndexOf(x, numSets) == index
      ensures mem(x) == WriteLine(plain, a, line)(x) || DirtyCopy(ways', TagOf(x, numSets), |ways|)
    {
      if x == a {
        assert ways'[k].dirty;
      } else if mem(x) != plain(x) {
        var w :| 0 <= w < |ways| && ways[w].valid && ways[w].dirty && ways[w].tag == TagOf(x, numSets);
        assert ways'[w].dirty;
      }
    }
  }

  /** A clean way can be given up at once. */
  lemma GiveUpClean(mem: nat -> Line, plain: nat -> Line, ways: seq<Way>, index: nat, numSets: nat, k: nat)
    requires index < numSets && k < |ways| && SetTrue(mem, plain, ways, index, numSets, |ways|) && !ways[k].dirty
    ensures SetTrue(mem, plain, ways, index, numSets, k)
  {
    hide IndexOf, TagOf, LineAt;
    forall x: nat | IndexOf(x, numSets) == index
      ensures mem(x) == plain(x) || DirtyCopy(ways, TagOf(x, numSets), k)
    {
      if mem(x) != plain(x) {
        var w :| 0 <= w < |ways| && ways[w].valid && ways[w].dirty && ways[w].tag == TagOf(x, numSets);
        assert w != k;
      }
    }
  }

  /** A dirty one once its line is in the memory. */
  lemma WriteBack(mem: nat -> Line, plain: nat -> Line, ways: seq<Way>, index: nat, numSets: nat, k: nat)
    requires index < numSets && k < |ways| && SetTrue(mem, plain, ways, index, numSets, |ways|) && ways[k].dirty
    ensures SetTrue(WriteLine(mem, LineAt(ways[k].tag, index, numSets), ways[k].line), plain, ways, index, numSets, k)
  {
    hide IndexOf, TagOf, LineAt;
    var b := LineAt(ways[k].tag, index, numSets);
    forall x: nat | IndexOf(x, numSets) == index
      ensures WriteLine(mem, b, ways[k].line)(x) == plain(x) || DirtyCopy(ways, TagOf(x, numSets), k)
    {
      Addresses(x, numSets, ways[k].tag, index);
      if x != b && mem(x) != plain(x) {
        var w :| 0 <= w < |ways| && ways[w].valid && ways[w].dirty && ways[w].tag == TagOf(x, numSets);
        assert w != k;
      }
    }
  }

  /** What happens to the given-up way does not matter. */
  lemma Clobber(mem: nat -> Line, plain: nat -> Line, ways: seq<Way>, index: nat, numSets: nat, k: nat, line: Line)
    requires index < numSets && k < |ways| && SetTrue(mem, plain, ways, index, numSets, k)
    ensures SetTrue(mem, plain, ways[k := ways[k].(dirty := false, line := line)], index, numSets, k)
  {
    hide IndexOf, TagOf, LineAt;
    var ways' := ways[k := ways[k].(dirty := false, line := line)];
    forall x: nat | IndexOf(x, numSets) == index
      ensures mem(x) == plain(x) || DirtyCopy(ways', TagOf(x, numSets), k)
    {
      if mem(x) != plain(x) {
        var w :| 0 <= w < |ways| && w != k && ways[w].valid && ways[w].dirty && ways[w].tag == TagOf(x, numSets);
        assert ways'[w] == ways[w];
      }
    }
  }

  /** After a miss the memory holds what the plain memory holds, and the way that is filled from it too. */
  lemma Fill(mem: nat -> Line, plain: nat -> Line, ways: seq<Way>, index: nat, numSets: nat, a: nat)
    requires index < numSets && |ways| > 0 && IndexOf(a, numSets) == index && !IsHit(ways, TagOf(a, numSets))
    requires SetTrue(mem, plain, ways, index, numSets, Selected(ways, TagOf(a, numSets)))
    ensures var tag := TagOf(a, numSets);
      var k := Selected(ways, tag);
      SetTrue(mem, plain, ways[k := Way(true, false, tag, mem(a), ways[k].lru)], index, numSets, |ways|)
  {
    var tag := TagOf(a, numSets);
    var k := Selected(ways, tag);
    HitIsSomewhere(ways, tag);
    assert forall w :: 0 <= w < |ways| && ways[w].valid ==> ways[w].tag != tag by {
      assert forall w :: 0 <= w < |ways| ==> !Fits(ways[w], Hit(tag), |ways|);
    }
    Addresses(a, numSets, tag, index);
    assert mem(a) == plain(a);
    var ways' := ways[k := Way(true, false, tag, mem(a), ways[k].lru)];
    hide IndexOf, TagOf, LineAt, Selected, IsHit;
    forall x: nat | IndexOf(x, numSets) == index
      ensures mem(x) == plain(x) || DirtyCopy(ways', TagOf(x, numSets), |ways|)
    {
      if mem(x) != plain(x) {
        var w :| 0 <= w < |ways| && w != k && ways[w].valid && ways[w].dirty && ways[w].tag == TagOf(x, numSets);
        assert ways'[w] == ways[w];
      }
    }
  }

  // ----- the whole cache

  /** The way of set i that is being refilled, or none. */
  function Skip(cache: Cache.State, q: Request, i: nat): nat
    requires i < |cache.sets| && forall j :: 0 <= j < |cache.sets| ==> |cache.sets[j]| > 0
  {
    if cache.phase == ReadMem && i == IndexOf(LineOf(q), |cache.sets|)
    then Selected(SetOf(cache, q), ReqTag(cache, q))
    else |cache.sets[i]|
  }

  ghost predicate SetsTrue(s: System, q: Request, plain: nat -> Line)
    requires Sized(s)
  {
    forall i: nat | i < |s.cache.sets| ::
      SetTrue(s.mem, plain, s.cache.sets[i], i, |s.cache.sets|, Skip(s.cache, q, i))
  }

  /** While a way is refilled its line is asked for and is nowhere in its set. Until the first such
      cycle is over the way may still be marked dirty, but then the arbiter grants nothing. */
  predicate Refilling(s: System, q: Request)
    requires Sized(s)
  {
    var ways, tag := SetOf(s.cache, q), ReqTag(s.cache, q);
    Active(q) && !IsHit(ways, tag) && (ways[Selected(ways, tag)].dirty ==> s.grant == A.Decode)
  }

  /** The system with request q pending stands for the plain memory. */
  ghost predicate Inv(s: System, q: Request, plain: nat -> Line) {
    Sized(s) && SetsTrue(s, q, plain) && (s.cache.phase == ReadMem ==> Refilling(s, q))
  }

  lemma StartInv(numSets: nat, numWays: nat, mem: nat -> Line, q: Request)
    requires numSets > 0 && numWays > 0
    ensures Inv(Start(numSets, numWays, mem), q, mem)
  {
    hide IndexOf, TagOf, LineAt;
  }

  /** What the arbiter and the memory do to the data client in one cycle. */
  lemma BelowEffect(grant: A.Grant, mem: nat -> Line, q: A.Requests, ready: bool, noise: Line)
    requires !(q.dataRead && q.dataWrite)
    ensures var out, mem' := A.Driven(grant, mem, q, ready, noise), A.NextMemory(grant, mem, q, ready);
      && (out.dataResp ==> grant == A.DCache && (q.dataRead || q.dataWrite))
      && (out.dataResp ==> A.NextGrant(grant, q, A.Answers(grant, q, ready)) == A.Decode)
      && (out.dataResp && q.dataRead ==> out.dataOut == mem(q.dataAddr))
      && mem' == if out.dataResp && q.dataWrite then WriteLine(mem, q.dataAddr, q.dataWdata) else mem
  {
  }

  /** A cycle that changes only the set of the request, and only its lines. */
  lemma OnlyOneSet(s: System, q: Request, plain: nat -> Line, s': System, q': Request, plain': nat -> Line)
    requires Sized(s) && Sized(s') && SetsTrue(s, q, plain) && |s'.cache.sets| == |s.cache.sets|
    requires s.cache.phase == CheckHit || s'.cache.phase == CheckHit || q' == q
    requires s'.cache.phase == ReadMem ==> q' == q
    requires var numSets, index := |s.cache.sets|, IndexOf(LineOf(q), |s.cache.sets|);
      && (forall i :: 0 <= i < numSets && i != index ==> s'.cache.sets[i] == s.cache.sets[i])
      && (forall a: nat :: IndexOf(a, numSets) != index ==> s'.mem(a) == s.mem(a) && plain'(a) == plain(a))
      && SetTrue(s'.mem, plain', s'.cache.sets[index], index, numSets, Skip(s'.cache, q', index))
    ensures SetsTrue(s', q', plain')
  {
    var numSets, index := |s.cache.sets|, IndexOf(LineOf(q), |s.cache.sets|);
    hide IndexOf, TagOf, SetTrue, Selected, Active, IsHit;
    forall i: nat | i < numSets
      ensures SetTrue(s'.mem, plain', s'.cache.sets[i], i, numSets, Skip(s'.cache, q', i))
    {
      if i != index {
        assert Skip(s.cache, q, i) == |s.cache.sets[i]| == Skip(s'.cache, q', i);
        OtherSet(s.mem, plain, s'.mem, plain', s.cache.sets[i], i, numSets, |s.cache.sets[i]|);
      }
    }
  }

  lemma SelectedSame(ways: seq<Way>, ways': seq<Way>, tag: nat)
    requires |ways| == |ways'| > 0
    requires forall w :: 0 <= w < |ways| ==>
      ways[w].valid == ways'[w].valid && ways[w].tag == ways'[w].tag && ways[w].lru == ways'[w].lru
    ensures Selected(ways', tag) == Selected(ways, tag)
  {
    FitsSame(ways, ways', Hit(tag), 0);
    FitsSame(ways, ways', Free, 0);
    FitsSame(ways, ways', Oldest, 0);
  }

  lemma {:induction false} FitsSame(ways: seq<Way>, ways': seq<Way>, wanted: Wanted, i: nat)
    requires |ways| == |ways'| && i <= |ways|
    requires forall w :: 0 <= w < |ways| ==>
      ways[w].valid == ways'[w].valid && ways[w].tag == ways'[w].tag && ways[w].lru == ways'[w].lru
    ensures FirstFit(ways', wanted, i) == FirstFit(ways, wanted, i)
    decreases |ways| - i
  {
    if i < |ways| { FitsSame(ways, ways', wanted, i + 1); }
  }

  // ----- the cases of a cycle

  /** The lines of the set of a request, before and after a cycle. */
  ghost predicate SetAfter(s: System, c: Cycle, q': Request, plain': nat -> Line)
    requires Sized(s)
  {
    var s', index := Step(s, c), IndexOf(LineOf(c.cpu), |s.cache.sets|);
    && SetTrue(s'.mem, plain', s'.cache.sets[index], index, |s.cache.sets|, Skip(s'.cache, q', index))
    && (s'.cache.phase == ReadMem ==> q' == c.cpu && Refilling(s', q'))
  }

  /** A cycle without a request for the cache, or with a hit. */
  lemma HitCycle(s: System, c: Cycle, q': Request, plain: nat -> Line)
    requires Inv(s, c.cpu, plain) && s.cache.phase == CheckHit
    requires Active(c.cpu) ==> IsHit(SetOf(s.cache, c.cpu), ReqTag(s.cache, c.cpu))
    ensures var answer := Answer(s, c);
      && answer.memResp == Active(c.cpu)
      && SetAfter(s, c, q', PlainStep(plain, answer.memResp, c.cpu))
      && (answer.memResp ==> answer.rdata == PlainStep(plain, true, c.cpu)(LineOf(c.cpu)))
      && Step(s, c).mem == s.mem && Step(s, c).cache.phase == CheckHit
  {
    var numSets, a := |s.cache.sets|, LineOf(c.cpu);
    var index := IndexOf(a, numSets);
    var ways, tag := s.cache.sets[index], TagOf(a, numSets);
    var k := Selected(ways, tag);
    BelowEffect(s.grant, s.mem, Wires(s, c), c.ready, c.noise);
    if Active(c.cpu) {
      HitRead(s.mem, plain, ways, index, numSets, a);
      if c.cpu.write {
        var line := Stored(ways[k].line, c.cpu.address, c.cpu.wdata, c.cpu.enable);
        var aged := Touched(ways, k);
        StillHit(ways, aged, tag);
        HitWrite(s.mem, plain, aged, index, numSets, a, line);
      }
    }
    hide IndexOf, TagOf, LineAt, SetTrue, Selected, Stored, Touched;
  }

  /** Ageing moves no line. */
  lemma StillHit(ways: seq<Way>, aged: seq<Way>, tag: nat)
    requires |ways| > 0 && IsHit(ways, tag) && aged == Touched(ways, Selected(ways, tag))
    ensures IsHit(aged, tag) && Selected(aged, tag) == Selected(ways, tag)
  {
    TagsSame(ways, aged, tag, 0);
  }

  lemma {:induction false} TagsSame(ways: seq<Way>, ways': seq<Way>, tag: nat, i: nat)
    requires |ways| == |ways'| && i <= |ways|
    requires forall w :: 0 <= w < |ways| ==> ways[w].valid == ways'[w].valid && ways[w].tag == ways'[w].tag
    ensures FirstFit(ways', Hit(tag), i) == FirstFit(ways, Hit(tag), i)
    decreases |ways| - i
  {
    if i < |ways| { TagsSame(ways, ways', tag, i + 1); }
  }

  /** A cycle that looks for a line that is not there. */
  lemma MissCycle(s: System, c: Cycle, plain: nat -> Line)
    requires Inv(s, c.cpu, plain) && s.cache.phase == CheckHit
    requires Active(c.cpu) && !IsHit(SetOf(s.cache, c.cpu), ReqTag(s.cache, c.cpu))
    ensures !Answer(s, c).memResp && SetAfter(s, c, c.cpu, plain)
    ensures forall a: nat :: IndexOf(a, |s.cache.sets|) != IndexOf(LineOf(c.cpu), |s.cache.sets|) ==>
      Step(s, c).mem(a) == s.mem(a)
  {
    var numSets, a := |s.cache.sets|, LineOf(c.cpu);
    var index := IndexOf(a, numSets);
    var ways, tag := s.cache.sets[index], TagOf(a, numSets);
    var k := Selected(ways, tag);
    BelowEffect(s.grant, s.mem, Wires(s, c), c.ready, c.noise);
    if !ways[k].dirty {
      GiveUpClean(s.mem, plain, ways, index, numSets, k);
    } else {
      WriteBack(s.mem, plain, ways, index, numSets, k);
      Addresses(LineAt(ways[k].tag, index, numSets), numSets, ways[k].tag, index);
    }
    hide IndexOf, TagOf, LineAt, SetTrue, Selected, IsHit;
  }

  /** A cycle of a refill. */
  lemma RefillCycle(s: System, c: Cycle, q': Request, plain: nat -> Line)
    requires Inv(s, c.cpu, plain) && s.cache.phase == ReadMem && q' == c.cpu
    ensures !Answer(s, c).memResp && SetAfter(s, c, q', plain) && Step(s, c).mem == s.mem
  {
    var numSets, a := |s.cache.sets|, LineOf(c.cpu);
    var index := IndexOf(a, numSets);
    var ways, tag := s.cache.sets[index], TagOf(a, numSets);
    var k := Selected(ways, tag);
    var below := Below(s, c);
    BelowEffect(s.grant, s.mem, Wires(s, c), c.ready, c.noise);
    if below.dataResp {
      Fill(s.mem, plain, ways, index, numSets, a);
    } else {
      Clobber(s.mem, plain, ways, index, numSets, k, below.dataOut);
      var ways' := ways[k := ways[k].(dirty := false, line := below.dataOut)];
      SelectedSame(ways, ways', tag);
    }
    hide IndexOf, TagOf, LineAt, SetTrue, Selected;
  }

  /** Every cycle keeps the system standing for the plain memory, and answers from it. */
  lemma StepInv(s: System, c: Cycle, q': Request, plain: nat -> Line)
    requires Inv(s, c.cpu, plain) && Holding(s, c, q')
    ensures var answer := Answer(s, c);
      && Inv(Step(s, c), q', PlainStep(plain, answer.memResp, c.cpu))
      && (answer.memResp ==> answer.rdata == PlainStep(plain, true, c.cpu)(LineOf(c.cpu)))
  {
    if s.cache.phase == ReadMem {
      RefillCycle(s, c, q', plain);
    } else if Active(c.cpu) && !IsHit(SetOf(s.cache, c.cpu), ReqTag(s.cache, c.cpu)) {
      MissCycle(s, c, plain);
    } else {
      HitCycle(s, c, q', plain);
    }
    var plain' := PlainStep(plain, Answer(s, c).memResp, c.cpu);
    hide IndexOf, TagOf, SetTrue, Selected, IsHit, Answer, Below;
    OnlyOneSet(s, c.cpu, plain, Step(s, c), q', plain');
  }

  lemma {:induction false} RunInv(numSets: nat, numWays: nat, mem: nat -> Line, cs: seq<Cycle>, k: nat)
    requires numSets > 0 && numWays > 0 && Stable(Start(numSets, numWays, mem), cs) && k < |cs|
    ensures var start := Start(numSets, numWays, mem);
      Inv(Run(start, cs[..k]), cs[k].cpu, Plain(start, cs[..k]))
  {
    var start := Start(numSets, numWays, mem);
    hide Inv, Step, PlainStep, Answer, Start, Sized;
    if k == 0 {
      StartInv(numSets, numWays, mem, cs[0].cpu);
    } else {
      RunInv(numSets, numWays, mem, cs, k - 1);
      assert cs[..k][..k - 1] == cs[..k - 1];
      assert HoldsAt(start, cs, k);
      StepInv(Run(start, cs[..k - 1]), cs[k - 1], cs[k].cpu, Plain(start, cs[..k - 1]));
    }
  }

  /** The data cache, the arbiter and the memory are together a plain memory: on every run from reset,
      with any sets and ways, any delays and any fetches in between, each request is answered from the
      memory that the writes answered before it, and its own, have made. */
  lemma Transparent(numSets: nat, numWays: nat, mem: nat -> Line, cs: seq<Cycle>, k: nat)
    requires numSets > 0 && numWays > 0 && Stable(Start(numSets, numWays, mem), cs) && k < |cs|
    ensures var start := Start(numSets, numWays, mem);
      var answer := Answer(Run(start, cs[..k]), cs[k]);
      answer.memResp ==> answer.rdata == Plain(start, cs[..k + 1])(LineOf(cs[k].cpu))
  {
    var start := Start(numSets, numWays, mem);
    hide Inv, Step, Answer, Start;
    RunInv(numSets, numWays, mem, cs, k);
    StepInv(Run(start, cs[..k]), cs[k], cs[k].cpu, Plain(start, cs[..k]));
    assert cs[..k + 1][..k] == cs[..k];
  }

  // ----- what the processor sees, in bytes

  ghost function PlainBytes(start: System, bytes: Bytes, cs: seq<Cycle>): Bytes
    requires Sized(start)
  {
    if cs == [] then bytes
    else
      var before, c := cs[..|cs| - 1], cs[|cs| - 1];
      if Answer(Run(start, before), c).memResp && c.cpu.write
      then ByteWrite(PlainBytes(start, bytes, before), c.cpu.address, c.cpu.wdata, c.cpu.enable)
      else PlainBytes(start, bytes, before)
  }

  lemma {:induction false} PlainHoldsBytes(start: System, bytes: Bytes, cs: seq<Cycle>)
    requires Sized(start) && Holds(start.mem, bytes)
    ensures Holds(Plain(start, cs), PlainBytes(start, bytes, cs))
    decreases |cs|
  {
    hide Holds, Answer, Stored, ByteWrite;
    if cs != [] {
      var before, c := cs[..|cs| - 1], cs[|cs| - 1];
      PlainHoldsBytes(start, bytes, before);
      WriteAgrees(Plain(start, before), PlainBytes(start, bytes, before), c.cpu.address, c.cpu.wdata, c.cpu.enable);
    }
  }

  /** Each word the processor reads is made of the bytes last written at its addresses. */
  lemma ProcessorSeesBytes(numSets: nat, numWays: nat, mem: nat -> Line, bytes: Bytes, cs: seq<Cycle>, k: nat)
    requires numSets > 0 && numWays > 0 && Stable(Start(numSets, numWays, mem), cs) && k < |cs| && Holds(mem, bytes)
    ensures var start, q := Start(numSets, numWays, mem), cs[k].cpu;
      var answer := Answer(Run(start, cs[..k]), cs[k]);
      answer.memResp ==> WordAt(answer.rdata, q.address) == ByteRead(PlainBytes(start, bytes, cs[..k + 1]), q.address)
  {
    var start := Start(numSets, numWays, mem);
    assert Holds(start.mem, bytes);
    hide Holds, Answer, Start, ByteRead, WordAt, Plain, PlainBytes;
    Transparent(numSets, numWays, mem, cs, k);
    PlainHoldsBytes(start, bytes, cs[..k + 1]);
    ReadAgrees(Plain(start, cs[..k + 1]), PlainBytes(start, bytes, cs[..k + 1]), cs[k].cpu.address);
  }
}
