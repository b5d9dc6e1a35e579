/** The first-level cache: the controller and the datapath of param_cache behind a line adapter. It is
    write-back and set-associative with any number of sets and ways. */
module Cache {
  import opened MachineTypes
  import opened LineMemory

  /** One way of one set, across the five arrays. */
  datatype Way = Way(valid: bool, dirty: bool, tag: nat, line: Line, lru: nat)

  datatype Phase = CheckHit | ReadMem

  datatype State = State(phase: Phase, sets: seq<seq<Way>>)

  /** What the processor drives. */
  datatype Request = Request(read: bool, write: bool, address: U32, wdata: Word, enable: WordMask)

  /** What the cache drives; pmemLine is the line that pmem_address lies in. */
  datatype Outputs = Outputs(memResp: bool, rdata: Line, pmemRead: bool, pmemWrite: bool, pmemLine: nat,
    pmemWdata: Line)

  predicate Shaped(s: State, numWays: nat) {
    |s.sets| > 0 && numWays > 0 && forall i :: 0 <= i < |s.sets| ==> |s.sets[i]| == numWays
  }

  predicate Active(q: Request) {
    q.read || q.write
  }

  // ----- where a line lives

  function LineOf(q: Request): nat {
    q.address / 32
  }

  function IndexOf(a: nat, numSets: nat): (i: nat)
    requires numSets > 0
    ensures i < numSets
  {
    a % numSets
  }

  function TagOf(a: nat, numSets: nat): nat
    requires numSets > 0
  {
    a / numSets
  }

  /** {tag, index} */
  function LineAt(tag: nat, index: nat, numSets: nat): nat {
    tag * numSets + index
  }

  // ----- get_index

  datatype Wanted = Hit(tag: nat) | Free | Oldest

  predicate Fits(way: Way, wanted: Wanted, numWays: nat) {
    match wanted
    case Hit(tag) => way.valid && way.tag == tag
    case Free => !way.valid
    case Oldest => way.lru + 1 == numWays
  }

  /** The first way from i on that fits, or the number of ways. */
  function FirstFit(ways: seq<Way>, wanted: Wanted, i: nat): (r: nat)
    requires i <= |ways|
    ensures i <= r <= |ways|
    ensures r < |ways| ==> Fits(ways[r], wanted, |ways|)
    ensures forall j :: i <= j < r ==> !Fits(ways[j], wanted, |ways|)
    decreases |ways| - i
  {
    if i == |ways| || Fits(ways[i], wanted, |ways|) then i else FirstFit(ways, wanted, i + 1)
  }

  /** The way for a tag: the one that holds it, else a free one, else the one least recently used. */
  function Selected(ways: seq<Way>, tag: nat): (r: nat)
    requires |ways| > 0
    ensures r < |ways|
  {
    var hit, free, oldest := FirstFit(ways, Hit(tag), 0), FirstFit(ways, Free, 0), FirstFit(ways, Oldest, 0);
    if hit < |ways| then hit else if free < |ways| then free else if oldest < |ways| then oldest else 0
  }

  /** The function get_index. */
  method GetIndex(ways: seq<Way>, tag: nat) returns (r: nat)
    requires |ways| > 0
    ensures r == Selected(ways, tag)
  {
    for i := 0 to |ways|
      invariant FirstFit(ways, Hit(tag), 0) == FirstFit(ways, Hit(tag), i)
    {
      if ways[i].valid && ways[i].tag == tag { return i; }
    }
    for i := 0 to |ways|
      invariant FirstFit(ways, Free, 0) == FirstFit(ways, Free, i)
    {
      if !ways[i].valid { return i; }
    }
    for i := 0 to |ways|
      invariant FirstFit(ways, Oldest, 0) == FirstFit(ways, Oldest, i)
    {
      if ways[i].lru + 1 == |ways| { return i; }
    }
    return 0;
  }

  predicate IsHit(ways: seq<Way>, tag: nat)
    requires |ways| > 0
  {
    Fits(ways[Selected(ways, tag)], Hit(tag), |ways|)
  }

  /** The selected way holds the tag just when some way does. */
  lemma HitIsSomewhere(ways: seq<Way>, tag: nat)
    requires |ways| > 0
    ensures IsHit(ways, tag) <==> exists i :: 0 <= i < |ways| && Fits(ways[i], Hit(tag), |ways|)
  {
  }

  // ----- one clock

  /** The set that a request addresses. */
  function SetOf(s: State, q: Request): (ways: seq<Way>)
    requires |s.sets| > 0
  {
    s.sets[IndexOf(LineOf(q), |s.sets|)]
  }

  function ReqTag(s: State, q: Request): nat
    requires |s.sets| > 0
  {
    TagOf(LineOf(q), |s.sets|)
  }

  /** The line a selected way drives: bytes that are being written are passed through. */
  function DrivenLine(s: State, q: Request, pmemRdata: Line): Line
    requires |s.sets| > 0 && |SetOf(s, q)| > 0
  {
    var ways, tag := SetOf(s, q), ReqTag(s, q);
    var line := ways[Selected(ways, tag)].line;
    if s.phase == ReadMem then pmemRdata
    else if q.write && IsHit(ways, tag) then Stored(line, q.address, q.wdata, q.enable)
    else line
  }

  function Drive(s: State, q: Request, pmemRdata: Line): Outputs
    requires |s.sets| > 0 && |SetOf(s, q)| > 0
  {
    var ways, tag := SetOf(s, q), ReqTag(s, q);
    var way, hit := ways[Selected(ways, tag)], IsHit(ways, tag);
    var line := DrivenLine(s, q, pmemRdata);
    Outputs(s.phase == CheckHit && Active(q) && hit, line,
            s.phase == ReadMem,
            s.phase == CheckHit && Active(q) && !hit && way.dirty,
            if way.dirty then LineAt(way.tag, IndexOf(LineOf(q), |s.sets|), |s.sets|) else LineOf(q),
            line)
  }

  /** The LRU counters after a hit on way k: those more recent than k age by one, k becomes the most recent. */
  function Touched(ways: seq<Way>, k: nat): (r: seq<Way>)
    requires k < |ways|
    ensures |r| == |ways|
  {
    seq(|ways|, i requires 0 <= i < |ways| =>
      if i == k then ways[i].(lru := 0)
      else if ways[i].lru < ways[k].lru && ways[i].valid then ways[i].(lru := ways[i].lru + 1)
      else ways[i])
  }

  /** The loop of the controller that does it. */
  method Touch(ways: seq<Way>, k: nat) returns (aged: seq<Way>)
    requires k < |ways|
    ensures aged == Touched(ways, k)
  {
    aged := ways;
    for i := 0 to |ways|
      invariant |aged| == |ways|
      invariant forall j :: i <= j < |ways| ==> aged[j] == ways[j]
      invariant forall j :: 0 <= j < i && j != k ==> aged[j] == Touched(ways, k)[j]
      invariant aged[k] == ways[k]
    {
      if ways[i].lru < ways[k].lru && ways[i].valid {
        aged := aged[i := aged[i].(lru := ways[i].lru + 1)];
      }
    }
    aged := aged[k := aged[k].(lru := 0)];
  }

  function NextWays(phase: Phase, ways: seq<Way>, tag: nat, q: Request, resp: bool, pmemRdata: Line): (r: seq<Way>)
    requires |ways| > 0
    ensures |r| == |ways|
  {
    var k := Selected(ways, tag);
    var way := ways[k];
    match phase
    case CheckHit =>
      if !Active(q) || !IsHit(ways, tag) then ways
      else
        var aged := Touched(ways, k);
        if q.write then aged[k := aged[k].(dirty := true, line := Stored(way.line, q.address, q.wdata, q.enable))]
          else aged
    case ReadMem =>
      if resp then ways[k := Way(true, false, tag, pmemRdata, way.lru)]
      else ways[k := way.(dirty := false, line := pmemRdata)]
  }

  function NextPhase(s: State, q: Request, resp: bool): Phase
    requires |s.sets| > 0 && |SetOf(s, q)| > 0
  {
    var ways, tag := SetOf(s, q), ReqTag(s, q);
    if s.phase == ReadMem then (if resp then CheckHit else ReadMem)
    else if Active(q) && !IsHit(ways, tag) && (resp || !ways[Selected(ways, tag)].dirty) then ReadMem
    else CheckHit
  }

  function Next(s: State, q: Request, resp: bool, pmemRdata: Line): State
    requires |s.sets| > 0 && |SetOf(s, q)| > 0
  {
    State(NextPhase(s, q, resp),
          s.sets[IndexOf(LineOf(q), |s.sets|) := NextWays(s.phase, SetOf(s, q), ReqTag(s, q), q, resp, pmemRdata)])
  }

  function Reset(numSets: nat, numWays: nat): State {
    State(CheckHit,
      seq(numSets, _ => seq(numWays, _ => Way(false, false, 0, ZeroLine(), if numWays == 0 then 0 else numWays - 1))))
  }

  lemma ResetIs(numSets: nat, numWays: nat, sets: seq<seq<Way>>)
    requires numWays > 0 && |sets| == numSets
    requires forall i :: 0 <= i < numSets ==>
      sets[i] == seq(numWays, _ => Way(false, false, 0, ZeroLine(), numWays - 1))
    ensures Reset(numSets, numWays) == State(CheckHit, sets)
  {
    forall i | 0 <= i < numSets ensures sets[i] == Reset(numSets, numWays).sets[i] { }
  }

  /** Where a written line comes from: 2'b00, 2'b01 and the default of writing. */
  datatype Writing = FromMemory | FromCpu | Keep

  /** The outputs of param_cache_control; the LRU counters are loaded in the cycles of memResp. */
  datatype Signals = Signals(tagLoad: bool, validLoad: bool, dirtyLoad: bool, dirtyIn: bool, writing: Writing,
                             memResp: bool, pmemRead: bool, pmemWrite: bool)

  /** param_cache_control: what it drives, and its next state. */
  method Control(phase: Phase, q: Request, hit: bool, dirtyOut: bool, pmemResp: bool)
    returns (g: Signals, nextPhase: Phase)
    ensures g.memResp == (phase == CheckHit && Active(q) && hit)
    ensures g.pmemRead == (phase == ReadMem) && g.pmemWrite == (phase == CheckHit && Active(q) && !hit && dirtyOut)
    ensures g.tagLoad == g.validLoad == (phase == ReadMem && pmemResp)
    ensures g.dirtyIn == (g.memResp && q.write) && g.dirtyLoad == (g.dirtyIn || phase == ReadMem)
    ensures g.writing == if phase == ReadMem then FromMemory else if g.dirtyIn then FromCpu else Keep
    ensures nextPhase ==
      if phase == ReadMem then (if pmemResp then CheckHit else ReadMem)
      else if Active(q) && !hit && (pmemResp || !dirtyOut) then ReadMem else CheckHit
  {
    g := Signals(false, false, false, false, Keep, false, false, false);
    nextPhase := phase;
    match phase {
      case CheckHit =>
        if q.read || q.write {
          if hit {
            g := g.(memResp := true);
            if q.write {
              g := g.(dirtyLoad := true, dirtyIn := true, writing := FromCpu);
            }
          } else {
            if dirtyOut {
              g := g.(pmemWrite := true);
              if pmemResp {
                nextPhase := ReadMem;
              }
            } else {
              nextPhase := ReadMem;
            }
          }
        }
      case ReadMem =>
        g := g.(pmemRead := true, writing := FromMemory);
        if pmemResp {
          g := g.(tagLoad := true, validLoad := true);
          nextPhase := CheckHit;
        }
        g := g.(dirtyLoad := true, dirtyIn := false);
    }
  }

  /** The clock edge of the arrays, for the set of the request. */
  method NextSet(g: Signals, ghost phase: Phase, ways: seq<Way>, k: nat, q: Request, tag: nat, line: Line,
                 ghost resp: bool, ghost pmemRdata: Line)
    returns (next: seq<Way>)
    requires |ways| > 0 && k == Selected(ways, tag)
    requires g.memResp == (phase == CheckHit && Active(q) && IsHit(ways, tag))
    requires g.tagLoad == g.validLoad == (phase == ReadMem && resp)
    requires g.dirtyIn == (g.memResp && q.write) && g.dirtyLoad == (g.dirtyIn || phase == ReadMem)
    requires line == if phase == ReadMem then pmemRdata
      else if g.dirtyIn then Stored(ways[k].line, q.address, q.wdata, q.enable) else ways[k].line
    ensures next == NextWays(phase, ways, tag, q, resp, pmemRdata)
  {
    hide Selected, Stored, Touched, IsHit, Active;
    next := ways;
    if g.memResp {
      next := Touch(ways, k);
      TouchKeeps(ways, k);
    }
    var way := next[k];
    way := Way(way.valid || g.validLoad, if g.dirtyLoad then g.dirtyIn else way.dirty,
               if g.tagLoad then tag else way.tag, line, way.lru);
    next := next[k := way];
  }

  /** The module l1_param_cache. */
  class L1Cache {
    var phase: Phase
    var sets: seq<seq<Way>>
    const numWays: nat

    constructor (numSets: nat, numWays: nat)
      requires numSets > 0 && numWays > 0
      ensures Valid() && Registers() == Reset(numSets, numWays) && this.numWays == numWays
    {
      phase, sets := CheckHit, Reset(numSets, numWays).sets;
      this.numWays := numWays;
    }

    ghost predicate Valid()
      reads this
    {
      Shaped(Registers(), numWays)
    }

    ghost function Registers(): State
      reads this
    {
      State(phase, sets)
    }

    /** What the cache drives before a clock edge, and the edge. */
    method Clock(rst: bool, q: Request, pmemResp: bool, pmemRdata: Line) returns (out: Outputs)
      requires Valid()
      modifies this
      ensures Valid()
      ensures out == Drive(old(Registers()), q, pmemRdata)
      ensures Registers() == if rst then Reset(|old(sets)|, numWays) else Next(old(Registers()), q, pmemResp, pmemRdata)
    {
      hide IndexOf, TagOf, LineAt, Selected, Stored, Touched, NextWays, Reset;
      var index, tag := IndexOf(LineOf(q), |sets|), TagOf(LineOf(q), |sets|);
      var ways := sets[index];
      var k := GetIndex(ways, tag);
      var hit := ways[k].valid && ways[k].tag == tag;
      var g, nextPhase := Control(phase, q, hit, ways[k].dirty, pmemResp);

      var pmemLine := if ways[k].dirty then LineAt(ways[k].tag, index, |sets|) else LineOf(q);
      var line := match g.writing
        case FromMemory => pmemRdata
        case FromCpu => Stored(ways[k].line, q.address, q.wdata, q.enable)
        case Keep => ways[k].line;
      out := Outputs(g.memResp, line, g.pmemRead, g.pmemWrite, pmemLine, line);

      var aged := NextSet(g, phase, ways, k, q, tag, line, pmemResp, pmemRdata);
      if rst {
        ghost var numSets := |sets|;
        phase, sets := CheckHit, seq(|sets|, _ => seq(numWays, _ => Way(false, false, 0, ZeroLine(), numWays - 1)));
        ResetIs(numSets, numWays, sets);
      } else {
        phase, sets := nextPhase, sets[index := aged];
      }
    }
  }

  lemma TouchKeeps(ways: seq<Way>, k: nat)
    requires k < |ways|
    ensures Touched(ways, k)[k] == ways[k].(lru := 0)
  {
  }
}
