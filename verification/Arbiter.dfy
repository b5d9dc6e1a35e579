/** The arbiter between the two first-level caches and the memory below, and what it promises over whole
    runs when the memory answers after any delay. */
module CacheArbiter {
  import opened LineMemory

  datatype Grant = Decode | ICache | DCache

  /** What the two caches drive. */
  datatype Requests = Requests(dataRead: bool, dataWrite: bool, dataAddr: nat, dataWdata: Line, iRead: bool, iAddr: nat)

  datatype Outputs = Outputs(dataResp: bool, dataOut: Line, iResp: bool, iData: Line,
                             cacheRead: bool, cacheWrite: bool, cacheAddr: nat, cacheWdata: Line)

  /** set_defaults */
  function Defaults(): Outputs {
    Outputs(false, ZeroLine(), false, ZeroLine(), false, false, 0, ZeroLine())
  }

  /** The outputs while g holds the grant, given the response of the memory and the line it drives. */
  function Actions(g: Grant, q: Requests, resp: bool, data: Line): Outputs {
    match g
    case Decode => Defaults()
    case ICache => Defaults().(cacheAddr := q.iAddr, cacheRead := true, iData := data, iResp := resp)
    case DCache =>
      var out := Defaults().(dataResp := resp, cacheAddr := q.dataAddr);
      if q.dataRead then out.(dataOut := data, cacheRead := true)
      else if q.dataWrite then out.(cacheWrite := true, cacheWdata := q.dataWdata)
      else out
  }

  function NextGrant(g: Grant, q: Requests, resp: bool): Grant {
    match g
    case Decode => if q.dataRead || q.dataWrite then DCache else if q.iRead then ICache else Decode
    case _ => if resp then Decode else g
  }

  /** The module arbiter: its state register and what it drives before each clock edge. */
  class Arbiter {
    var state: Grant

    constructor ()
      ensures state == Decode
    {
      state := Decode;
    }

    method Clock(rst: bool, q: Requests, resp: bool, data: Line) returns (out: Outputs)
      modifies this
      ensures out == Actions(old(state), q, resp, data)
      ensures state == if rst then Decode else NextGrant(old(state), q, resp)
    {
      out := Defaults();
      match state {
        case Decode =>
        case ICache =>
          out := out.(cacheAddr := q.iAddr, cacheRead := true);
          out := out.(iData := data, iResp := resp);
        case DCache =>
          out := out.(dataResp := resp, cacheAddr := q.dataAddr);
          if q.dataRead {
            out := out.(dataOut := data, cacheRead := q.dataRead);
          } else if q.dataWrite {
            out := out.(cacheWrite := q.dataWrite, cacheWdata := q.dataWdata);
          }
      }
      var nextState := state;
      match state {
        case Decode =>
          if q.dataRead || q.dataWrite {
            nextState := DCache;
          } else if q.iRead {
            nextState := ICache;
          }
        case ICache => if resp { nextState := Decode; }
        case DCache => if resp { nextState := Decode; }
      }
      state := if rst then Decode else nextState;
    }
  }

  // ----- two clients and one memory

  datatype ICall = INone | IRead(addr: nat)
  datatype DCall = DNone | DRead(addr: nat) | DWrite(addr: nat, data: Line)

  /** One clock: what the clients ask for, whether the memory is ready to answer, and the line that is
      on the bus when it does not answer a read. */
  datatype Cycle = Cycle(rst: bool, i: ICall, d: DCall, ready: bool, noise: Line)

  function Wires(c: Cycle): Requests {
    Requests(c.d.DRead?, c.d.DWrite?, if c.d.DNone? then 0 else c.d.addr, if c.d.DWrite? then c.d.data else ZeroLine(),
             c.i.IRead?, if c.i.IRead? then c.i.addr else 0)
  }

  /** The command to the memory does not depend on its response. */
  function Command(g: Grant, q: Requests): Outputs {
    Actions(g, q, false, ZeroLine())
  }

  /** The memory answers a command when it is ready. */
  predicate Answers(g: Grant, q: Requests, ready: bool) {
    ready && (Command(g, q).cacheRead || Command(g, q).cacheWrite)
  }

  /** What the arbiter drives in a cycle with the memory mem below it. */
  function Driven(g: Grant, mem: nat -> Line, q: Requests, ready: bool, noise: Line): Outputs {
    var command, resp := Command(g, q), Answers(g, q, ready);
    Actions(g, q, resp, if resp && command.cacheRead then mem(command.cacheAddr) else noise)
  }

  /** A write takes effect in the memory when it is answered. */
  function NextMemory(g: Grant, mem: nat -> Line, q: Requests, ready: bool): nat -> Line {
    var command := Command(g, q);
    if Answers(g, q, ready) && command.cacheWrite then WriteLine(mem, command.cacheAddr, command.cacheWdata) else mem
  }

  datatype State = State(grant: Grant, mem: nat -> Line)

  function Out(s: State, c: Cycle): Outputs {
    Driven(s.grant, s.mem, Wires(c), c.ready, c.noise)
  }

  function Step(s: State, c: Cycle): State {
    State(if c.rst then Decode else NextGrant(s.grant, Wires(c), Answers(s.grant, Wires(c), c.ready)),
          NextMemory(s.grant, s.mem, Wires(c), c.ready))
  }

  ghost function Run(mem: nat -> Line, cs: seq<Cycle>): State {
    if cs == [] then State(Decode, mem) else Step(Run(mem, cs[..|cs| - 1]), cs[|cs| - 1])
  }

  // ----- one memory

  /** A completed transaction, as its client saw it. */
  datatype Event = IGot(addr: nat, data: Line) | DGot(addr: nat, data: Line) | DPut(addr: nat, data: Line)

  /** The transactions that complete in a cycle, told from the responses to the clients alone. */
  function Completed(out: Outputs, c: Cycle): seq<Event> {
    (if out.iResp && c.i.IRead? then [IGot(c.i.addr, out.iData)] else [])
    + if out.dataResp && c.d.DRead? then [DGot(c.d.addr, out.dataOut)]
      else if out.dataResp && c.d.DWrite? then [DPut(c.d.addr, c.d.data)]
      else []
  }

  ghost function Log(mem: nat -> Line, cs: seq<Cycle>): seq<Event> {
    if cs == [] then []
    else
      var before, c := cs[..|cs| - 1], cs[|cs| - 1];
      Log(mem, before) + Completed(Out(Run(mem, before), c), c)
  }

  /** The memory after the writes of a log, in order. */
  ghost function Replay(mem: nat -> Line, log: seq<Event>): nat -> Line {
    if log == [] then mem
    else
      var before, e := Replay(mem, log[..|log| - 1]), log[|log| - 1];
      if e.DPut? then WriteLine(before, e.addr, e.data) else before
  }

  /** Each client was told what the completed writes before left in the memory. */
  ghost predicate Truthful(mem: nat -> Line, log: seq<Event>) {
    forall k: nat | k < |log| && !log[k].DPut? :: log[k].data == Replay(mem, log[..k])(log[k].addr)
  }

  lemma TruthfulMore(mem: nat -> Line, log: seq<Event>, e: Event)
    requires Truthful(mem, log) && (e.DPut? || e.data == Replay(mem, log)(e.addr))
    ensures Truthful(mem, log + [e])
    ensures Replay(mem, log + [e]) == if e.DPut? then WriteLine(Replay(mem, log), e.addr, e.data) else Replay(mem, log)
  {
    var log' := log + [e];
    assert log'[..|log|] == log;
    forall k: nat | k < |log'| && !log'[k].DPut? ensures log'[k].data == Replay(mem, log'[..k])(log'[k].addr) {
      if k < |log| { assert log'[..k] == log[..k]; }
    }
  }

  /** A cycle completes at most one transaction; a completed write is what it does to the memory. */
  lemma CycleEffect(s: State, c: Cycle)
    ensures var done, mem' := Completed(Out(s, c), c), Step(s, c).mem;
      && |done| <= 1
      && (done == [] ==> mem' == s.mem)
      && (done != [] && done[0].DPut? ==> mem' == WriteLine(s.mem, done[0].addr, done[0].data))
      && (done != [] && !done[0].DPut? ==> mem' == s.mem && done[0].data == s.mem(done[0].addr))
  {
  }

  /** On every run, with any delays and resets, the memory is exactly the completed writes of the data
      client applied once each in the order of completion, and every read of either client returned the
      latest of them. At most one client is answered in a cycle. */
  lemma {:induction false} OneMemory(mem: nat -> Line, cs: seq<Cycle>)
    ensures Run(mem, cs).mem == Replay(mem, Log(mem, cs))
    ensures Truthful(mem, Log(mem, cs))
    decreases |cs|
  {
    if cs != [] {
      var before, c := cs[..|cs| - 1], cs[|cs| - 1];
      OneMemory(mem, before);
      var s, log := Run(mem, before), Log(mem, before);
      var done := Completed(Out(s, c), c);
      CycleEffect(s, c);
      hide Step, Out, Completed, Truthful;
      if done == [] {
        assert log + done == log;
      } else {
        assert done == [done[0]];
        TruthfulMore(mem, log, done[0]);
      }
    }
  }

  // ----- clients that hold their requests

  /** A client that was not answered in a cycle asks the same in the next one. */
  ghost predicate Holding(s: State, c: Cycle, next: Cycle) {
    && (!Out(s, c).iResp && c.i.IRead? ==> next.i == c.i)
    && (!Out(s, c).dataResp && !c.d.DNone? ==> next.d == c.d)
  }

  ghost predicate Stable(mem: nat -> Line, cs: seq<Cycle>) {
    forall k | 0 < k < |cs| :: Holding(Run(mem, cs[..k - 1]), cs[k - 1], cs[k])
  }

  /** The grant is held for a client that asks. */
  lemma {:induction false} GrantIsAsked(mem: nat -> Line, cs: seq<Cycle>, k: nat)
    requires Stable(mem, cs) && k < |cs|
    ensures var g := Run(mem, cs[..k]).grant;
      (g == ICache ==> cs[k].i.IRead?) && (g == DCache ==> !cs[k].d.DNone?)
  {
    if k > 0 {
      GrantIsAsked(mem, cs, k - 1);
      assert cs[..k][..k - 1] == cs[..k - 1];
      assert Holding(Run(mem, cs[..k - 1]), cs[k - 1], cs[k]);
    }
  }

  /** Every response goes to a client that asks and holds the grant; the other hears nothing; the
      memory is never told to read and write at once. */
  lemma Routed(mem: nat -> Line, cs: seq<Cycle>, k: nat)
    requires Stable(mem, cs) && k < |cs|
    ensures var s := Run(mem, cs[..k]);
      var out := Out(s, cs[k]);
      && (out.iResp <==> s.grant == ICache && cs[k].i.IRead? && cs[k].ready)
      && (out.dataResp <==> s.grant == DCache && !cs[k].d.DNone? && cs[k].ready)
      && !(out.cacheRead && out.cacheWrite)
  {
    GrantIsAsked(mem, cs, k);
  }

  /** While a grant lasts the command to the memory does not change. */
  lemma SteadyCommand(mem: nat -> Line, cs: seq<Cycle>, k: nat)
    requires Stable(mem, cs) && 0 < k < |cs|
    requires Run(mem, cs[..k]).grant == Run(mem, cs[..k - 1]).grant != Decode
    ensures Command(Run(mem, cs[..k]).grant, Wires(cs[k])) == Command(Run(mem, cs[..k - 1]).grant, Wires(cs[k - 1]))
  {
    GrantIsAsked(mem, cs, k - 1);
    assert cs[..k][..k - 1] == cs[..k - 1];
    assert Holding(Run(mem, cs[..k - 1]), cs[k - 1], cs[k]);
  }

  // ----- how long a request waits

  /** From cycle j on the data client asks and is not answered, and there is no reset. */
  ghost predicate Waiting(mem: nat -> Line, cs: seq<Cycle>, j: nat) {
    forall k: nat | j <= k < |cs| ::
      !cs[k].rst && !cs[k].d.DNone? && !Out(Run(mem, cs[..k]), cs[k]).dataResp
  }

  ghost function IAnswers(mem: nat -> Line, cs: seq<Cycle>, j: nat): nat {
    if |cs| <= j then 0
    else
      var before, c := cs[..|cs| - 1], cs[|cs| - 1];
      IAnswers(mem, before, j) + if Out(Run(mem, before), c).iResp then 1 else 0
  }

  ghost function ReadyCycles(cs: seq<Cycle>, j: nat): nat {
    if |cs| <= j then 0 else ReadyCycles(cs[..|cs| - 1], j) + if cs[|cs| - 1].ready then 1 else 0
  }

  /** How far the arbiter has got while the data client waits. */
  lemma {:induction false} WaitingGrant(mem: nat -> Line, cs: seq<Cycle>, j: nat)
    requires j <= |cs| && Waiting(mem, cs, j)
    ensures IAnswers(mem, cs, j) <= 1 && ReadyCycles(cs, j) <= 2
    ensures |cs| > j ==>
      match Run(mem, cs).grant
      case DCache => true
      case ICache => IAnswers(mem, cs, j) == ReadyCycles(cs, j) == 0
      case Decode => IAnswers(mem, cs, j) == ReadyCycles(cs, j) == 1
    decreases |cs|
  {
    if |cs| > j {
      var before, c := cs[..|cs| - 1], cs[|cs| - 1];
      assert forall k: nat | k < |cs| :: cs[..k] == if k <= |before| then before[..k] else cs;
      assert before[..|before|] == before == cs[..|before|];
      WaitingGrant(mem, before, j);
      assert !c.rst && !c.d.DNone? && !Out(Run(mem, cs[..|before|]), c).dataResp;
    }
  }

  /** A data request waits behind at most one instruction fetch, and is answered no later than the
      third time the memory is ready. */
  lemma DataWaitsOnce(mem: nat -> Line, cs: seq<Cycle>, j: nat)
    requires j <= |cs| && Waiting(mem, cs, j)
    ensures IAnswers(mem, cs, j) <= 1 && ReadyCycles(cs, j) <= 2
  {
    WaitingGrant(mem, cs, j);
  }

  // ----- how long a fetch waits

  /** From cycle j on the instruction client asks and there is no reset. */
  ghost predicate Fetching(cs: seq<Cycle>, j: nat) {
    forall k: nat | j <= k < |cs| :: !cs[k].rst && cs[k].i.IRead?
  }

  /** In cycle k the arbiter is free and the data client pauses: data_read and data_write are both low. */
  ghost predicate Gap(mem: nat -> Line, cs: seq<Cycle>, k: nat)
    requires k < |cs|
  {
    Run(mem, cs[..k]).grant == Decode && cs[k].d.DNone?
  }

  /** The arbiter prefers data requests always, so a fetch that is held from cycle j on, and has no grant
      then, gets one if and only if the data client pauses in some cycle in which the arbiter is free. */
  lemma FetchNeedsAGap(mem: nat -> Line, cs: seq<Cycle>, j: nat)
    requires j <= |cs| && Fetching(cs, j) && Run(mem, cs[..j]).grant != ICache
    ensures (exists k: nat | j < k <= |cs| :: Run(mem, cs[..k]).grant == ICache) <==>
      exists k: nat | j <= k < |cs| :: Gap(mem, cs, k)
  {
    if k: nat :| j <= k < |cs| && Gap(mem, cs, k) {
      GrantNext(mem, cs, k);
      assert Run(mem, cs[..k + 1]).grant == ICache;
    }
    if k: nat :| j < k <= |cs| && Run(mem, cs[..k]).grant == ICache {
      var i := GapBefore(mem, cs, j, k);
    }
  }

  lemma GrantNext(mem: nat -> Line, cs: seq<Cycle>, k: nat)
    requires k < |cs| && !cs[k].rst && cs[k].i.IRead?
    ensures var g, g' := Run(mem, cs[..k]).grant, Run(mem, cs[..k + 1]).grant;
      g' == ICache ==> g == ICache || Gap(mem, cs, k)
    ensures Gap(mem, cs, k) ==> Run(mem, cs[..k + 1]).grant == ICache
  {
    assert cs[..k + 1][..k] == cs[..k];
  }

  lemma {:induction false} GapBefore(mem: nat -> Line, cs: seq<Cycle>, j: nat, k: nat) returns (i: nat)
    requires j < k <= |cs| && Fetching(cs, j) && Run(mem, cs[..j]).grant != ICache && Run(mem, cs[..k]).grant == ICache
    ensures j <= i < k && Gap(mem, cs, i)
  {
    hide Run;
    i := k - 1;
    GrantNext(mem, cs, i);
    if Run(mem, cs[..i]).grant == ICache { i := GapBefore(mem, cs, j, i); }
  }

  /** The failing side: a data client that asks again in every free cycle, as no cache does, keeps every
      fetch waiting, however long the run and however prompt the memory. */
  lemma FetchCanStarve(mem: nat -> Line, n: nat) returns (cs: seq<Cycle>)
    ensures |cs| == n && Stable(mem, cs)
    ensures forall k: nat | k < n ::
      cs[k].ready && !cs[k].rst && cs[k].i == IRead(0) && !Out(Run(mem, cs[..k]), cs[k]).iResp
  {
    var c := Cycle(false, IRead(0), DRead(0), true, ZeroLine());
    cs := seq(n, _ => c);
    forall k: nat | k < n ensures Run(mem, cs[..k]).grant != ICache {
      FetchNeedsAGap(mem, cs[..k], 0);
      assert cs[..k][..k] == cs[..k];
    }
  }
}
