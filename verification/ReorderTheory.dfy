/** The reorder buffer puts records back into order: exactly, when they arrive in its window. */
module ReorderTheory {
  import opened Division
  import opened MachineTypes
  import opened Rvfi
  import opened ReorderBuffers

  /** A record with its place in program order, not reduced to 64 bits. */
  datatype Stamped = Stamped(index: nat, data: Record)

  /** A place in program order as the 64-bit order field shows it. */
  function Wrap(i: nat): U64 {
    i % ORDERS
  }

  function Encode(x: Option<Stamped>): Option<Slot> {
    if x.Some? then Some(Slot(Wrap(x.value.index), x.value.data)) else None
  }

  function EncodeAll(xs: seq<Option<Stamped>>): (ins: seq<Option<Slot>>)
    ensures |ins| == |xs| && forall k :: 0 <= k < |xs| ==> ins[k] == Encode(xs[k])
  {
    seq(|xs|, k requires 0 <= k < |xs| => Encode(xs[k]))
  }

  /** Everything that has arrived, by index. */
  ghost function Received(xs: seq<Option<Stamped>>): map<nat, Record> {
    if xs == [] then map[] else
      var last := xs[|xs| - 1];
      var before := Received(xs[..|xs| - 1]);
      if last.Some? then before[last.value.index := last.value.data] else before
  }

  /** Every index arrives once, when it is one of the next 256 to come out. */
  ghost predicate WellTimed(s: State, xs: seq<Option<Stamped>>)
    requires Sized(s)
  {
    xs == [] ||
    var before, last := xs[..|xs| - 1], xs[|xs| - 1];
    var n := |Outputs(s, EncodeAll(before))|;
    WellTimed(s, before)
    && (last.Some? ==> n <= last.value.index < n + SLOTS && last.value.index !in Received(before))
  }

  /** The index in the window n..n+256 that belongs to slot k. */
  ghost function IndexAt(n: nat, k: nat): nat
    requires k < SLOTS
  {
    n + (k - n) % SLOTS
  }

  lemma IndexOfSlot(n: nat, i: nat)
    requires n <= i < n + SLOTS
    ensures i % SLOTS < SLOTS && IndexAt(n, i % SLOTS) == i && Wrap(i) % SLOTS == i % SLOTS
  {
  }

  lemma SlotOfIndex(n: nat, k: nat)
    requires k < SLOTS
    ensures n <= IndexAt(n, k) < n + SLOTS && IndexAt(n, k) % SLOTS == k
    ensures k != n % SLOTS ==> IndexAt(n + 1, k) == IndexAt(n, k)
    ensures k == n % SLOTS ==> IndexAt(n + 1, k) == n + SLOTS && IndexAt(n, k) == n
  {
    IndexIs(n, k);
    IndexIs(n + 1, k);
    hide IndexAt;
    var q, r := n / SLOTS, n % SLOTS;
    QuotientIs(IndexAt(n, k), SLOTS, if k >= r then q else q + 1, k);
    if r + 1 < SLOTS {
      QuotientIs(n + 1, SLOTS, q, r + 1);
    } else {
      QuotientIs(n + 1, SLOTS, q + 1, 0);
    }
  }

  lemma IndexIs(n: nat, k: nat)
    requires k < SLOTS
    ensures IndexAt(n, k) == n - n % SLOTS + k + if k >= n % SLOTS then 0 else SLOTS
  {
    var q, r := n / SLOTS, n % SLOTS;
    if k >= r {
      QuotientIs(k - n, SLOTS, -q, k - r);
    } else {
      QuotientIs(k - n, SLOTS, -q - 1, k - r + SLOTS);
    }
  }

  /** n records are out; the buffer holds exactly the received records of the window. */
  ghost predicate InWindow(s: State, recv: map<nat, Record>, n: nat) {
    && Sized(s) && s.cursor == Wrap(n)
    && (forall i :: i in recv ==> i < n + SLOTS)
    && (forall i :: 0 <= i < n ==> i in recv)
    && (forall k :: 0 <= k < SLOTS ==> (s.valid[k] <==> IndexAt(n, k) in recv))
    && (forall k :: 0 <= k < SLOTS && s.valid[k] ==> s.buffer[k] == Slot(Wrap(IndexAt(n, k)), recv[IndexAt(n, k)]))
  }

  lemma StepInWindow(s: State, recv: map<nat, Record>, n: nat, x: Option<Stamped>)
    requires InWindow(s, recv, n)
    requires x.Some? ==> n <= x.value.index < n + SLOTS && x.value.index !in recv
    ensures var recv' := if x.Some? then recv[x.value.index := x.value.data] else recv;
      var s' := Step(s, false, Encode(x));
      && s'.errcode == 0
      && s'.out == (if n in recv then Some(Slot(Wrap(n), recv[n])) else None)
      && InWindow(s', recv', if n in recv then n + 1 else n)
  {
    var recv' := if x.Some? then recv[x.value.index := x.value.data] else recv;
    var s' := Step(s, false, Encode(x));
    var n' := if n in recv then n + 1 else n;
    IndexOfSlot(n, n);
    if x.Some? { IndexOfSlot(n, x.value.index); }
    assert s.valid[n % SLOTS] <==> n in recv;
    assert s'.cursor == Wrap(n');
    hide IndexAt, Wrap;
    forall k | 0 <= k < SLOTS
      ensures s'.valid[k] <==> IndexAt(n', k) in recv'
      ensures s'.valid[k] ==> s'.buffer[k] == Slot(Wrap(IndexAt(n', k)), recv'[IndexAt(n', k)])
    {
      SlotOfIndex(n, k);
    }
  }

  /** The last clock of a run. */
  lemma LastClock(s: State, xs: seq<Option<Stamped>>)
    requires Sized(s) && xs != []
    ensures var before, ins := EncodeAll(xs[..|xs| - 1]), EncodeAll(xs);
      && Run(s, ins) == Step(Run(s, before), false, Encode(xs[|xs| - 1]))
      && Outputs(s, ins) == Outputs(s, before) + (if Run(s, ins).out.Some? then [Run(s, ins).out.value] else [])
      && (Silent(s, ins) <==> Silent(s, before) && Run(s, ins).errcode == 0)
  {
    hide Step;
    assert EncodeAll(xs)[..|xs| - 1] == EncodeAll(xs[..|xs| - 1]);
  }

  /** The outputs are records 0, 1, 2, ... each with the data it arrived with. */
  ghost predicate InOrder(outs: seq<Slot>, recv: map<nat, Record>) {
    forall k: nat :: k < |outs| ==> k in recv && outs[k] == Slot(Wrap(k), recv[k])
  }

  lemma InOrderGrows(outs: seq<Slot>, recv: map<nat, Record>, x: Option<Stamped>, out: Option<Slot>)
    requires InOrder(outs, recv) && (x.Some? ==> x.value.index !in recv)
    requires out.Some? ==> |outs| in recv && out.value == Slot(Wrap(|outs|), recv[|outs|])
    ensures InOrder(outs + (if out.Some? then [out.value] else []),
                    if x.Some? then recv[x.value.index := x.value.data] else recv)
  {
    var outs' := outs + (if out.Some? then [out.value] else []);
    var recv' := if x.Some? then recv[x.value.index := x.value.data] else recv;
    forall k: nat | k < |outs'| ensures k in recv' && outs'[k] == Slot(Wrap(k), recv'[k]) {
      assert k < |outs| ==> outs'[k] == outs[k];
    }
    assert InOrder(outs', recv');
  }

  lemma NothingYet(s: State)
    requires JustReset(s)
    ensures Silent(s, EncodeAll([])) && InWindow(s, map[], 0) && Outputs(s, EncodeAll([])) == []
    ensures Run(s, EncodeAll([])) == s && InOrder([], map[])
  {
  }

  /** Records that arrive in the window come out in order, each with its own data, none lost or
      duplicated, and no error is reported; what has not come out is in the buffer. */
  lemma {:induction false} Reserializes(s: State, xs: seq<Option<Stamped>>)
    requires JustReset(s) && WellTimed(s, xs)
    ensures Silent(s, EncodeAll(xs))
    ensures InWindow(Run(s, EncodeAll(xs)), Received(xs), |Outputs(s, EncodeAll(xs))|)
    ensures InOrder(Outputs(s, EncodeAll(xs)), Received(xs))
    decreases |xs|
  {
    hide InWindow, InOrder, Step, EncodeAll, Encode, Run, Outputs, Silent, Wrap;
    if xs == [] {
      NothingYet(s);
    } else {
      var before, last := xs[..|xs| - 1], xs[|xs| - 1];
      Reserializes(s, before);
      LastClock(s, xs);
      var ins := EncodeAll(before);
      StepInWindow(Run(s, ins), Received(before), |Outputs(s, ins)|, last);
      InOrderGrows(Outputs(s, ins), Received(before), last, Run(s, EncodeAll(xs)).out);
    }
  }

  /** A stream followed by n clocks without a record. */
  ghost function Idle(xs: seq<Option<Stamped>>, n: nat): seq<Option<Stamped>> {
    if n == 0 then xs else Idle(xs, n - 1) + [None]
  }

  lemma IdleChangesNothing(s: State, xs: seq<Option<Stamped>>)
    requires Sized(s) && WellTimed(s, xs)
    ensures WellTimed(s, xs + [None]) && Received(xs + [None]) == Received(xs)
  {
    hide EncodeAll, Outputs;
    assert (xs + [None])[..|xs|] == xs;
  }

  /** Idle clocks let everything out up to the first index that is missing. */
  lemma {:induction false} Drains(s: State, xs: seq<Option<Stamped>>, m: nat, n: nat)
    requires JustReset(s) && WellTimed(s, xs)
    requires forall i :: 0 <= i < m ==> i in Received(xs)
    ensures WellTimed(s, Idle(xs, n)) && Received(Idle(xs, n)) == Received(xs)
    ensures |Outputs(s, EncodeAll(Idle(xs, n)))| >= if n < m then n else m
    decreases n
  {
    hide InWindow, Step, EncodeAll, Encode, Run, Outputs, Silent, Wrap, WellTimed, Received, JustReset;
    if n > 0 {
      var before := Idle(xs, n - 1);
      Drains(s, xs, m, n - 1);
      Reserializes(s, before);
      assert Sized(s) by { ResetIsSized(s); }
      IdleChangesNothing(s, before);
      LastClock(s, before + [None]);
      assert (before + [None])[..|before|] == before;
      StepInWindow(Run(s, EncodeAll(before)), Received(before), |Outputs(s, EncodeAll(before))|, None);
    }
  }

  lemma ResetIsSized(s: State)
    requires JustReset(s)
    ensures Sized(s)
  {
  }

  // ----- the converse: what silence tells

  /** The records that arrived, in order of arrival. */
  ghost function Arrivals(ins: seq<Option<Slot>>): seq<Slot> {
    if ins == [] then [] else
      Arrivals(ins[..|ins| - 1]) + if ins[|ins| - 1].Some? then [ins[|ins| - 1].value] else []
  }

  /** The records in the first n slots. */
  ghost function Contents(buffer: seq<Slot>, valid: seq<bool>, n: nat): multiset<Slot>
    requires n <= |buffer| && n <= |valid|
  {
    if n == 0 then multiset{}
    else Contents(buffer, valid, n - 1) + if valid[n - 1] then multiset{buffer[n - 1]} else multiset{}
  }

  lemma {:induction false} ContentsSame(b: seq<Slot>, v: seq<bool>, b': seq<Slot>, v': seq<bool>, n: nat)
    requires n <= |b| == |v| == |b'| == |v'|
    requires forall k :: 0 <= k < n ==> v[k] == v'[k] && (v[k] ==> b[k] == b'[k])
    ensures Contents(b, v, n) == Contents(b', v', n)
  {
    if n > 0 { ContentsSame(b, v, b', v', n - 1); }
  }

  lemma {:induction false} Put(b: seq<Slot>, v: seq<bool>, k: nat, x: Slot, n: nat)
    requires k < n <= |b| == |v| && !v[k]
    ensures Contents(b[k := x], v[k := true], n) == Contents(b, v, n) + multiset{x}
  {
    if k == n - 1 {
      ContentsSame(b, v, b[k := x], v[k := true], n - 1);
    } else {
      Put(b, v, k, x, n - 1);
    }
  }

  lemma {:induction false} Take(b: seq<Slot>, v: seq<bool>, k: nat, n: nat)
    requires k < n <= |b| == |v| && v[k]
    ensures Contents(b, v[k := false], n) + multiset{b[k]} == Contents(b, v, n)
  {
    if k == n - 1 {
      ContentsSame(b, v, b, v[k := false], n - 1);
    } else {
      Take(b, v, k, n - 1);
    }
  }

  lemma {:induction false} NoContents(b: seq<Slot>, v: seq<bool>, n: nat)
    requires n <= |b| == |v| && forall k :: 0 <= k < n ==> !v[k]
    ensures Contents(b, v, n) == multiset{}
  {
    if n > 0 { NoContents(b, v, n - 1); }
  }

  /** The buffer once a record has arrived, before one leaves. */
  ghost function ArrivedBuffer(s: State, input: Option<Slot>): seq<Slot>
    requires Sized(s)
  {
    if input.Some? then s.buffer[input.value.order % SLOTS := input.value] else s.buffer
  }

  ghost function ArrivedValid(s: State, input: Option<Slot>): seq<bool>
    requires Sized(s)
  {
    if input.Some? then s.valid[input.value.order % SLOTS := true] else s.valid
  }

  lemma SilentArrival(s: State, input: Option<Slot>)
    requires Sized(s) && (input.Some? ==> !s.valid[input.value.order % SLOTS])
    ensures Contents(ArrivedBuffer(s, input), ArrivedValid(s, input), SLOTS)
      == Contents(s.buffer, s.valid, SLOTS) + (if input.Some? then multiset{input.value} else multiset{})
  {
    if input.Some? { Put(s.buffer, s.valid, input.value.order % SLOTS, input.value, SLOTS); }
  }

  /** What a clock without an error does to the registers. */
  lemma SilentRegisters(s: State, input: Option<Slot>)
    requires Sized(s) && Step(s, false, input).errcode == 0
    ensures input.Some? ==> !s.valid[input.value.order % SLOTS]
    ensures var s', c, b, v := Step(s, false, input), s.cursor % SLOTS, ArrivedBuffer(s, input), ArrivedValid(s, input);
      && s'.buffer == b && s'.valid == (if s.valid[c] then v[c := false] else v)
      && (s.valid[c] ==> b[c] == s.buffer[c] && v[c] && s'.out == Some(b[c]) && b[c].order == s.cursor)
      && (!s.valid[c] ==> s'.out.None?)
      && s'.cursor == if s.valid[c] then (s.cursor + 1) % ORDERS else s.cursor
  {
  }

  /** A clock without an error neither loses nor repeats a record, and what leaves has its turn. */
  lemma SilentStep(s: State, input: Option<Slot>)
    requires Sized(s) && Step(s, false, input).errcode == 0
    ensures var s' := Step(s, false, input);
      && Contents(s.buffer, s.valid, SLOTS) + (if input.Some? then multiset{input.value} else multiset{})
         == Contents(s'.buffer, s'.valid, SLOTS) + (if s'.out.Some? then multiset{s'.out.value} else multiset{})
      && (s'.out.Some? ==> s'.out.value.order == s.cursor && s'.cursor == (s.cursor + 1) % ORDERS)
      && (s'.out.None? ==> s'.cursor == s.cursor)
  {
    SilentRegisters(s, input);
    hide Step, Contents, ArrivedBuffer, ArrivedValid;
    SilentArrival(s, input);
    if s.valid[s.cursor % SLOTS] {
      Take(ArrivedBuffer(s, input), ArrivedValid(s, input), s.cursor % SLOTS, SLOTS);
    }
  }

  /** As long as no error is reported, the k-th record out carries order k, and the records that
      arrived are exactly those that came out and those still in the buffer. */
  lemma {:induction false} SilenceIsExact(s: State, ins: seq<Option<Slot>>)
    requires JustReset(s) && Silent(s, ins)
    ensures var s', outs := Run(s, ins), Outputs(s, ins);
      && multiset(Arrivals(ins)) == multiset(outs) + Contents(s'.buffer, s'.valid, SLOTS)
      && s'.cursor == |outs| % ORDERS
      && forall k: nat :: k < |outs| ==> outs[k].order == Wrap(k)
    decreases |ins|
  {
    hide Step, Contents;
    if ins == [] {
      NoContents(s.buffer, s.valid, SLOTS);
    } else {
      var before, last := ins[..|ins| - 1], ins[|ins| - 1];
      SilenceIsExact(s, before);
      SilentStep(Run(s, before), last);
      CursorCounts(|Outputs(s, before)|);
      var s0, s1 := Run(s, before), Run(s, ins);
      var x := if last.Some? then multiset{last.value} else multiset{};
      var y := if s1.out.Some? then multiset{s1.out.value} else multiset{};
      Balance(multiset(Arrivals(before)), x, multiset(Outputs(s, before)), y,
              Contents(s0.buffer, s0.valid, SLOTS), Contents(s1.buffer, s1.valid, SLOTS));
      assert multiset(Arrivals(ins)) == multiset(Arrivals(before)) + x;
      assert multiset(Outputs(s, ins)) == multiset(Outputs(s, before)) + y;
    }
  }

  lemma Balance(a: multiset<Slot>, x: multiset<Slot>, o: multiset<Slot>, y: multiset<Slot>, c: multiset<Slot>,
                c': multiset<Slot>)
    requires a == o + c && c + x == c' + y
    ensures a + x == o + y + c'
  {
    forall z ensures (a + x)[z] == (o + y + c')[z] {
      assert (c + x)[z] == (c' + y)[z];
    }
  }

  lemma CursorCounts(n: nat)
    ensures (n % ORDERS + 1) % ORDERS == (n + 1) % ORDERS
  {
  }
}
