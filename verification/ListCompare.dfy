/** calc_func and the two comparators of the list sort. Both change what they compare: cmp_complex
    caches the value of a data item, cmp_idx (without a results block) restores the item's data. */
module ListCompare {
  import opened Crc
  import opened MachineTypes
  import opened ListCells
  import opened ListOrder

  datatype Comparator = CmpComplex | CmpIdx

  /** The other benchmarks that calc_func can run, told a step, to get a value. */
  datatype Benchmark = StateMachine | MatrixOps
  datatype SubRun = Ran(what: Benchmark, step: U16) | NoRun

  /** One evaluation that calc_func folded into the running CRC: the item and the data it had, what was run,
      and the value. */
  datatype Eval = Eval(item: ListData, was: Data16, run: SubRun, value: U16)

  /** The running CRC, and the first results of the state and the matrix benchmark. */
  datatype Totals = Totals(crc: Word, crcstate: U16, crcmatrix: U16)

  /** The part of core_results that the list benchmark uses. */
  class CoreResults {
    const list: ListHead
    const seed3: S16
    var crc: Word
    var crcstate: U16
    var crcmatrix: U16
    /** Every evaluation so far, in order. */
    ghost var evals: seq<Eval>

    constructor (list: ListHead, seed3: S16)
      ensures this.list == list && this.seed3 == seed3 && evals == []
    {
      this.list, this.seed3, evals := list, seed3, [];
      crc, crcstate, crcmatrix := Zero(), 0, 0;
    }
  }

  /** How often the sort has called its comparator. */
  class Tally {
    ghost var calls: nat

    ghost constructor ()
      ensures calls == 0
    {
      calls := 0;
    }
  }

  function Zero(): Word {
    seq(16, _ => false)
  }

  /** The low byte agrees with its backup. */
  predicate Restored(d: Data16) {
    LowByte(d) == d.upper
  }

  /** The low byte copied back from its backup. */
  function Restore(d: Data16): (r: Data16)
    ensures Restored(r) && r.upper == d.upper
    ensures Restored(d) ==> r == d
  {
    Data16(d.upper, d.upper >= 0x80, d.upper % 0x80)
  }

  ghost function TotalsOf(res: CoreResults): Totals
    reads res
  {
    Totals(res.crc, res.crcstate, res.crcmatrix)
  }

  /** core_bench_state and core_bench_matrix as calc_func sees them: some 16-bit value, and which of them it is
      from. The first corrupts its block in steps, and needs them not to be short. */
  method RunBenchmark(what: Benchmark, step: U16) returns (v: U16, run: SubRun)
    requires what == StateMachine ==> step >= 0x22
    ensures run == Ran(what, step)
  {
    v := *;
    run := Ran(what, step);
  }

  /** Bits 0-2 of the data name the operation, and bits 3-6, twice in a byte, the step: operation 0 is the state
      benchmark with a step of at least 0x22, 1 the matrix benchmark, and the others give the data itself. */
  predicate Told(e: Eval) {
    var d := Pack(e.was);
    var step := d / 8 % 16 * 0x11;
    && (d % 8 == 0 ==> e.run == Ran(StateMachine, if step < 0x22 then 0x22 else step))
    && (d % 8 == 1 ==> e.run == Ran(MatrixOps, step))
    && (d % 8 >= 2 ==> e.run == NoRun && e.value == d)
  }

  lemma FieldsOf(d: Data16)
    requires !d.cached
    ensures Pack(d) % 8 == d.low % 8 && Pack(d) / 8 % 16 == d.low / 8 && Pack(d) % 0x80 == d.low
  {
    assert Pack(d) / 8 == 16 * (2 * d.upper) + d.low / 8;
  }

  /** Evaluating such data leaves its low bits: only two of the eight operations are sub-benchmarks, the
      others return the data itself. */
  predicate Plain(d: Data16) {
    d.low % 8 >= 2
  }

  /** calc_func. */
  method CalcFunc(item: ListData, res: CoreResults) returns (r: int)
    modifies item`data16, res`crc, res`crcstate, res`crcmatrix, res`evals
    ensures item.data16.cached && r == item.data16.low
    ensures item.data16.upper == old(item.data16.upper)
    ensures old(item.data16.cached) ==> unchanged(item) && unchanged(res)
    ensures !old(item.data16.cached) ==>
      && |res.evals| == |old(res.evals)| + 1
      && var e := res.evals[|old(res.evals)|];
      && res.evals == old(res.evals) + [e]
      && e.item == item && e.was == old(item.data16) && Told(e) && item.data16.low == e.value % 0x80
      && (Plain(old(item.data16)) ==> item.data16.low == old(item.data16.low))
      && TotalsOf(res) == NextTotals(old(TotalsOf(res)), e)
  {
    var data := item.data16;
    if data.cached {
      return data.low;
    }
    FieldsOf(data);
    var flag := data.low % 8;
    var dtype := data.low / 8;
    dtype := dtype * 17;
    var retval: U16;
    var run := NoRun;
    if flag == 0 {
      if dtype < 0x22 {
        dtype := 0x22;
      }
      retval, run := RunBenchmark(StateMachine, dtype);
      if res.crcstate == 0 {
        res.crcstate := retval;
      }
    } else if flag == 1 {
      retval, run := RunBenchmark(MatrixOps, dtype);
      if res.crcmatrix == 0 {
        res.crcmatrix := retval;
      }
    } else {
      retval := Pack(data);
    }
    res.crc := Crcu16(retval, res.crc);
    ghost var e := Eval(item, data, run, retval);
    res.evals := res.evals + [e];
    item.data16 := Data16(data.upper, true, retval % 0x80);
    r := retval % 0x80;
  }

  /** One evaluation more. */
  ghost function NextTotals(t: Totals, e: Eval): Totals {
    Totals(CrcWord(e.value, t.crc),
           if t.crcstate == 0 && IsRun(e, StateMachine) then e.value else t.crcstate,
           if t.crcmatrix == 0 && IsRun(e, MatrixOps) then e.value else t.crcmatrix)
  }

  predicate IsRun(e: Eval, what: Benchmark) {
    e.run.Ran? && e.run.what == what
  }

  /** The first value that is not 0, or 0. */
  function FirstNonZero(vs: seq<U16>): (v: U16)
    ensures v == 0 <==> forall k :: 0 <= k < |vs| ==> vs[k] == 0
    ensures v != 0 ==> exists k :: 0 <= k < |vs| && vs[k] == v && forall j :: 0 <= j < k ==> vs[j] == 0
  {
    if vs == [] then 0
    else if vs[0] != 0 then vs[0]
    else
      var v := FirstNonZero(vs[1..]);
      assert v != 0 ==> exists k :: 0 <= k < |vs| - 1 && vs[1..][k] == v && forall j :: 0 <= j < k ==> vs[1..][j] == 0;
      assert forall k :: 0 < k < |vs| ==> vs[1..][k - 1] == vs[k];
      v
  }

  /** The values that runs of one benchmark gave. */
  ghost function ValuesOf(evals: seq<Eval>, what: Benchmark): seq<U16> {
    if evals == [] then []
    else
      var e := evals[|evals| - 1];
      ValuesOf(evals[..|evals| - 1], what) + if IsRun(e, what) then [e.value] else []
  }

  // ----- what a comparator fixes about an item

  /** The comparator has nothing more to change about this data. */
  predicate Settled(cmp: Comparator, regen: bool, d: Data16) {
    match cmp
    case CmpComplex => d.cached
    case CmpIdx => regen ==> Restored(d)
  }

  ghost function KeyOf(cmp: Comparator, item: ListData): int
    reads item
  {
    match cmp
    case CmpComplex => item.data16.low
    case CmpIdx => item.idx
  }

  /** key gives the keys of items that are settled, by their index. */
  ghost predicate Keyed(cmp: Comparator, regen: bool, items: seq<ListData>, key: Keys)
    reads items
  {
    forall i {:trigger i in key} :: i in key ==>
      0 <= i < |items| && Settled(cmp, regen, items[i].data16) && key[i] == KeyOf(cmp, items[i])
  }

  // ----- bookkeeping of evaluations

  /** Where an account starts: how many evaluations and which totals there were, the data items in
      question with their data, and those of them that were not cached. */
  datatype Account = Account(start: nat, totals: Totals, items: set<ListData>, data: map<ListData, Data16>,
    uncached: set<ListData>)

  /** The totals after the evaluations: the CRC takes in every value, and the other two are the first results
      of their benchmark that are not 0. */
  ghost function Totalled(t: Totals, evals: seq<Eval>): Totals {
    Totals(Fold(t.crc, evals), FirstNonZero([t.crcstate] + ValuesOf(evals, StateMachine)),
           FirstNonZero([t.crcmatrix] + ValuesOf(evals, MatrixOps)))
  }

  lemma {:induction false} FirstOfMore(vs: seq<U16>, v: U16)
    ensures FirstNonZero(vs + [v]) == if FirstNonZero(vs) != 0 then FirstNonZero(vs) else v
  {
    if vs == [] {
      assert vs + [v] == [v];
    } else {
      FirstOfMore(vs[1..], v);
      assert (vs + [v])[1..] == vs[1..] + [v];
    }
  }

  lemma FirstOfRuns(v0: U16, evals: seq<Eval>, e: Eval, what: Benchmark)
    ensures var v := FirstNonZero([v0] + ValuesOf(evals, what));
      FirstNonZero([v0] + ValuesOf(evals + [e], what)) == if v == 0 && IsRun(e, what) then e.value else v
  {
    hide FirstNonZero;
    assert (evals + [e])[..|evals|] == evals;
    var vs := ValuesOf(evals, what);
    if IsRun(e, what) {
      FirstOfMore([v0] + vs, e.value);
      assert ValuesOf(evals + [e], what) == vs + [e.value];
      assert [v0] + (vs + [e.value]) == [v0] + vs + [e.value];
    } else {
      assert ValuesOf(evals + [e], what) == vs + [] == vs;
    }
  }

  lemma TotalledMore(t: Totals, evals: seq<Eval>, e: Eval)
    ensures Totalled(t, evals + [e]) == NextTotals(Totalled(t, evals), e)
  {
    hide FirstNonZero, ValuesOf, CrcWord;
    assert (evals + [e])[..|evals|] == evals;
    FirstOfRuns(t.crcstate, evals, e, StateMachine);
    FirstOfRuns(t.crcmatrix, evals, e, MatrixOps);
  }

  lemma TotalledNothing(t: Totals)
    ensures Totalled(t, []) == t
  {
  }

  /** The evaluation ran what the item's data at the start of the account told. */
  ghost predicate Recorded(a: Account, e: Eval) {
    && Told(e) && !e.was.cached
    && (e.item in a.data ==> e.was.low == a.data[e.item].low && e.was.upper == a.data[e.item].upper)
  }

  ghost predicate AllRecorded(a: Account, evals: seq<Eval>) {
    forall k :: 0 <= k < |evals| ==> Recorded(a, evals[k])
  }

  /** No backup byte has changed. */
  ghost predicate BackedUp(acct: Account)
    reads acct.items`data16
  {
    && acct.data.Keys == acct.items
    && forall d {:trigger d.data16} :: d in acct.items ==> d.data16.upper == acct.data[d].upper
  }

  ghost function Fold(crc: Word, evals: seq<Eval>): Word {
    if evals == [] then crc
    else CrcWord(evals[|evals| - 1].value, Fold(crc, evals[..|evals| - 1]))
  }

  /** The value each evaluated item got. */
  ghost function Results(evals: seq<Eval>): map<ListData, int> {
    if evals == [] then map[]
    else
      var e := evals[|evals| - 1];
      Results(evals[..|evals| - 1])[e.item := e.value % 0x80]
  }

  ghost predicate NoneTwice(evals: seq<Eval>) {
    evals != [] ==>
      && evals[|evals| - 1].item !in Results(evals[..|evals| - 1])
      && NoneTwice(evals[..|evals| - 1])
  }

  /** Since the account started: each item was evaluated at most once, and none that was cached
      already; the items now cached are those, holding the value they were given, and the ones
      cached before; the CRC is the fold of the evaluations. */
  ghost predicate Accounted(res: CoreResults, a: Account)
    reads res, a.items
  {
    && a.start <= |res.evals|
    && var evals := res.evals[a.start..];
    && NoneTwice(evals)
    && Results(evals).Keys <= a.uncached <= a.items
    && (forall d :: d in a.items ==> (d.data16.cached <==> d !in a.uncached || d in Results(evals)))
    && (forall d :: d in Results(evals) ==> d.data16.low == Results(evals)[d])
    && LowsKept(a, Results(evals).Keys)
    && BackedUp(a)
    && AllRecorded(a, evals)
    && TotalsOf(res) == Totalled(a.totals, evals)
  }

  /** Items that were not evaluated, and plain ones in any case, have the low bits they had. */
  ghost predicate LowsKept(a: Account, evaluated: set<ListData>)
    reads a.items
  {
    forall d {:trigger d.data16} :: d in a.items && d in a.data && (d !in evaluated || Plain(a.data[d])) ==>
      d.data16.low == a.data[d].low
  }

  lemma OneMoreEval(log: seq<Eval>, start: nat, e: Eval)
    requires start <= |log| && NoneTwice(log[start..]) && e.item !in Results(log[start..])
    ensures NoneTwice((log + [e])[start..])
    ensures Results((log + [e])[start..]) == Results(log[start..])[e.item := e.value % 0x80]
    ensures (log + [e])[start..] == log[start..] + [e]
  {
    var after := (log + [e])[start..];
    assert after[..|after| - 1] == log[start..] && after[|after| - 1] == e;
  }

  lemma OneMoreRecord(a: Account, evals: seq<Eval>, e: Eval)
    requires AllRecorded(a, evals) && Recorded(a, e)
    ensures AllRecorded(a, evals + [e])
  {
    hide Recorded;
    forall k | 0 <= k < |evals| + 1 ensures Recorded(a, (evals + [e])[k]) {
      if k < |evals| { assert (evals + [e])[k] == evals[k]; }
    }
  }

  lemma RecordedNow(a: Account, e: Eval)
    requires Told(e) && !e.was.cached
    requires e.item in a.data ==> e.was.low == a.data[e.item].low && e.was.upper == a.data[e.item].upper
    ensures Recorded(a, e)
  {
  }

  /** calc_func on an item of an account keeps the account. */
  method CalcCounted(item: ListData, res: CoreResults, ghost a: Account) returns (r: int)
    requires Accounted(res, a) && item in a.items
    modifies item`data16, res`crc, res`crcstate, res`crcmatrix, res`evals
    ensures Accounted(res, a)
    ensures item.data16.cached && r == item.data16.low
    ensures item.data16.upper == old(item.data16.upper)
    ensures old(item.data16.cached) ==> unchanged(item)
  {
    hide Recorded, AllRecorded, Totalled, Told, NextTotals;
    ghost var log, cached := res.evals, item.data16.cached;
    ghost var evals := log[a.start..];
    r := CalcFunc(item, res);
    if !cached {
      ghost var e := res.evals[|log|];
      OneMoreEval(log, a.start, e);
      RecordedNow(a, e);
      OneMoreRecord(a, evals, e);
      TotalledMore(a.totals, evals, e);
    }
  }

  /** calc_func on an item fixes its key. */
  method CalcKeyed(item: ListData, res: CoreResults, ghost a: Account, ghost regen: bool,
                   ghost items: seq<ListData>, ghost i: nat, ghost key: Keys)
    returns (r: int, ghost key': Keys)
    requires Accounted(res, a) && item in a.items && i < |items| && item == items[i]
    requires Keyed(CmpComplex, regen, items, key)
    modifies item`data16, res`crc, res`crcstate, res`crcmatrix, res`evals
    ensures Accounted(res, a) && Keyed(CmpComplex, regen, items, key')
    ensures Extends(key, key') && i in key' && key'[i] == r
    ensures item.data16.upper == old(item.data16.upper)
  {
    hide Accounted;
    r := CalcCounted(item, res, a);
    key' := key[i := r];
  }

  /** cmp_complex. */
  method CompareComplex(a: ListData, b: ListData, res: CoreResults, ghost acct: Account, ghost regen: bool,
                        ghost items: seq<ListData>, ghost i: nat, ghost j: nat, ghost key: Keys)
    returns (r: int, ghost key': Keys)
    requires Accounted(res, acct) && a in acct.items && b in acct.items
    requires i < |items| && j < |items| && a == items[i] && b == items[j]
    requires Keyed(CmpComplex, regen, items, key)
    modifies a`data16, b`data16, res`crc, res`crcstate, res`crcmatrix, res`evals
    ensures Accounted(res, acct) && Keyed(CmpComplex, regen, items, key')
    ensures Extends(key, key') && i in key' && j in key' && r == key'[i] - key'[j]
    ensures a.data16.upper == old(a.data16.upper) && b.data16.upper == old(b.data16.upper)
  {
    hide Keyed, Accounted;
    var val1, val2;
    val1, key' := CalcKeyed(a, res, acct, regen, items, i, key);
    val2, key' := CalcKeyed(b, res, acct, regen, items, j, key');
    r := val1 - val2;
  }

  /** cmp_idx; a null results block makes it restore the data it looks at. */
  method CompareIdx(a: ListData, b: ListData, res: CoreResults?,
                    ghost items: seq<ListData>, ghost i: nat, ghost j: nat, ghost key: Keys)
    returns (r: int, ghost key': Keys)
    requires i < |items| && j < |items| && a == items[i] && b == items[j]
    requires Keyed(CmpIdx, res == null, items, key)
    modifies a`data16, b`data16
    ensures Keyed(CmpIdx, res == null, items, key')
    ensures Extends(key, key') && i in key' && j in key' && r == key'[i] - key'[j]
    ensures a.data16.upper == old(a.data16.upper) && b.data16.upper == old(b.data16.upper)
  {
    if res == null {
      a.data16 := Restore(a.data16);
      b.data16 := Restore(b.data16);
    }
    r := a.idx - b.idx;
    key' := key[i := a.idx][j := b.idx];
  }

  /** A call through the comparator pointer. The keys fixed so far stay, and the two items' keys get
      fixed; the sign of the result orders them. The call is counted. */
  method Compare(cmp: Comparator, a: ListData, b: ListData, res: CoreResults?, ghost acct: Account,
                 ghost items: seq<ListData>, ghost i: nat, ghost j: nat, ghost key: Keys, ghost tally: Tally)
    returns (r: int, ghost key': Keys)
    requires cmp == CmpComplex ==> res != null && Accounted(res, acct) && a in acct.items && b in acct.items
    requires i < |items| && j < |items| && a == items[i] && b == items[j]
    requires Keyed(cmp, res == null, items, key)
    modifies a`data16, b`data16, res, tally
    ensures tally.calls == old(tally.calls) + 1
    ensures cmp == CmpComplex ==> Accounted(res, acct)
    ensures cmp == CmpIdx && res != null ==> unchanged(res)
    ensures Keyed(cmp, res == null, items, key')
    ensures Extends(key, key') && i in key' && j in key' && r == key'[i] - key'[j]
    ensures a.data16.upper == old(a.data16.upper) && b.data16.upper == old(b.data16.upper)
  {
    hide Keyed, Accounted;
    match cmp {
      case CmpComplex => r, key' := CompareComplex(a, b, res, acct, res == null, items, i, j, key);
      case CmpIdx => r, key' := CompareIdx(a, b, res, items, i, j, key);
    }
    tally.calls := tally.calls + 1;
  }
}
