/** What the promise of core_bench_list, "the list is back to original state", comes to: for one step, for the
    calls that the program makes, and over its iterations. */
module ListRestore {
  import opened Crc
  import CrcTheory
  import opened MachineTypes
  import opened ListCells
  import opened ListCompare
  import opened ListSort
  import opened ListFind
  import opened ListBench

  // ----- one step

  /** The list is back in its order after core_bench_list, whatever values the sub-benchmarks give. */
  ghost predicate KeepsOrder(snap: seq<Entry>, seed3: S16, finderIdx: S16)
    requires |snap| >= 2
  {
    forall before, mid :: MayPrecede(snap, seed3, finderIdx, before, mid) ==> Restorable(snap, before)
  }

  lemma PrecedingPermutes(snap: seq<Entry>, seed3: S16, finderIdx: S16, before: seq<int>, mid: seq<Entry>)
    requires |snap| >= 2 && MayPrecede(snap, seed3, finderIdx, before, mid)
    ensures IsPermutation(before, |snap|)
  {
    hide Permuted, ByValue, Evaluated;
    var found := FindRounds(snap, Start(|snap|, finderIdx), Rounds(seed3)).order;
    if finderIdx > 0 {
      var sorted :| IsPermutation(sorted, |snap|) && before == Permuted(found, sorted);
      ComposePermutations(found, sorted, |snap|);
    }
  }

  /** Where the first round takes place x of the original list to, when it finds place k. */
  ghost function PlaceAfter(n: nat, k: nat, x: nat): (p: nat)
    requires k <= n && x < n
    ensures p < n && NextPlace(n, k, p) == x
  {
    if k == 0 || k == n then n - 1 - x
    else if x == n - 1 then 0
    else if x == k - 1 then 1
    else if x >= k then n - x
    else n - 1 - x
  }

  /** One search turns the list around. The only cell it can move ahead of a later one is the cell
      before the one it finds. */
  lemma OneSearchTurns(snap: seq<Entry>, finderIdx: S16, i: nat, j: nat)
    requires |snap| >= 2 && i < j < |snap| && IdxsOf(snap)[i] == IdxsOf(snap)[j]
    requires var k := FirstMatch(snap, 0, finderIdx); k == 0 || k == |snap| || i != k - 1
    ensures !TiesKept(IdxsOf(snap), FindRounds(snap, Start(|snap|, finderIdx), 1).order)
  {
    var n, k, order := |snap|, FirstMatch(snap, 0, finderIdx), FindRounds(snap, Start(|snap|, finderIdx), 1).order;
    OneSearch(snap, finderIdx);
    hide FindRounds, NextOrder, NextPlace, FirstMatch;
    var a, b := PlaceAfter(n, k, j), PlaceAfter(n, k, i);
    NextAt(Identity(n), k, a);
    NextAt(Identity(n), k, b);
    assert order[a] == j && order[b] == i && a < b;
  }

  lemma OneSearch(snap: seq<Entry>, finderIdx: S16)
    requires |snap| >= 2
    ensures FindRounds(snap, Start(|snap|, finderIdx), 1).order ==
      NextOrder(Identity(|snap|), FirstMatch(snap, 0, finderIdx))
  {
    var start := Start(|snap|, finderIdx);
    hide FirstMatch, NextOrder;
    assert Permuted(snap, start.order) == snap;
    assert FindRounds(snap, start, 1) == FindStep(snap, FindRounds(snap, start, 0), 0);
  }

  // ----- four searches

  /** Two cells keep their order through a round only if the first of them is the one it moves. */
  lemma KeptIsMoved(n: nat, k: nat, a: nat, b: nat, a': nat, b': nat)
    requires k <= n && a < b < n && a' < b' < n && NextPlace(n, k, a') == a && NextPlace(n, k, b') == b
    ensures 0 < k < n && a == k - 1 && a' == 1
  {
  }

  lemma TiedPlaces(idxs: seq<int>, order: seq<int>, x: nat, y: nat) returns (a: nat, b: nat)
    requires IsPermutation(order, |idxs|) && TiesKept(idxs, order) && x < y < |idxs| && idxs[x] == idxs[y]
    ensures a < b < |order| && order[a] == x && order[b] == y
  {
    AllPositions(order, |idxs|);
    var p: int, q: int := x, y;
    assert p in order && q in order;
    a :| 0 <= a < |order| && order[a] == x;
    b :| 0 <= b < |order| && order[b] == y;
  }

  lemma RoundMoves(snap: seq<Entry>, f: Finding, i: nat, x: nat, y: nat) returns (k: nat)
    requires IsPermutation(f.order, |snap|) && x < y < |snap| && IdxsOf(snap)[x] == IdxsOf(snap)[y]
    requires TiesKept(IdxsOf(snap), f.order) && TiesKept(IdxsOf(snap), FindStep(snap, f, i).order)
    ensures k == FirstMatch(Permuted(snap, f.order), i % 0x100, f.idx) && 0 < k < |snap| && f.order[k - 1] == x
    ensures FindStep(snap, f, i).order == NextOrder(f.order, k) && FindStep(snap, f, i).order[1] == x
  {
    var next := FindStep(snap, f, i).order;
    k := FirstMatch(Permuted(snap, f.order), i % 0x100, f.idx);
    hide NextOrder, NextPlace, FirstMatch, TiesKept;
    var a, b := TiedPlaces(IdxsOf(snap), f.order, x, y);
    var a', b' := TiedPlaces(IdxsOf(snap), next, x, y);
    NextAt(f.order, k, a');
    NextAt(f.order, k, b');
    KeptIsMoved(|snap|, k, a, b, a', b');
  }

  /** After a round that moved x it stands behind the head; so the next such round finds the cell behind it. */
  lemma NextRoundFinds(snap: seq<Entry>, f: Finding, i: nat, x: nat, y: nat)
    requires IsPermutation(f.order, |snap|) && |snap| >= 3 && x < y < |snap| && IdxsOf(snap)[x] == IdxsOf(snap)[y]
    requires f.idx == -1 && f.order[1] == x
    requires TiesKept(IdxsOf(snap), f.order) && TiesKept(IdxsOf(snap), FindStep(snap, f, i).order)
    ensures FindStep(snap, f, i).order == NextOrder(f.order, 2) && FindStep(snap, f, i).order[1] == x
    ensures LowByte(snap[f.order[2]].data16) == i % 0x100
  {
    hide NextOrder, FirstMatch, TiesKept;
    var k := RoundMoves(snap, f, i, x, y);
    FirstMatchFits(Permuted(snap, f.order), i % 0x100, -1);
  }

  /** Two such rounds bring the third cell back to the third place. */
  lemma TwoRounds(s: seq<int>)
    requires |s| >= 3
    ensures NextOrder(NextOrder(s, 2), 2)[2] == s[2]
  {
    var i := NextPlace(|s|, 2, 2);
    NextAt(NextOrder(s, 2), 2, 2);
    NextAt(s, 2, i);
  }

  /** Of the lists after one to four searches for data one has exchanged the two cells: the third cell would
      have to hold both 1 and 3. */
  lemma FourSearchesLoseTies(snap: seq<Entry>, x: nat, y: nat)
    requires |snap| >= 3 && x < y < |snap| && IdxsOf(snap)[x] == IdxsOf(snap)[y]
    ensures exists n :: 1 <= n <= 4 && !TiesKept(IdxsOf(snap), FindRounds(snap, Start(|snap|, -1), n).order)
  {
    hide TiesKept, FindStep, NextOrder;
    var start := Start(|snap|, -1);
    Unrolled(snap, start);
    var f1, f2, f3, f4 := FindRounds(snap, start, 1), FindRounds(snap, start, 2), FindRounds(snap, start, 3),
      FindRounds(snap, start, 4);
    var idxs := IdxsOf(snap);
    if TiesKept(idxs, f1.order) && TiesKept(idxs, f2.order) && TiesKept(idxs, f3.order) && TiesKept(idxs, f4.order) {
      IdentityKeeps(idxs);
      var k := RoundMoves(snap, start, 0, x, y);
      NextRoundFinds(snap, f1, 1, x, y);
      NextRoundFinds(snap, f2, 2, x, y);
      TwoRounds(f1.order);
      NextRoundFinds(snap, f3, 3, x, y);
      assert false;
    }
  }

  lemma IdentityKeeps(idxs: seq<int>)
    ensures TiesKept(idxs, Identity(|idxs|))
  {
  }

  lemma Unrolled(snap: seq<Entry>, start: Finding)
    requires IsPermutation(start.order, |snap|) && |snap| >= 2 && start.idx == -1
    ensures var f1, f2, f3 := FindRounds(snap, start, 1), FindRounds(snap, start, 2), FindRounds(snap, start, 3);
      && f1 == FindStep(snap, start, 0) && f2 == FindStep(snap, f1, 1) && f3 == FindStep(snap, f2, 2)
      && FindRounds(snap, start, 4) == FindStep(snap, f3, 3)
      && f1.idx == f2.idx == f3.idx == -1
  {
    hide FirstMatch, NextOrder, Gain;
    assert FindRounds(snap, start, 0) == start;
  }

  // ----- every seed

  lemma StrictKeepsOrder(snap: seq<Entry>, seed3: S16, finderIdx: S16)
    requires |snap| >= 2 && StrictlyIncreasing(IdxsOf(snap))
    ensures KeepsOrder(snap, seed3, finderIdx)
  {
    hide FindRounds, MayPrecede;
    forall before, mid | MayPrecede(snap, seed3, finderIdx, before, mid) ensures Restorable(snap, before) {
      PrecedingPermutes(snap, seed3, finderIdx, before, mid);
      StrictIdxRestores(IdxsOf(snap), before);
    }
  }

  lemma SomeSeedLosesOrder(snap: seq<Entry>) returns (seed3: S16)
    requires |snap| >= 3 && !StrictlyIncreasing(IdxsOf(snap))
    ensures !KeepsOrder(snap, seed3, -1)
  {
    hide FindRounds, MayPrecede, TiesKept;
    var idxs := IdxsOf(snap);
    var n := 0;
    if Nondecreasing(idxs) {
      var x, y :| 0 <= x < y < |idxs| && idxs[x] >= idxs[y];
      assert idxs[x] == idxs[y];
      FourSearchesLoseTies(snap, x, y);
      n :| 1 <= n <= 4 && !TiesKept(idxs, FindRounds(snap, Start(|snap|, -1), n).order);
    }
    seed3 := n;
    SearchOnly(snap, seed3, -1);
    assert !Restorable(snap, FindRounds(snap, Start(|snap|, -1), n).order);
  }

  /** The two calls of an iteration, finder_idx 1 and -1, leave the list in its order for every seed3 if and
      only if idx strictly ascends along it; and then so does every other finder_idx. */
  lemma OrderAlwaysRestored(snap: seq<Entry>)
    requires |snap| >= 3
    ensures StrictlyIncreasing(IdxsOf(snap)) <==>
      forall seed3: S16 :: KeepsOrder(snap, seed3, 1) && KeepsOrder(snap, seed3, -1)
    ensures StrictlyIncreasing(IdxsOf(snap)) <==>
      forall seed3: S16, finderIdx: S16 :: KeepsOrder(snap, seed3, finderIdx)
  {
    hide KeepsOrder;
    if StrictlyIncreasing(IdxsOf(snap)) {
      forall seed3: S16, finderIdx: S16 ensures KeepsOrder(snap, seed3, finderIdx) {
        StrictKeepsOrder(snap, seed3, finderIdx);
      }
    } else {
      var seed3 := SomeSeedLosesOrder(snap);
    }
  }

  // ----- iterations

  function RestoredEntries(snap: seq<Entry>): (r: seq<Entry>)
    ensures |r| == |snap| && IdxsOf(r) == IdxsOf(snap)
  {
    seq(|snap|, i requires 0 <= i < |snap| => Entry(Restore(snap[i].data16), snap[i].idx))
  }

  /** What the list shows before call number k of core_bench_list, and the finder_idx of that call. */
  function Before(snap: seq<Entry>, k: nat): (r: seq<Entry>)
    ensures |r| == |snap| && IdxsOf(r) == IdxsOf(snap)
  {
    if k == 0 then snap else RestoredEntries(snap)
  }

  function FinderOf(k: nat): S16 {
    if k % 2 == 0 then 1 else -1
  }

  /** One call: how the step ran, the value it returned, and what it had calc_func evaluate. */
  datatype Call = Call(run: BenchRun, value: Word, evals: seq<Eval>)

  /** A step on a list of these items, showing snap, that ends in the order it found; the sort by value
      evaluates each item once that was not cached. */
  ghost predicate StepOf(c: Call, items: seq<ListData>, snap: seq<Entry>, seed3: S16, finderIdx: S16) {
    && |items| == |snap| == |c.run.mid| >= 3
    && c.run.find == FindRounds(snap, Start(|snap|, finderIdx), Rounds(seed3))
    && MayPrecede(snap, seed3, finderIdx, c.run.before, c.run.mid)
    && c.value == BenchValue(c.run, Restore(snap[0].data16))
    && NoneTwice(c.evals) && RanFrom(c.evals, items, snap)
    && Results(c.evals).Keys == if finderIdx > 0 then ToEvaluate(items, snap) else {}
  }

  ghost function ToEvaluate(items: seq<ListData>, snap: seq<Entry>): set<ListData>
    requires |items| == |snap|
  {
    set i | 0 <= i < |snap| && !snap[i].data16.cached :: items[i]
  }

  /** The totals over the calls: what each evaluated, and then, for the CRC, what it returned. */
  ghost function CallTotals(calls: seq<Call>): Totals {
    if calls == [] then Totals(Zero(), 0, 0)
    else NextCall(CallTotals(calls[..|calls| - 1]), calls[|calls| - 1])
  }

  ghost function NextCall(t: Totals, c: Call): Totals {
    var t' := Totalled(t, c.evals);
    t'.(crc := Feed(c.value, t'.crc))
  }

  ghost function CallsCrc(calls: seq<Call>): Word {
    CallTotals(calls).crc
  }

  /** All evaluations of the calls, in order. */
  ghost function AllEvals(calls: seq<Call>): seq<Eval> {
    if calls == [] then [] else AllEvals(calls[..|calls| - 1]) + calls[|calls| - 1].evals
  }

  lemma {:induction false} ValuesAppend(evals: seq<Eval>, more: seq<Eval>, what: Benchmark)
    ensures ValuesOf(evals + more, what) == ValuesOf(evals, what) + ValuesOf(more, what)
    decreases |more|
  {
    if more == [] {
      assert evals + more == evals;
    } else {
      var before := more[..|more| - 1];
      ValuesAppend(evals, before, what);
      assert (evals + more)[..|evals + more| - 1] == evals + before;
    }
  }

  lemma {:induction false} FirstAppend(vs: seq<U16>, ws: seq<U16>)
    ensures FirstNonZero(vs + ws) == FirstNonZero([FirstNonZero(vs)] + ws)
    decreases |vs|
  {
    if vs == [] {
      assert ([0] + ws)[1..] == ws == vs + ws;
    } else {
      FirstAppend(vs[1..], ws);
      assert (vs + ws)[1..] == vs[1..] + ws;
      assert ([FirstNonZero(vs)] + ws)[0] == FirstNonZero(vs);
    }
  }

  /** crcstate and crcmatrix are, over all calls, the first results of their benchmark that are not 0. */
  lemma {:induction false} FirstResults(calls: seq<Call>)
    ensures CallTotals(calls).crcstate == FirstNonZero(ValuesOf(AllEvals(calls), StateMachine))
    ensures CallTotals(calls).crcmatrix == FirstNonZero(ValuesOf(AllEvals(calls), MatrixOps))
    decreases |calls|
  {
    if calls != [] {
      var before, c := calls[..|calls| - 1], calls[|calls| - 1];
      FirstResults(before);
      ValuesAppend(AllEvals(before), c.evals, StateMachine);
      ValuesAppend(AllEvals(before), c.evals, MatrixOps);
      FirstAppend(ValuesOf(AllEvals(before), StateMachine), ValuesOf(c.evals, StateMachine));
      FirstAppend(ValuesOf(AllEvals(before), MatrixOps), ValuesOf(c.evals, MatrixOps));
      hide FirstNonZero, ValuesOf;
    }
  }

  lemma WordIsFed(w: Word, crc: Word)
    ensures CrcWord(AsNumber(w), crc) == Feed(w, crc)
  {
    LowBitsOfNumber(w);
    CrcTheory.WordIsFeed(AsNumber(w), crc);
  }

  lemma ShowsRestored(cells: seq<ListHead>, snap: seq<Entry>)
    requires AllRestored(cells, snap) && Traceable(cells, snap)
    ensures Shows(cells, RestoredEntries(snap))
  {
  }

  lemma UncachedAre(cells: seq<ListHead>, items: seq<ListData>, snap: seq<Entry>)
    requires Shows(cells, snap) && |items| == |cells| && forall i :: 0 <= i < |cells| ==> cells[i].info == items[i]
    ensures Uncached(cells) == ToEvaluate(items, snap)
  {
    forall d | d in Uncached(cells) ensures d in ToEvaluate(items, snap) {
      var c :| c in cells && c.info == d;
      var i :| 0 <= i < |cells| && cells[i] == c;
      assert items[i] == d && !snap[i].data16.cached;
    }
    forall d | d in ToEvaluate(items, snap) ensures d in Uncached(cells) {
      var i :| 0 <= i < |snap| && !snap[i].data16.cached && items[i] == d;
      assert cells[i] in cells && cells[i].info == d;
    }
  }

  /** One call and the update of the CRC. */
  method OneCall(res: CoreResults, finderIdx: S16, ghost cells: seq<ListHead>, ghost items: seq<ListData>,
                 ghost snap: seq<Entry>)
    returns (ghost call: Call)
    requires Linked(res.list, cells) && |snap| == |cells| >= 3 && Shows(cells, snap) && finderIdx != 0
    requires |items| == |cells| && forall i :: 0 <= i < |cells| ==> cells[i].info == items[i]
    requires KeepsOrder(snap, res.seed3, finderIdx)
    modifies cells, Infos(cells)`data16, res
    ensures Linked(res.list, cells) && Shows(cells, RestoredEntries(snap))
    ensures forall i :: 0 <= i < |cells| ==> cells[i].info == items[i]
    ensures StepOf(call, items, snap, res.seed3, finderIdx)
    ensures TotalsOf(res) == NextCall(old(TotalsOf(res)), call)
  {
    hide FindRounds, Traceable, MayPrecede, Linked, Permuted, AllRestored, Shows, Restorable, BenchValue, Uncached,
      CrcWord, Feed, ToEvaluate, RestoredEntries, RanFrom, Totalled, ItemsOf;
    assert ItemsOf(cells) == items;
    RanNothing(items, snap, TotalsOf(res));
    ghost var start, totals := |res.evals|, TotalsOf(res);
    FirstIsHead(cells, res.list);
    UncachedAre(cells, items, snap);
    var data0: U16 := *;
    var crc, list;
    ghost var run;
    crc, list, run := BenchList(res, finderIdx, data0, cells, snap);
    ShowsRestored(cells, snap);
    assert Restorable(snap, run.before);
    HeadStays(cells, snap, run.order, list);
    ghost var evals := res.evals[start..];
    assert NoneTwice(evals) && RanFrom(evals, items, snap) && TotalsOf(res) == Totalled(totals, evals);
    WordIsFed(crc, res.crc);
    res.crc := Crcu16(AsNumber(crc), res.crc);
    call := Call(run, crc, evals);
  }

  lemma RanNothing(items: seq<ListData>, snap: seq<Entry>, t: Totals)
    requires |items| == |snap|
    ensures RanFrom([], items, snap) && Totalled(t, []) == t
  {
  }

  lemma HeadStays(cells: seq<ListHead>, snap: seq<Entry>, order: seq<int>, list: ListHead?)
    requires |cells| > 0 && IsPermutation(order, |cells|) && AllRestored(cells, snap)
    requires Linked(cells[0], cells) && Linked(list, Permuted(cells, order))
    ensures order[0] == 0 && cells[0].info.data16 == Restore(snap[0].data16)
  {
    SameChain(cells, order, list, |cells| - 1);
    assert cells[0].info.data16 == Restore(snap[0].data16);
  }

  /** Every call so far was such a step. */
  ghost predicate AllSteps(calls: seq<Call>, items: seq<ListData>, snap: seq<Entry>, seed3: S16) {
    forall k :: 0 <= k < |calls| ==> StepOf(calls[k], items, Before(snap, k), seed3, FinderOf(k))
  }

  lemma OneMoreCall(calls: seq<Call>, c: Call, items: seq<ListData>, snap: seq<Entry>, seed3: S16)
    requires AllSteps(calls, items, snap, seed3) && StepOf(c, items, Before(snap, |calls|), seed3, FinderOf(|calls|))
    ensures AllSteps(calls + [c], items, snap, seed3)
    ensures CallTotals(calls + [c]) == NextCall(CallTotals(calls), c)
  {
    hide StepOf, Before, FinderOf, CallTotals, NextCall;
    TotalsOfMore(calls, c);
    var more := calls + [c];
    forall k: nat | k < |more| ensures StepOf(more[k], items, Before(snap, k), seed3, FinderOf(k)) {
      if k < |calls| {
        assert more[k] == calls[k];
      } else {
        assert k == |calls| && more[k] == c;
      }
    }
  }

  lemma TotalsOfMore(calls: seq<Call>, c: Call)
    ensures CallTotals(calls + [c]) == NextCall(CallTotals(calls), c)
  {
    hide NextCall;
    assert (calls + [c])[..|calls|] == calls;
  }

  /** iterate. As long as every call keeps the order, the list is the same at the end and all its data are
      restored; crc is that over all the calls and crclist, which is returned here, that over the first two. */
  method Iterate(res: CoreResults, iterations: U32, ghost cells: seq<ListHead>, ghost items: seq<ListData>,
                 ghost snap: seq<Entry>)
    returns (crclist: Word, ghost calls: seq<Call>)
    requires Linked(res.list, cells) && |snap| == |cells| >= 3 && Shows(cells, snap)
    requires |items| == |cells| && forall i :: 0 <= i < |cells| ==> cells[i].info == items[i]
    requires forall k :: 0 <= k < 2 * iterations ==> KeepsOrder(Before(snap, k), res.seed3, FinderOf(k))
    modifies cells, Infos(cells)`data16, res
    ensures Linked(res.list, cells) && Shows(cells, Before(snap, iterations))
    ensures forall i :: 0 <= i < |cells| ==> cells[i].info == items[i]
    ensures |calls| == 2 * iterations && AllSteps(calls, items, snap, res.seed3)
    ensures res.crc == CallsCrc(calls)
    ensures res.crcstate == FirstNonZero(ValuesOf(AllEvals(calls), StateMachine))
    ensures res.crcmatrix == FirstNonZero(ValuesOf(AllEvals(calls), MatrixOps))
    ensures crclist == if iterations == 0 then Zero() else CallsCrc(calls[..2])
  {
    hide Linked, Shows, KeepsOrder, StepOf, AllSteps, Before, FinderOf, CallTotals, NextCall, Zero, FirstNonZero,
      ValuesOf, AllEvals;
    Beginning(snap, items, res.seed3);
    res.crc, res.crcmatrix, res.crcstate := Zero(), 0, 0;
    crclist, calls := Zero(), [];
    for i := 0 to iterations
      invariant Linked(res.list, cells) && Shows(cells, Before(snap, i))
      invariant forall i :: 0 <= i < |cells| ==> cells[i].info == items[i]
      invariant |calls| == 2 * i && AllSteps(calls, items, snap, res.seed3)
      invariant TotalsOf(res) == CallTotals(calls)
      invariant crclist == if i == 0 then Zero() else CallsCrc(calls[..2])
    {
      ghost var before := calls;
      Alternate(snap, i);
      ghost var call := OneCall(res, 1, cells, items, Before(snap, 2 * i));
      OneMoreCall(calls, call, items, snap, res.seed3);
      calls := calls + [call];
      call := OneCall(res, -1, cells, items, Before(snap, 2 * i + 1));
      OneMoreCall(calls, call, items, snap, res.seed3);
      calls := calls + [call];
      if i == 0 {
        crclist := res.crc;
        assert calls[..2] == calls;
      } else {
        assert calls[..2] == before[..2];
      }
    }
    FirstResults(calls);
  }

  lemma Beginning(snap: seq<Entry>, items: seq<ListData>, seed3: S16)
    ensures Before(snap, 0) == snap && AllSteps([], items, snap, seed3)
    ensures CallTotals([]) == Totals(Zero(), 0, 0)
  {
  }

  lemma Alternate(snap: seq<Entry>, i: nat)
    ensures FinderOf(2 * i) == 1 && FinderOf(2 * i + 1) == -1
    ensures Before(snap, i) == Before(snap, 2 * i)
    ensures RestoredEntries(Before(snap, 2 * i)) == Before(snap, 2 * i + 1)
    ensures RestoredEntries(Before(snap, 2 * i + 1)) == Before(snap, i + 1)
  {
  }

  /** Every call of every run of iterate keeps the order, for every seed3, if and only if idx strictly
      ascends along the list. */
  lemma IterationsKeepOrder(snap: seq<Entry>)
    requires |snap| >= 3
    ensures StrictlyIncreasing(IdxsOf(snap)) <==>
      forall seed3: S16, k: nat :: KeepsOrder(Before(snap, k), seed3, FinderOf(k))
  {
    hide KeepsOrder, RestoredEntries;
    if StrictlyIncreasing(IdxsOf(snap)) {
      forall seed3: S16, k: nat ensures KeepsOrder(Before(snap, k), seed3, FinderOf(k)) {
        StrictKeepsOrder(Before(snap, k), seed3, FinderOf(k));
      }
    } else {
      var seed3 := SomeSeedLosesOrder(Before(snap, 1));
      assert FinderOf(1) == -1;
    }
  }
}
