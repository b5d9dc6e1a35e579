/** core_bench_list, and when it leaves the list as it found it. */
module ListBench {
  import opened Crc
  import opened MachineTypes
  import opened ListCells
  import opened ListCompare
  import opened ListMerge
  import opened ListSort
  import opened ListFind

  // ----- orders, positions and ties

  lemma ComposePermutations(before: seq<int>, perm: seq<int>, n: nat)
    requires IsPermutation(before, n) && IsPermutation(perm, n)
    ensures IsPermutation(Permuted(before, perm), n)
  {
    var r := Permuted(before, perm);
    forall i, j | 0 <= i < j < n ensures r[i] != r[j] {
      assert perm[i] != perm[j];
    }
  }

  lemma PermutedTwice(cells: seq<ListHead>, before: seq<int>, perm: seq<int>)
    requires IsPermutation(before, |cells|) && IsPermutation(perm, |cells|)
    ensures InRange(Permuted(before, perm), |cells|)
    ensures Permuted(Permuted(cells, before), perm) == Permuted(cells, Permuted(before, perm))
  {
  }

  ghost predicate Nondecreasing(idxs: seq<int>) {
    forall i, j :: 0 <= i < j < |idxs| ==> idxs[i] <= idxs[j]
  }

  ghost predicate StrictlyIncreasing(idxs: seq<int>) {
    forall i, j :: 0 <= i < j < |idxs| ==> idxs[i] < idxs[j]
  }

  /** Positions with equal idx come in their original order. */
  ghost predicate TiesKept(idxs: seq<int>, before: seq<int>)
    requires InRange(before, |idxs|)
  {
    forall a, b :: 0 <= a < b < |before| && idxs[before[a]] == idxs[before[b]] ==> before[a] < before[b]
  }

  /** perm sorts what before lists, by idx, stably. */
  ghost predicate SortsByIdx(idxs: seq<int>, before: seq<int>, perm: seq<int>) {
    && IsPermutation(before, |idxs|) && IsPermutation(perm, |idxs|)
    && forall i, j {:trigger perm[i], perm[j]} :: 0 <= i < j < |perm| ==>
      var a, b := idxs[before[perm[i]]], idxs[before[perm[j]]];
      a < b || (a == b && perm[i] < perm[j])
  }

  lemma {:induction false} AscendingIsIdentity(order: seq<int>, n: nat, k: nat)
    requires IsPermutation(order, n) && k <= n
    requires forall i, j :: 0 <= i < j < n ==> order[i] < order[j]
    ensures forall i :: 0 <= i < k ==> order[i] >= i
    ensures forall i :: n - k <= i < n ==> order[i] <= i
    decreases k
  {
    if k > 0 {
      AscendingIsIdentity(order, n, k - 1);
      if 1 < k {
        assert order[k - 2] < order[k - 1];
        assert order[n - k] < order[n - k + 1];
      }
    }
  }

  /** A stable sort by idx ends in the original order exactly when that order ascends and the
      order before the sort had not disturbed cells of equal idx. */
  lemma SortRestores(idxs: seq<int>, before: seq<int>, perm: seq<int>)
    requires SortsByIdx(idxs, before, perm)
    ensures Permuted(before, perm) == Identity(|idxs|) <==> Nondecreasing(idxs) && TiesKept(idxs, before)
  {
    var n, order := |idxs|, Permuted(before, perm);
    ComposePermutations(before, perm, n);
    if order == Identity(n) {
      forall i, j | 0 <= i < j < n ensures idxs[i] <= idxs[j] {
        assert before[perm[i]] == order[i] == i && before[perm[j]] == order[j] == j;
      }
      forall a, b | 0 <= a < b < n && idxs[before[a]] == idxs[before[b]] ensures before[a] < before[b] {
        var x, y := before[a], before[b];
        assert order[x] == x && order[y] == y;
        assert before[perm[x]] == before[a] && before[perm[y]] == before[b];
        assert perm[x] == a && perm[y] == b;
      }
    }
    if Nondecreasing(idxs) && TiesKept(idxs, before) {
      forall i, j | 0 <= i < j < n ensures order[i] < order[j] {
        var x, y := order[i], order[j];
        assert x == before[perm[i]] && y == before[perm[j]];
      }
      AscendingIsIdentity(order, n, n);
    }
  }

  /** Strictly ascending idx has no ties to lose: the order comes back whatever happened before. */
  lemma StrictIdxRestores(idxs: seq<int>, before: seq<int>)
    requires IsPermutation(before, |idxs|) && StrictlyIncreasing(idxs)
    ensures Nondecreasing(idxs) && TiesKept(idxs, before)
  {
  }

  /** Two chains through the same cells: the chain in some order is also the chain in the given
      order exactly when the orders agree. */
  lemma {:induction false} SameChain(cells: seq<ListHead>, order: seq<int>, list: ListHead?, k: nat)
    requires IsPermutation(order, |cells|) && k < |cells|
    requires Linked(cells[0], cells) && Linked(list, Permuted(cells, order))
    ensures order[|cells| - 1 - k] == |cells| - 1 - k
    decreases k
  {
    var n, r := |cells|, Permuted(cells, order);
    assert r[n - 1 - k].next == At(r, n - k);
    assert cells[order[n - 1 - k]].next == At(cells, order[n - 1 - k] + 1);
    if k > 0 {
      SameChain(cells, order, list, k - 1);
      assert r[n - k] == cells[n - k];
    }
  }

  // ----- the check between the sorts

  ghost function CrcRepeat(v: U16, n: nat, crc: Word): Word {
    if n == 0 then crc else CrcWord(v, CrcRepeat(v, n - 1, crc))
  }

  /** The CRC loops run along the list from finder, but feed the head's data each time. */
  method CrcAlong(list: ListHead, finder0: ListHead?, crc: Word, ghost s: seq<ListHead>, ghost k: nat) returns (r: Word)
    requires Linked(list, s) && k <= |s| && finder0 == At(s, k)
    ensures r == CrcRepeat(Pack(list.info.data16), |s| - k, crc)
  {
    hide Pack, CrcWord;
    var finder := finder0;
    r := crc;
    ghost var i := k;
    while finder != null
      invariant k <= i <= |s| && finder == At(s, i)
      invariant r == CrcRepeat(Pack(list.info.data16), i - k, crc)
      decreases |s| - i
    {
      r := Crcu16(Pack(list.info.data16), r);
      finder := finder.next;
      i := i + 1;
    }
  }

  /** How many cells the check runs along, with the second item removed. */
  ghost function CheckLength(es: seq<Entry>, wantData: U16, wantIdx: S16): nat
    requires |es| >= 3
  {
    var rest := [es[0]] + es[2..];
    var k := FirstMatch(rest, wantData, wantIdx);
    if k < |rest| then |rest| - k else |rest| - 1
  }

  /** Remove the second item, run the check, and undo the removal. */
  method MidCheck(list: ListHead, wantData: U16, wantIdx: S16, crc: Word, ghost s: seq<ListHead>, ghost es: seq<Entry>)
    returns (r: Word)
    requires Linked(list, s) && |s| >= 3 && Shows(s, es)
    modifies s[1], s[2]
    ensures Linked(list, s) && s[1].info == old(s[1].info) && s[2].info == old(s[2].info)
    ensures r == CrcRepeat(Pack(es[0].data16), CheckLength(es, wantData, wantIdx), crc)
  {
    hide CrcRepeat, CrcWord, FirstMatch, Matches, Pack;
    ghost var s', es' := s[..2] + s[3..], [es[0]] + es[2..];
    var remover := Remove(list.next, list, s, 1);
    assert Shows(s', es');
    var finder;
    ghost var k;
    finder, k := FindPlace(list, wantData, wantIdx, s', es');
    if finder == null {
      finder := list.next;
      k := 1;
    }
    r := CrcAlong(list, finder, crc, s', k);
    remover := UndoRemove(remover, list.next, list, s', 1);
    assert s'[..2] + [s[2]] + s'[2..] == s;
  }

  // ----- the two sorts, told in positions of the original list

  function IdxsOf(snap: seq<Entry>): (r: seq<int>)
    ensures |r| == |snap|
  {
    seq(|snap|, i requires 0 <= i < |snap| => snap[i].idx as int)
  }

  /** idx and backup byte of every item are as in the snapshot. */
  ghost predicate Traceable(cells: seq<ListHead>, snap: seq<Entry>)
    reads cells`info, Infos(cells)
  {
    && |snap| == |cells|
    && forall i {:trigger cells[i]} :: 0 <= i < |cells| ==>
      cells[i].info.idx == snap[i].idx && cells[i].info.data16.upper == snap[i].data16.upper
  }

  ghost predicate AllRestored(cells: seq<ListHead>, snap: seq<Entry>)
    reads cells`info, Infos(cells)
  {
    && |snap| == |cells|
    && forall i {:trigger cells[i]} :: 0 <= i < |cells| ==> cells[i].info.data16 == Restore(snap[i].data16)
  }

  lemma TraceableFromShows(cells: seq<ListHead>, snap: seq<Entry>)
    requires Shows(cells, snap)
    ensures Traceable(cells, snap)
  {
  }

  /** All data agree with their backup. */
  ghost predicate Backed(snap: seq<Entry>) {
    forall i :: 0 <= i < |snap| ==> Restored(snap[i].data16)
  }

  lemma InfosOfPermuted(cells: seq<ListHead>, before: seq<int>)
    requires IsPermutation(before, |cells|)
    ensures Infos(Permuted(cells, before)) == Infos(cells)
    ensures forall i :: 0 <= i < |cells| ==> Permuted(cells, before)[i] in cells
    ensures forall c :: c in Permuted(cells, before) <==> c in cells
  {
    var s := Permuted(cells, before);
    AllPositions(before, |cells|);
    forall c | c in cells ensures c in s {
      var x :| 0 <= x < |cells| && cells[x] == c;
      assert x in before;
      var i :| 0 <= i < |before| && before[i] == x;
      assert s[i] == c;
    }
  }

  lemma SortedInIdx(cells: seq<ListHead>, snap: seq<Entry>, before: seq<int>, perm: seq<int>)
    requires Traceable(cells, snap) && IsPermutation(before, |cells|) && IsPermutation(perm, |cells|)
    requires SortedStable(CmpIdx, Permuted(cells, before), perm)
    ensures SortsByIdx(IdxsOf(snap), before, perm)
  {
    var s, idxs := Permuted(cells, before), IdxsOf(snap);
    forall i, j {:trigger perm[i], perm[j]} | 0 <= i < j < |perm|
      ensures var a, b := idxs[before[perm[i]]], idxs[before[perm[j]]]; a < b || (a == b && perm[i] < perm[j])
    {
      assert s[perm[i]] == cells[before[perm[i]]] && s[perm[j]] == cells[before[perm[j]]];
    }
  }

  /** The backup bytes decide what restored data is. */
  lemma SettledIsRestored(cells: seq<ListHead>, snap: seq<Entry>, before: seq<int>)
    requires Traceable(cells, snap) && IsPermutation(before, |cells|)
    requires AllSettled(CmpIdx, true, Permuted(cells, before))
    ensures AllRestored(cells, snap)
  {
    InfosOfPermuted(cells, before);
    forall i {:trigger cells[i]} | 0 <= i < |cells| ensures cells[i].info.data16 == Restore(snap[i].data16) {
      assert cells[i] in Permuted(cells, before);
      assert Restored(cells[i].info.data16);
    }
  }

  /** The account was opened while the items had the backups of the snapshot. */
  ghost predicate OpenedWith(a: Account, cells: seq<ListHead>, snap: seq<Entry>)
    reads cells`info, Infos(cells)`idx
  {
    && |snap| == |cells|
    && forall i {:trigger cells[i]} :: 0 <= i < |cells| ==>
      && cells[i].info in a.items && cells[i].info in a.data
      && cells[i].info.idx == snap[i].idx && a.data[cells[i].info].upper == snap[i].data16.upper
  }

  lemma AccountOpens(res: CoreResults?, cells: seq<ListHead>, snap: seq<Entry>, before: seq<int>)
    requires Traceable(cells, snap) && IsPermutation(before, |cells|)
    ensures OpenedWith(OpenAccount(res, Permuted(cells, before)), cells, snap)
  {
    InfosOfPermuted(cells, before);
  }

  lemma StillTraceable(a: Account, cells: seq<ListHead>, snap: seq<Entry>)
    requires OpenedWith(a, cells, snap) && BackedUp(a)
    ensures Traceable(cells, snap)
  {
  }

  /** The last sort: by idx, restoring the data. */
  method SortByIndex(list0: ListHead, ghost cells: seq<ListHead>, ghost snap: seq<Entry>, ghost before: seq<int>)
    returns (list: ListHead?, ghost perm: seq<int>)
    requires Traceable(cells, snap) && |cells| >= 2 && IsPermutation(before, |cells|)
    requires Linked(list0, Permuted(cells, before))
    modifies cells`next, Infos(cells)`data16
    ensures SortsByIdx(IdxsOf(snap), before, perm) && IsPermutation(perm, |cells|)
    ensures IsPermutation(Permuted(before, perm), |cells|)
    ensures Linked(list, Permuted(cells, Permuted(before, perm)))
    ensures Traceable(cells, snap) && AllRestored(cells, snap)
  {
    hide Linked, SortedStable, AllSettled, Traceable, OpenedWith, Permuted, OpenAccount, CeilLog2, AllRestored,
      SortsByIdx, Accounted;
    ghost var s, a := Permuted(cells, before), OpenAccount(null, Permuted(cells, before));
    InfosOfPermuted(cells, before);
    AccountOpens(null, cells, snap, before);
    ghost var tally := new Tally();
    list, perm := MergeSort(list0, CmpIdx, null, s, tally);
    StillTraceable(a, cells, snap);
    SortedInIdx(cells, snap, before, perm);
    SettledIsRestored(cells, snap, before);
    ComposePermutations(before, perm, |cells|);
    PermutedTwice(cells, before, perm);
  }

  ghost function Uncached(cells: seq<ListHead>): set<ListData>
    reads cells`info, Infos(cells)
  {
    set d | d in Infos(cells) && !d.data16.cached
  }

  /** Each evaluation ran what the item's data in the snapshot told. */
  ghost predicate RanFrom(evals: seq<Eval>, items: seq<ListData>, snap: seq<Entry>) {
    && |items| == |snap|
    && (forall k :: 0 <= k < |evals| ==> Told(evals[k]))
    && forall k, i ::
      0 <= k < |evals| && 0 <= i < |items| && evals[k].item == items[i] ==> evals[k].was == snap[i].data16
  }

  /** Since start, exactly these items were evaluated, each once, and the totals are made of that. */
  ghost predicate EachOnce(res: CoreResults, start: nat, totals: Totals, uncached: set<ListData>, items: seq<ListData>,
                           snap: seq<Entry>)
    reads res
  {
    && start <= |res.evals|
    && NoneTwice(res.evals[start..]) && Results(res.evals[start..]).Keys == uncached
    && RanFrom(res.evals[start..], items, snap)
    && TotalsOf(res) == Totalled(totals, res.evals[start..])
  }

  lemma {:induction false} ResultOf(evals: seq<Eval>, k: nat)
    requires k < |evals|
    ensures evals[k].item in Results(evals)
    decreases |evals|
  {
    if k < |evals| - 1 { ResultOf(evals[..|evals| - 1], k); }
  }

  lemma RanFromRecords(res: CoreResults, a: Account, cells: seq<ListHead>, snap: seq<Entry>)
    requires Accounted(res, a) && OpenedAt(a, cells, snap)
    ensures RanFrom(res.evals[a.start..], ItemsOf(cells), snap)
  {
    var evals, items := res.evals[a.start..], ItemsOf(cells);
    forall k, i | 0 <= k < |evals| && 0 <= i < |items| && evals[k].item == items[i]
      ensures evals[k].was == snap[i].data16
    {
      ResultOf(evals, k);
      assert Recorded(a, evals[k]);
      assert cells[i].info == items[i];
    }
    forall k | 0 <= k < |evals| ensures Told(evals[k]) {
      assert Recorded(a, evals[k]);
    }
  }

  lemma AllCachedOnce(res: CoreResults, a: Account, cells: seq<ListHead>, snap: seq<Entry>)
    requires Accounted(res, a) && AllSettled(CmpComplex, false, cells) && a.items == Infos(cells)
    requires OpenedAt(a, cells, snap)
    ensures EachOnce(res, a.start, a.totals, a.uncached, ItemsOf(cells), snap)
  {
    RanFromRecords(res, a, cells, snap);
    hide RanFrom, Totalled, OpenedAt, AllRecorded;
    forall d | d in a.uncached ensures d in Results(res.evals[a.start..]) {
      var c :| c in cells && c.info == d;
      assert d.data16.cached;
    }
  }

  /** Entries by ascending value, those of equal value in the order they came in; sorted gives the place
      that each came from. */
  ghost predicate ByValue(es: seq<Entry>, sorted: seq<int>) {
    && |sorted| == |es|
    && forall i, j {:trigger es[i], es[j]} :: 0 <= i < j < |es| ==>
      es[i].data16.low < es[j].data16.low || (es[i].data16.low == es[j].data16.low && sorted[i] < sorted[j])
  }

  /** The entries of the snapshot in the given order, by now all cached. Only a sub-benchmark can have
      given an item another value than it showed. */
  ghost predicate Evaluated(es: seq<Entry>, snap: seq<Entry>, order: seq<int>)
    requires InRange(order, |snap|)
  {
    && |es| == |order|
    && forall i {:trigger es[i]} :: 0 <= i < |es| ==>
      var e, was := es[i], snap[order[i]];
      && e.idx == was.idx && e.data16.cached && e.data16.upper == was.data16.upper
      && (was.data16.cached || Plain(was.data16) ==> e.data16.low == was.data16.low)
  }

  /** What the search would see now. */
  ghost function SnapshotOf(cells: seq<ListHead>): (snap: seq<Entry>)
    reads cells`info, Infos(cells)
    ensures Shows(cells, snap)
  {
    if cells == [] then [] else
      var last := cells[|cells| - 1];
      assert forall d :: d in Infos(cells[..|cells| - 1]) ==> d in Infos(cells);
      SnapshotOf(cells[..|cells| - 1]) + [Entry(last.info.data16, last.info.idx)]
  }

  lemma SortedByValue(cells: seq<ListHead>, before: seq<int>, perm: seq<int>, es: seq<Entry>)
    requires IsPermutation(before, |cells|) && IsPermutation(perm, |cells|)
    requires IsPermutation(Permuted(before, perm), |cells|)
    requires SortedStable(CmpComplex, Permuted(cells, before), perm)
    requires Shows(Permuted(cells, Permuted(before, perm)), es)
    ensures ByValue(es, perm)
  {
    var s, t := Permuted(cells, before), Permuted(cells, Permuted(before, perm));
    forall i, j {:trigger es[i], es[j]} | 0 <= i < j < |es|
      ensures es[i].data16.low < es[j].data16.low || (es[i].data16.low == es[j].data16.low && perm[i] < perm[j])
    {
      assert t[i] == s[perm[i]] && t[j] == s[perm[j]];
      assert es[i].data16 == t[i].info.data16 && es[j].data16 == t[j].info.data16;
    }
  }

  /** The account was opened when the items showed the snapshot. */
  ghost predicate OpenedAt(a: Account, cells: seq<ListHead>, snap: seq<Entry>)
    reads cells`info
  {
    && |snap| == |cells|
    && forall i {:trigger cells[i]} :: 0 <= i < |cells| ==>
      && cells[i].info in a.items && cells[i].info in a.data && a.data[cells[i].info] == snap[i].data16
      && (cells[i].info in a.uncached <==> !snap[i].data16.cached)
  }

  lemma AccountOpensAt(res: CoreResults?, cells: seq<ListHead>, snap: seq<Entry>, before: seq<int>)
    requires Shows(cells, snap) && IsPermutation(before, |cells|)
    ensures OpenedAt(OpenAccount(res, Permuted(cells, before)), cells, snap)
  {
    InfosOfPermuted(cells, before);
  }

  /** What the account says of the values after the sort. */
  lemma EvaluatedFrom(res: CoreResults, a: Account, cells: seq<ListHead>, snap: seq<Entry>, order: seq<int>,
                      es: seq<Entry>)
    requires OpenedAt(a, cells, snap) && Accounted(res, a) && Traceable(cells, snap)
    requires AllSettled(CmpComplex, false, cells) && IsPermutation(order, |cells|) && Shows(Permuted(cells, order), es)
    ensures Evaluated(es, snap, order)
  {
    var t := Permuted(cells, order);
    forall i {:trigger es[i]} | 0 <= i < |es|
      ensures var e, was := es[i], snap[order[i]];
        && e.idx == was.idx && e.data16.cached && e.data16.upper == was.data16.upper
        && (was.data16.cached || Plain(was.data16) ==> e.data16.low == was.data16.low)
    {
      assert t[i] == cells[order[i]];
    }
  }

  lemma AccountOf(res: CoreResults, cells: seq<ListHead>, before: seq<int>)
    requires IsPermutation(before, |cells|)
    ensures var a := OpenAccount(res, Permuted(cells, before));
      a.start == |res.evals| && a.totals == TotalsOf(res) && a.items == Infos(cells) && a.uncached == Uncached(cells)
  {
    InfosOfPermuted(cells, before);
  }

  lemma SettledOfPermuted(cells: seq<ListHead>, before: seq<int>)
    requires IsPermutation(before, |cells|) && AllSettled(CmpComplex, false, Permuted(cells, before))
    ensures AllSettled(CmpComplex, false, cells)
  {
    InfosOfPermuted(cells, before);
  }

  lemma AllSettledOnce(res: CoreResults, a: Account, cells: seq<ListHead>, snap: seq<Entry>, before: seq<int>)
    requires IsPermutation(before, |cells|) && AllSettled(CmpComplex, false, Permuted(cells, before))
    requires Accounted(res, a) && a.items == Infos(cells) && OpenedAt(a, cells, snap)
    ensures EachOnce(res, a.start, a.totals, a.uncached, ItemsOf(cells), snap)
  {
    hide Accounted, EachOnce, AllSettled, OpenedAt;
    SettledOfPermuted(cells, before);
    AllCachedOnce(res, a, cells, snap);
  }

  /** The cells and what they show after the sort by value. */
  lemma AfterValueSort(res: CoreResults, a: Account, cells: seq<ListHead>, snap: seq<Entry>, before: seq<int>,
                       sorted: seq<int>)
    returns (mid: seq<Entry>)
    requires IsPermutation(before, |cells|) && IsPermutation(sorted, |cells|)
    requires OpenedWith(a, cells, snap) && OpenedAt(a, cells, snap) && BackedUp(a) && Accounted(res, a)
    requires SortedStable(CmpComplex, Permuted(cells, before), sorted)
    requires AllSettled(CmpComplex, false, Permuted(cells, before))
    ensures IsPermutation(Permuted(before, sorted), |cells|) && Traceable(cells, snap)
    ensures Shows(Permuted(cells, Permuted(before, sorted)), mid) && |mid| == |cells|
    ensures ByValue(mid, sorted) && Evaluated(mid, snap, Permuted(before, sorted))
  {
    hide Linked, SortedStable, AllSettled, Traceable, OpenedWith, OpenedAt, Permuted, Accounted, ByValue, Evaluated,
      Shows, BackedUp;
    StillTraceable(a, cells, snap);
    SettledOfPermuted(cells, before);
    ComposePermutations(before, sorted, |cells|);
    var order := Permuted(before, sorted);
    mid := SnapshotOf(Permuted(cells, order));
    SortedByValue(cells, before, sorted, mid);
    EvaluatedFrom(res, a, cells, snap, order, mid);
  }

  /** The first sort: by value, caching the data. */
  method SortByValue(list0: ListHead, res: CoreResults, ghost cells: seq<ListHead>, ghost snap: seq<Entry>,
                     ghost before: seq<int>)
    returns (list: ListHead?, ghost sorted: seq<int>, ghost mid: seq<Entry>)
    requires Shows(cells, snap) && |cells| >= 2 && IsPermutation(before, |cells|)
    requires Linked(list0, Permuted(cells, before))
    modifies cells`next, Infos(cells)`data16, res
    ensures IsPermutation(sorted, |cells|) && IsPermutation(Permuted(before, sorted), |cells|)
    ensures Linked(list, Permuted(cells, Permuted(before, sorted))) && Traceable(cells, snap)
    ensures Shows(Permuted(cells, Permuted(before, sorted)), mid) && |mid| == |cells|
    ensures ByValue(mid, sorted) && Evaluated(mid, snap, Permuted(before, sorted))
    ensures EachOnce(res, old(|res.evals|), old(TotalsOf(res)), old(Uncached(cells)), old(ItemsOf(cells)), snap)
  {
    hide Linked, SortedStable, AllSettled, Traceable, OpenedWith, OpenedAt, Permuted, OpenAccount, CeilLog2, Accounted,
      Uncached, EachOnce, ByValue, Evaluated, Shows, BackedUp;
    ghost var s, a := Permuted(cells, before), OpenAccount(res, Permuted(cells, before));
    InfosOfPermuted(cells, before);
    TraceableFromShows(cells, snap);
    AccountOpens(res, cells, snap, before);
    AccountOpensAt(res, cells, snap, before);
    AccountOf(res, cells, before);
    hide Infos, ItemsOf, TotalsOf;
    ghost var tally := new Tally();
    list, sorted := MergeSort(list0, CmpComplex, res, s, tally);
    assert ItemsOf(cells) == old(ItemsOf(cells));
    assert OpenedAt(a, cells, snap) && OpenedWith(a, cells, snap);
    AllSettledOnce(res, a, cells, snap, before);
    mid := AfterValueSort(res, a, cells, snap, before, sorted);
    PermutedTwice(cells, before, sorted);
  }

  // ----- the benchmark step

  /** A run of the benchmark step: what the find phase came to, the order the last sort got, the
      order it left, what the check in between saw of the list, and the byte last looked for. */
  datatype BenchRun = BenchRun(find: Finding, before: seq<int>, order: seq<int>, mid: seq<Entry>, data: U16)

  /** The accumulated value after the find phase and its correction. */
  ghost function FindValue(f: Finding): U16 {
    (f.retval + f.found * 4 - f.missed) % 0x1_0000
  }

  /** The value core_bench_list returns, given the data of the head of the final list. */
  ghost function BenchValue(run: BenchRun, finalHead: Data16): Word
    requires |run.mid| >= 3
  {
    CrcRepeat(Pack(finalHead), |run.mid| - 1,
      CrcRepeat(Pack(run.mid[0].data16), CheckLength(run.mid, run.data, run.find.idx),
                LowBits(FindValue(run.find), 16)))
  }

  lemma IdentityPermutes(cells: seq<ListHead>)
    ensures IsPermutation(Identity(|cells|), |cells|) && Permuted(cells, Identity(|cells|)) == cells
  {
  }

  lemma HeadIsCell(cells: seq<ListHead>, order: seq<int>, list: ListHead?)
    requires IsPermutation(order, |cells|) && Linked(list, Permuted(cells, order)) && |cells| > 0
    ensures list != null && list == cells[order[0]]
  {
  }

  ghost function Start(n: nat, finderIdx: S16): (f: Finding)
    ensures IsPermutation(f.order, n)
  {
    Finding(Identity(n), 0, 0, 0, finderIdx)
  }

  lemma FirstIsHead(cells: seq<ListHead>, list: ListHead?)
    requires Linked(list, cells) && |cells| > 0
    ensures list == cells[0]
  {
  }

  /** What the order before the last sort, and the entries in it, can be. Without a sort by value it is
      the order that the search left; with one it is that order sorted stably by the values that the
      items then have. */
  ghost predicate MayPrecede(snap: seq<Entry>, seed3: S16, finderIdx: S16, before: seq<int>, mid: seq<Entry>)
    requires |snap| >= 2
  {
    var found := FindRounds(snap, Start(|snap|, finderIdx), Rounds(seed3)).order;
    if finderIdx <= 0 then before == found && mid == Permuted(snap, before)
    else exists sorted ::
      && IsPermutation(sorted, |snap|) && before == Permuted(found, sorted)
      && ByValue(mid, sorted) && Evaluated(mid, snap, before)
  }

  lemma SearchOnly(snap: seq<Entry>, seed3: S16, finderIdx: S16)
    requires |snap| >= 2 && finderIdx <= 0
    ensures var found := FindRounds(snap, Start(|snap|, finderIdx), Rounds(seed3)).order;
      MayPrecede(snap, seed3, finderIdx, found, Permuted(snap, found))
  {
    hide FindRounds, Permuted;
  }

  lemma ValueOrderMayPrecede(snap: seq<Entry>, seed3: S16, finderIdx: S16, found: seq<int>, sorted: seq<int>,
                             mid: seq<Entry>)
    requires |snap| >= 2 && finderIdx > 0 && found == FindRounds(snap, Start(|snap|, finderIdx), Rounds(seed3)).order
    requires IsPermutation(sorted, |snap|) && IsPermutation(found, |snap|)
    requires IsPermutation(Permuted(found, sorted), |snap|)
    requires ByValue(mid, sorted) && Evaluated(mid, snap, Permuted(found, sorted))
    ensures MayPrecede(snap, seed3, finderIdx, Permuted(found, sorted), mid)
  {
    hide FindRounds, Permuted, ByValue, Evaluated, Start;
  }

  /** The find phase and the optional sort by value, up to the removal. */
  method FirstHalf(res: CoreResults, finderIdx: S16, data0: U16, ghost cells: seq<ListHead>, ghost snap: seq<Entry>)
    returns (list: ListHead?, retval: Word, data: U16, idx: S16, ghost f: Finding, ghost before: seq<int>,
             ghost mid: seq<Entry>)
    requires Linked(res.list, cells) && |snap| == |cells| >= 3 && Shows(cells, snap)
    modifies cells`next, Infos(cells)`data16, res
    ensures f == FindRounds(snap, Start(|cells|, finderIdx), Rounds(res.seed3))
    ensures retval == LowBits(FindValue(f), 16) && idx == f.idx && data == LastData(res.seed3, data0)
    ensures IsPermutation(before, |cells|) && Linked(list, Permuted(cells, before)) && Traceable(cells, snap)
    ensures Shows(Permuted(cells, before), mid) && |mid| == |cells|
    ensures MayPrecede(snap, res.seed3, finderIdx, before, mid)
    ensures if finderIdx <= 0 then unchanged(res)
      else EachOnce(res, old(|res.evals|), old(TotalsOf(res)), old(Uncached(cells)), old(ItemsOf(cells)), snap)
  {
    hide Permuted, FindRounds, Traceable, ByValue, Evaluated, EachOnce, Uncached, LowBits, Shows, MayPrecede;
    IdentityPermutes(cells);
    var value, found, missed;
    list, value, found, missed, data, idx, f :=
      FindMany(res.list, res.seed3, data0, finderIdx, cells, snap, Identity(|cells|));
    retval := LowBits((value + found * 4 - missed) % 0x1_0000, 16);
    before := f.order;
    TraceableFromShows(cells, snap);
    assert Uncached(cells) == old(Uncached(cells));
    if finderIdx > 0 {
      ghost var sorted;
      list, sorted, mid := SortByValue(list, res, cells, snap, before);
      ValueOrderMayPrecede(snap, res.seed3, finderIdx, before, sorted, mid);
      before := Permuted(before, sorted);
    } else {
      mid := Permuted(snap, before);
      SearchOnly(snap, res.seed3, finderIdx);
      ShowsInOrder(cells, snap, before);
    }
  }

  /** The list is back in its original order exactly under the condition of SortRestores. */
  lemma BackInOrder(cells: seq<ListHead>, snap: seq<Entry>, before: seq<int>, perm: seq<int>, list: ListHead?)
    requires |snap| == |cells| > 0 && SortsByIdx(IdxsOf(snap), before, perm)
    requires IsPermutation(Permuted(before, perm), |cells|) && Linked(list, Permuted(cells, Permuted(before, perm)))
    ensures Linked(cells[0], cells) <==> Restorable(snap, before)
  {
    var order := Permuted(before, perm);
    SortRestores(IdxsOf(snap), before, perm);
    IdentityPermutes(cells);
    if Linked(cells[0], cells) {
      forall i | 0 <= i < |cells| ensures order[i] == i {
        SameChain(cells, order, list, |cells| - 1 - i);
      }
      assert order == Identity(|cells|);
    }
  }

  /** The order before the last sort loses nothing that the sort cannot restore. */
  ghost predicate Restorable(snap: seq<Entry>, before: seq<int>) {
    IsPermutation(before, |snap|) && Nondecreasing(IdxsOf(snap)) && TiesKept(IdxsOf(snap), before)
  }

  /** MidCheck leaves all cells and data as they were. */
  method CheckStep(list: ListHead, retval0: Word, data: U16, idx: S16,
                   ghost cells: seq<ListHead>, ghost snap: seq<Entry>, ghost before: seq<int>, ghost mid: seq<Entry>)
    returns (retval: Word)
    requires |cells| >= 3 && IsPermutation(before, |cells|) && Traceable(cells, snap)
    requires Linked(list, Permuted(cells, before)) && Shows(Permuted(cells, before), mid)
    modifies cells
    ensures Linked(list, Permuted(cells, before)) && Traceable(cells, snap)
    ensures forall c {:trigger c.info} :: c in cells ==> c.info == old(c.info)
    ensures retval == CrcRepeat(Pack(mid[0].data16), CheckLength(mid, data, idx), retval0)
  {
    hide CrcRepeat, CheckLength, Pack, Shows;
    InfosOfPermuted(cells, before);
    retval := MidCheck(list, data, idx, retval0, Permuted(cells, before), mid);
    assert forall c {:trigger c.info} :: c in cells ==> c.info == old(c.info);
  }

  /** The removal, the check, the undo, the sort by idx and the final check. */
  method SecondHalf(list0: ListHead, retval0: Word, data: U16, idx: S16,
                    ghost cells: seq<ListHead>, ghost snap: seq<Entry>, ghost before: seq<int>, ghost mid: seq<Entry>)
    returns (retval: Word, list: ListHead?, ghost perm: seq<int>)
    requires |cells| >= 3 && IsPermutation(before, |cells|) && Traceable(cells, snap)
    requires Linked(list0, Permuted(cells, before)) && Shows(Permuted(cells, before), mid)
    modifies cells, Infos(cells)`data16
    ensures SortsByIdx(IdxsOf(snap), before, perm) && IsPermutation(perm, |cells|)
    ensures IsPermutation(Permuted(before, perm), |cells|)
    ensures Linked(list, Permuted(cells, Permuted(before, perm)))
    ensures forall c {:trigger c.info} :: c in cells ==> c.info == old(c.info)
    ensures AllRestored(cells, snap) && Traceable(cells, snap)
    ensures retval == CrcRepeat(Pack(cells[Permuted(before, perm)[0]].info.data16), |cells| - 1,
                        CrcRepeat(Pack(mid[0].data16), CheckLength(mid, data, idx), retval0))
  {
    hide CrcRepeat, CheckLength, AllRestored, SortsByIdx, Pack, Shows, Traceable;
    retval := CheckStep(list0, retval0, data, idx, cells, snap, before, mid);
    list, perm := SortByIndex(list0, cells, snap, before);
    ghost var order := Permuted(before, perm);
    HeadIsCell(cells, order, list);
    SecondCellOf(list, Permuted(cells, order));
    var finder := list.next;
    retval := CrcAlong(list, finder, retval, Permuted(cells, order), 1);
  }

  lemma SecondCellOf(list: ListHead?, s: seq<ListHead>)
    requires Linked(list, s) && |s| >= 1
    ensures list != null && list.next == At(s, 1)
  {
  }

  /** core_bench_list on a list of at least three cells. It ends with all cells in a list, each with
      the item it had, sorted by idx with ties as they were before the last sort, and all data restored
      from its backup. So the cells follow res->list in the original order exactly when idx ascends
      along the original list and the search and the first sort left no cells of equal idx exchanged. */
  method BenchList(res: CoreResults, finderIdx: S16, data0: U16, ghost cells: seq<ListHead>, ghost snap: seq<Entry>)
    returns (retval: Word, list: ListHead?, ghost run: BenchRun)
    requires Linked(res.list, cells) && |snap| == |cells| >= 3 && Shows(cells, snap)
    modifies cells, Infos(cells)`data16, res
    ensures IsPermutation(run.order, |cells|) && Linked(list, Permuted(cells, run.order))
    ensures IsPermutation(run.before, |cells|) && |run.mid| == |cells|
    ensures Linked(res.list, cells) <==> Restorable(snap, run.before)
    ensures forall c :: c in cells ==> c.info == old(c.info)
    ensures AllRestored(cells, snap) && Traceable(cells, snap)
    ensures Shows(cells, snap) <==> Backed(snap)
    ensures run.find == FindRounds(snap, Start(|cells|, finderIdx), Rounds(res.seed3))
    ensures run.data == LastData(res.seed3, data0)
    ensures MayPrecede(snap, res.seed3, finderIdx, run.before, run.mid)
    ensures if finderIdx <= 0 then unchanged(res)
      else EachOnce(res, old(|res.evals|), old(TotalsOf(res)), old(Uncached(cells)), old(ItemsOf(cells)), snap)
    ensures retval == BenchValue(run, cells[run.order[0]].info.data16)
  {
    hide FindRounds, Traceable, MayPrecede, EachOnce, Uncached, FindValue, CrcRepeat, CheckLength, Linked, Permuted,
      AllRestored, SortsByIdx, Pack, LowBits, Shows, Restorable, Backed;
    FirstIsHead(cells, res.list);
    var data, idx;
    ghost var f, before, mid, perm;
    list, retval, data, idx, f, before, mid := FirstHalf(res, finderIdx, data0, cells, snap);
    HeadIsCell(cells, before, list);
    retval, list, perm := SecondHalf(list, retval, data, idx, cells, snap, before, mid);
    BackInOrder(cells, snap, before, perm, list);
    DataAsBefore(cells, snap);
    run := BenchRun(f, before, Permuted(before, perm), mid, data);
  }

  // ----- data

  /** Restoring leaves data alone exactly when its low byte agrees with the backup. */
  lemma RestoreIsIdentity(d: Data16)
    ensures Restore(d) == d <==> Restored(d)
  {
  }

  /** So the items are as they were exactly when all data agreed with its backup. */
  lemma DataAsBefore(cells: seq<ListHead>, snap: seq<Entry>)
    requires AllRestored(cells, snap) && Traceable(cells, snap)
    ensures Shows(cells, snap) <==> Backed(snap)
  {
    hide Restore, Restored;
    forall i: nat | i < |snap| ensures Restore(snap[i].data16) == snap[i].data16 <==> Restored(snap[i].data16) {
      RestoreIsIdentity(snap[i].data16);
    }
    if Shows(cells, snap) {
      forall i | 0 <= i < |snap| ensures Restored(snap[i].data16) {
        assert cells[i].info.data16 == snap[i].data16;
      }
    } else {
      assert exists i {:trigger cells[i]} :: 0 <= i < |cells| && cells[i].info.data16 != snap[i].data16;
    }
  }
}
