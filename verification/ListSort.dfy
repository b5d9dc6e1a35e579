/** core_list_mergesort: the in-place, bottom-up merge sort of the linked list. */
module ListSort {
  import opened Bitwise
  import opened ListCells
  import opened ListOrder
  import opened ListCompare
  import opened ListMerge

  // ----- the middle loop: one pass over the list

  /** The cells are chained in this order from head to null. */
  ghost predicate Chained(cells: seq<ListHead>, order: seq<int>, head: ListHead?)
    reads cells`next
  {
    && Distinct(cells) && Distinct(order) && InRange(order, |cells|)
    && head == Nth(cells, order, 0) && Intact(cells, order, 0, |order|)
  }

  /** A pass under way: places ..s of order have been merged, in runs of w, into out. */
  datatype Pass = Pass(order: seq<int>, w: nat, s: nat, out: seq<int>, key: Keys, compares: nat)

  /** The order facts of a pass: what is left is made of runs of w, what is done of runs of 2 * w. */
  ghost predicate PassOrder(a: Pass, nmerges: nat) {
    && a.s <= |a.order| && a.w > 0
    && |a.out| == a.s && Within(a.out, a.order[..a.s])
    && Runs(a.order[a.s..], a.w, a.key) && Earlier(a.order[..a.s], a.order[a.s..])
    && Runs(a.out, 2 * a.w, a.key) && (a.s < |a.order| ==> Whole(a.out, 2 * a.w))
    && (nmerges == 0 <==> a.s == 0)
    && (nmerges == 1 ==> a.s == RunEnd(a.order, 0, 2 * a.w))
    && (nmerges >= 2 ==> a.s > 2 * a.w)
    && a.compares + nmerges <= a.s
  }

  lemma Slices(s: seq<int>, i: nat, j: nat)
    requires i <= j <= |s|
    ensures s[i..][..j - i] == s[i..j] && s[i..][j - i..] == s[j..]
  {
  }

  /** The two runs the next merge is about, in what is left of the list. */
  lemma NextRuns(order: seq<int>, s: nat, mid: nat, end: nat, w: nat, key: Keys)
    requires s < |order| && w > 0 && mid == RunEnd(order, s, w) && end == RunEnd(order, mid, w)
    requires Runs(order[s..], w, key)
    ensures Run(order[s..mid], key) && Run(order[mid..end], key)
    ensures Earlier(order[s..mid], order[mid..]) && Earlier(order[mid..end], order[end..])
    ensures Runs(order[end..], w, key)
  {
    hide Run, Runs, Earlier;
    NextRun(order, s, mid, w, key);
    NextRun(order, mid, end, w, key);
  }

  lemma NextRun(order: seq<int>, s: nat, mid: nat, w: nat, key: Keys)
    requires s <= |order| && w > 0 && mid == RunEnd(order, s, w) && Runs(order[s..], w, key)
    ensures Run(order[s..mid], key) && Earlier(order[s..mid], order[mid..]) && Runs(order[mid..], w, key)
  {
    hide Run, Runs, Earlier;
    FirstRun(order[s..], mid - s, w, key);
    Slices(order, s, mid);
  }

  lemma EarlierGrows(order: seq<int>, s: nat, mid: nat, end: nat)
    requires s <= mid <= end <= |order|
    requires Earlier(order[..s], order[s..]) && Earlier(order[s..mid], order[mid..])
    requires Earlier(order[mid..end], order[end..])
    ensures Earlier(order[..end], order[end..])
  {
    forall i, j | 0 <= i < end && 0 <= j < |order| - end ensures order[..end][i] < order[end..][j] {
      if i < s {
        assert order[..s][i] < order[s..][end + j - s];
      } else if i < mid {
        assert order[s..mid][i - s] < order[mid..][end + j - mid];
      } else {
        assert order[mid..end][i - mid] < order[end..][j];
      }
    }
  }

  lemma EarlierWithin(order: seq<int>, s: nat, end: nat, out: seq<int>, seg: seq<int>)
    requires s <= end <= |order| && Earlier(order[..s], order[s..])
    requires Within(out, order[..s]) && Within(seg, order[s..end])
    ensures Earlier(out, seg) && Within(out + seg, order[..end])
  {
    forall i, j | 0 <= i < |out| && 0 <= j < |seg| ensures out[i] < seg[j] {
      assert out[i] in order[..s] && seg[j] in order[s..end];
      var x :| 0 <= x < s && order[..s][x] == out[i];
      var y :| 0 <= y < end - s && order[s..end][y] == seg[j];
      assert order[..s][x] < order[s..][y];
    }
    forall k | 0 <= k < |out + seg| ensures (out + seg)[k] in order[..end] {
      if k < |out| {
        var x :| 0 <= x < s && order[..s][x] == out[k];
        assert order[..end][x] == out[k];
      } else {
        var y :| 0 <= y < end - s && order[s..end][y] == seg[k - |out|];
        assert order[..end][s + y] == seg[k - |out|];
      }
    }
  }

  /** One more merge keeps the order facts of the pass. */
  lemma PassAdvances(a: Pass, nmerges: nat, mid: nat, end: nat, seg: seq<int>, key: Keys, compares: nat)
    requires PassOrder(a, nmerges) && a.s < |a.order|
    requires mid == RunEnd(a.order, a.s, a.w) && end == RunEnd(a.order, mid, a.w)
    requires |seg| == end - a.s && Within(seg, a.order[a.s..end])
    requires Extends(a.key, key) && Run(seg, key) && compares < |seg|
    ensures PassOrder(a.(s := end, out := a.out + seg, key := key, compares := a.compares + compares), nmerges + 1)
  {
    hide Run, Runs, Earlier, Within, Extends, Whole;
    NextRuns(a.order, a.s, mid, end, a.w, a.key);
    RunsExtend(a.order[end..], a.w, a.key, key);
    EarlierGrows(a.order, a.s, mid, end);
    EarlierWithin(a.order, a.s, end, a.out, seg);
    RunsExtend(a.out, 2 * a.w, a.key, key);
    RunsAppend(a.out, seg, 2 * a.w, key);
  }

  ghost predicate PassInv(cmp: Comparator, res: CoreResults?, cells: seq<ListHead>, items: seq<ListData>, acct: Account,
                          a: Pass, nmerges: nat, p: ListHead?, list: ListHead?, tail: ListHead?)
    reads res, acct.items, items, cells
  {
    && PassOrder(a, nmerges)
    && Books(cmp, res, acct, items, a.key, cells)
    && Shape(cells, a.order, a.out, list, tail, null, p, a.s, a.s, a.s)
  }

  lemma PassParts(cmp: Comparator, res: CoreResults?, cells: seq<ListHead>, items: seq<ListData>, acct: Account,
                  a: Pass, nmerges: nat, p: ListHead?, list: ListHead?, tail: ListHead?)
    requires PassInv(cmp, res, cells, items, acct, a, nmerges, p, list, tail)
    ensures PassOrder(a, nmerges) && Books(cmp, res, acct, items, a.key, cells)
    ensures a.s <= |a.order| && a.w > 0 && InRange(a.order, |cells|) && Intact(cells, a.order, a.s, |a.order|)
    ensures p == Nth(cells, a.order, a.s) && (p != null <==> a.s < |a.order|)
    ensures Shape(cells, a.order, a.out, list, tail, null, p, a.s, a.s, a.s)
  {
  }

  lemma ShapeOpens(cells: seq<ListHead>, order: seq<int>, out: seq<int>, list: ListHead?, tail: ListHead?,
                   p: ListHead?, q: ListHead?, s: nat, mid: nat)
    requires Shape(cells, order, out, list, tail, null, p, s, s, s)
    requires s < mid <= |order| && q == Nth(cells, order, mid)
    ensures Shape(cells, order, out, list, tail, p, q, s, mid, mid)
  {
  }

  /** A merge of two runs begins with both whole and nothing put out. */
  lemma ProgressBegins(P: seq<int>, Q: seq<int>, key: Keys)
    requires Run(P, key) && Run(Q, key) && Earlier(P, Q) && P != []
    ensures Progress([], P, Q, P, Q, key)
  {
    hide Run, Earlier, Merging;
    assert [] + P == P;
  }

  lemma RunsLeft(a: Pass, nmerges: nat)
    requires PassOrder(a, nmerges)
    ensures a.w > 0 && a.s <= |a.order| && Runs(a.order[a.s..], a.w, a.key)
  {
    hide Runs, Earlier, Within, Whole, RunEnd;
  }

  lemma RunGrows(order: seq<int>, s: nat, w: nat)
    requires w > 0 && s < |order|
    ensures RunEnd(order, s, w) > s
  {
  }

  lemma ProgressOpens(a: Pass, nmerges: nat, mid: nat, end: nat)
    requires PassOrder(a, nmerges) && a.s < |a.order|
    requires mid == RunEnd(a.order, a.s, a.w) && end == RunEnd(a.order, mid, a.w)
    ensures Progress([], a.order[a.s..mid], a.order[mid..end], a.order[a.s..mid], a.order[mid..end], a.key)
  {
    hide Runs, Run, Earlier, PassOrder, RunEnd, Progress;
    RunsLeft(a, nmerges);
    RunGrows(a.order, a.s, a.w);
    NextRuns(a.order, a.s, mid, end, a.w, a.key);
    EarlierPrefix(a.order[a.s..mid], a.order[mid..], end - mid);
    Slices(a.order, mid, end);
    ProgressBegins(a.order[a.s..mid], a.order[mid..end], a.key);
  }

  /** Opening the merge at place s, once q is found. */
  lemma MergeEntry(cmp: Comparator, res: CoreResults?, cells: seq<ListHead>, items: seq<ListData>, acct: Account,
                   a: Pass, nmerges: nat, p: ListHead, psize: nat, q: ListHead?, list: ListHead?, tail: ListHead?)
    requires PassInv(cmp, res, cells, items, acct, a, nmerges, p, list, tail) && a.s < |a.order| && a.w > 0
    requires a.s + psize == RunEnd(a.order, a.s, a.w) && q == Nth(cells, a.order, a.s + psize)
    ensures MergeInv(cmp, res, cells, items, acct, MergeAt(a, psize), a.w, p, psize, q, a.w, list, tail)
  {
    hide Shape, Books, PassOrder, Progress;
    var m := MergeAt(a, psize);
    ShapeOpens(cells, a.order, a.out, list, tail, p, q, a.s, m.mid);
    ProgressOpens(a, nmerges, m.mid, m.end);
    assert m.out0 + m.seg == a.out;
  }

  lemma EarlierPrefix(s: seq<int>, t: seq<int>, k: nat)
    requires Earlier(s, t) && k <= |t|
    ensures Earlier(s, t[..k])
  {
  }

  ghost function MergeAt(a: Pass, psize: nat): Merge
    requires a.s + psize <= |a.order|
  {
    var mid := a.s + psize;
    Merge(a.order, a.s, mid, RunEnd(a.order, mid, a.w), a.out, a.s, mid, [], a.key, 0)
  }

  /** One round of the middle loop. */
  method PassStep(cmp: Comparator, res: CoreResults?, insize: nat, p: ListHead, list: ListHead?, tail: ListHead?,
                  nmerges: nat, ghost cells: seq<ListHead>, ghost items: seq<ListData>, ghost acct: Account,
                  ghost a: Pass, ghost tally: Tally)
    returns (p': ListHead?, list': ListHead?, tail': ListHead?, nmerges': nat, ghost a': Pass)
    requires PassInv(cmp, res, cells, items, acct, a, nmerges, p, list, tail) && insize == a.w
    modifies cells`next, acct.items`data16, res, tally
    ensures PassInv(cmp, res, cells, items, acct, a', nmerges', p', list', tail')
    ensures tally.calls == old(tally.calls) + a'.compares - a.compares
    ensures a'.order == a.order && a'.w == a.w && a.s < a'.s && nmerges' == nmerges + 1
  {
    hide PassInv, MergeInv, Shape, Books, PassOrder, Run, Within, Extends;
    PassParts(cmp, res, cells, items, acct, a, nmerges, p, list, tail);
    nmerges' := nmerges + 1;
    var q, psize := StepAlong(p, insize, cells, a.order, a.s);
    MergeEntry(cmp, res, cells, items, acct, a, nmerges, p, psize, q, list, tail);
    ghost var m;
    p', list', tail', m :=
      MergeRuns(cmp, res, insize, p, psize, q, list, tail, cells, items, acct, MergeAt(a, psize), tally);
    PassAdvances(a, nmerges, a.s + psize, m.end, m.seg, m.key, m.compares);
    a' := a.(s := m.end, out := a.out + m.seg, key := m.key, compares := a.compares + m.compares);
    PassFrom(cmp, res, cells, items, acct, a', nmerges', p', list', tail');
  }

  lemma PassFrom(cmp: Comparator, res: CoreResults?, cells: seq<ListHead>, items: seq<ListData>, acct: Account,
                 a: Pass, nmerges: nat, p: ListHead?, list: ListHead?, tail: ListHead?)
    requires PassOrder(a, nmerges) && Books(cmp, res, acct, items, a.key, cells)
    requires a.s <= |a.order| && Shape(cells, a.order, a.out, list, tail, null, p, a.s, a.s, a.s)
    ensures PassInv(cmp, res, cells, items, acct, a, nmerges, p, list, tail)
  {
  }

  lemma PassEntry(cmp: Comparator, res: CoreResults?, cells: seq<ListHead>, items: seq<ListData>, acct: Account,
                  order: seq<int>, w: nat, key: Keys, p: ListHead?)
    requires w > 0 && Chained(cells, order, p) && Books(cmp, res, acct, items, key, cells) && Runs(order, w, key)
    ensures PassInv(cmp, res, cells, items, acct, Pass(order, w, 0, [], key, 0), 0, p, null, null)
  {
    hide Runs, Books;
    assert order[0..] == order;
    assert Runs([], 2 * w, key) by { EmptyRuns(2 * w, key); }
  }

  lemma EmptyRuns(w: nat, key: Keys)
    requires w > 0
    ensures Runs([], w, key)
  {
  }

  lemma PassExit(cmp: Comparator, res: CoreResults?, cells: seq<ListHead>, items: seq<ListData>, acct: Account,
                 a: Pass, nmerges: nat, list: ListHead?, tail: ListHead?)
    requires PassInv(cmp, res, cells, items, acct, a, nmerges, null, list, tail) && a.order != []
    ensures |a.out| == |a.order| && Distinct(cells) && InRange(a.out, |cells|) && Built(cells, a.out, list, tail)
    ensures Runs(a.out, 2 * a.w, a.key) && (nmerges <= 1 <==> |a.order| <= 2 * a.w)
    ensures a.compares < |a.order| && Books(cmp, res, acct, items, a.key, cells)
  {
    hide Runs, Books, Whole, Within;
    assert a.s == |a.order|;
  }

  /** All of the merged chain but the link out of its last cell. */
  ghost predicate ChainedUpTo(cells: seq<ListHead>, out: seq<int>, list: ListHead?, tail: ListHead?)
    reads set c | c in cells && c != tail
  {
    && Distinct(cells) && InRange(out, |cells|) && Distinct(out) && out != []
    && list == cells[out[0]] && tail == cells[out[|out| - 1]]
    && forall k {:trigger cells[out[k]].next} :: 0 <= k < |out| - 1 ==>
      cells[out[k]] != tail && cells[out[k]].next == cells[out[k + 1]]
  }

  lemma TailIsLast(cells: seq<ListHead>, out: seq<int>, list: ListHead?, tail: ListHead?)
    requires Distinct(cells) && InRange(out, |cells|) && Built(cells, out, list, tail) && out != []
    ensures tail != null && tail in cells && ChainedUpTo(cells, out, list, tail)
  {
  }

  lemma ChainEnds(cells: seq<ListHead>, out: seq<int>, list: ListHead?, tail: ListHead)
    requires ChainedUpTo(cells, out, list, tail) && tail.next == null
    ensures Chained(cells, out, list)
  {
  }

  /** The middle loop: merging the runs of insize pairwise. */
  method MergePass(cmp: Comparator, res: CoreResults?, list0: ListHead, insize: nat, ghost cells: seq<ListHead>,
                   ghost items: seq<ListData>, ghost acct: Account, ghost order: seq<int>, ghost key: Keys,
                   ghost tally: Tally)
    returns (list: ListHead?, nmerges: nat, ghost out: seq<int>, ghost key': Keys)
    requires insize > 0 && order != [] && Runs(order, insize, key)
    requires Chained(cells, order, list0) && Books(cmp, res, acct, items, key, cells)
    modifies cells`next, acct.items`data16, res, tally
    ensures Chained(cells, out, list) && Books(cmp, res, acct, items, key', cells)
    ensures |out| == |order| && Runs(out, 2 * insize, key')
    ensures nmerges <= 1 <==> |order| <= 2 * insize
    ensures old(tally.calls) <= tally.calls < old(tally.calls) + |order|
  {
    hide PassInv, Chained, ChainedUpTo, Books, Runs, Built;
    var p: ListHead?, tail: ListHead? := list0, null;
    list, nmerges := null, 0;
    ghost var a := Pass(order, insize, 0, [], key, 0);
    PassEntry(cmp, res, cells, items, acct, order, insize, key, p);
    while p != null
      invariant PassInv(cmp, res, cells, items, acct, a, nmerges, p, list, tail)
      invariant a.order == order && a.w == insize && a.s <= |order| && tally.calls == old(tally.calls) + a.compares
      decreases |order| - a.s
    {
      p, list, tail, nmerges, a := PassStep(cmp, res, insize, p, list, tail, nmerges, cells, items, acct, a, tally);
      PassParts(cmp, res, cells, items, acct, a, nmerges, p, list, tail);
    }
    PassExit(cmp, res, cells, items, acct, a, nmerges, list, tail);
    out, key' := a.out, a.key;
    TailIsLast(cells, out, list, tail);
    tail.next := null;
    ChainEnds(cells, out, list, tail);
  }

  // ----- the outer loop, and the sort as a whole

  ghost function CeilLog2(n: nat): nat {
    if n <= 1 then 0 else 1 + CeilLog2((n + 1) / 2)
  }

  lemma {:induction false} LogOfDoubling(k: nat, n: nat)
    requires Pow2(k) < n <= Pow2(k + 1)
    ensures CeilLog2(n) == k + 1
    decreases k
  {
    if k > 0 {
      LogOfDoubling(k - 1, (n + 1) / 2);
    }
  }

  /** perm lists each of the n positions once. */
  ghost predicate IsPermutation(perm: seq<int>, n: nat) {
    |perm| == n && InRange(perm, n) && Distinct(perm)
  }

  /** The elements of s in the order of perm. */
  ghost function Permuted<T>(s: seq<T>, perm: seq<int>): (r: seq<T>)
    requires InRange(perm, |s|)
    ensures |r| == |perm|
  {
    seq(|perm|, i requires 0 <= i < |perm| => s[perm[i]])
  }

  /** Keys ascend along the list, and cells with equal keys are in the order they came in. */
  ghost predicate SortedStable(cmp: Comparator, cells: seq<ListHead>, perm: seq<int>)
    requires InRange(perm, |cells|)
    reads cells`info, Infos(cells)
  {
    forall i, j {:trigger perm[i], perm[j]} :: 0 <= i < j < |perm| ==>
      var a, b := KeyOf(cmp, cells[perm[i]].info), KeyOf(cmp, cells[perm[j]].info);
      a < b || (a == b && perm[i] < perm[j])
  }

  /** Every item is settled: cached after a sort by value, restored after a sort by idx with regeneration. */
  ghost predicate AllSettled(cmp: Comparator, regen: bool, cells: seq<ListHead>)
    reads cells`info, Infos(cells)
  {
    forall c {:trigger c.info} :: c in cells ==> Settled(cmp, regen, c.info.data16)
  }

  ghost function Range(n: nat): (r: set<int>)
    ensures |r| == n && forall x :: x in r <==> 0 <= x < n
  {
    if n == 0 then {} else Range(n - 1) + {n - 1}
  }

  ghost function Elements(s: seq<int>): (r: set<int>)
    ensures forall x :: x in r <==> x in s
    ensures Distinct(s) ==> |r| == |s|
  {
    if s == [] then {} else
      assert forall x :: x in s <==> x in s[..|s| - 1] || x == s[|s| - 1];
      Elements(s[..|s| - 1]) + {s[|s| - 1]}
  }

  lemma SubsetOfSameSize<T>(a: set<T>, b: set<T>)
    requires a <= b && |a| == |b|
    ensures a == b
  {
    assert b == a + (b - a);
  }

  lemma AllPositions(perm: seq<int>, n: nat)
    requires IsPermutation(perm, n)
    ensures forall x :: 0 <= x < n ==> x in perm
  {
    SubsetOfSameSize(Elements(perm), Range(n));
    assert forall x :: 0 <= x < n ==> x in Elements(perm);
  }

  lemma ChainedIsLinked(cells: seq<ListHead>, order: seq<int>, head: ListHead?)
    requires Chained(cells, order, head)
    ensures Linked(head, Permuted(cells, order))
  {
    var r := Permuted(cells, order);
    forall i {:trigger r[i].next} | 0 <= i < |r| ensures r[i].next == At(r, i + 1) {
      assert cells[order[i]].next == Nth(cells, order, i + 1);
    }
  }

  lemma SortedByKeys(cmp: Comparator, res: CoreResults?, cells: seq<ListHead>, items: seq<ListData>, acct: Account,
                     perm: seq<int>, w: nat, key: Keys)
    requires IsPermutation(perm, |cells|) && |perm| <= w && w > 0 && Runs(perm, w, key)
    requires Books(cmp, res, acct, items, key, cells)
    ensures SortedStable(cmp, cells, perm)
    ensures |cells| >= 2 ==> AllSettled(cmp, res == null, cells)
  {
    if |cells| >= 2 {
      assert Sorted(perm, key);
      forall i, j {:trigger perm[i], perm[j]} | 0 <= i < j < |perm|
        ensures var a, b := KeyOf(cmp, cells[perm[i]].info), KeyOf(cmp, cells[perm[j]].info);
          a < b || (a == b && perm[i] < perm[j])
      {
        assert Before(perm[i], perm[j], key);
      }
      AllPositions(perm, |cells|);
      forall c {:trigger c.info} | c in cells ensures Settled(cmp, res == null, c.info.data16) {
        var x :| 0 <= x < |cells| && cells[x] == c;
        assert x in perm;
        var i :| 0 <= i < |perm| && perm[i] == x;
        assert perm[i] in key;
      }
    }
  }

  /** The account a sort starts with. */
  ghost function OpenAccount(res: CoreResults?, cells: seq<ListHead>): Account
    reads res, cells`info, Infos(cells)
  {
    var items := Infos(cells);
    Account(if res == null then 0 else |res.evals|, if res == null then Totals(Zero(), 0, 0) else TotalsOf(res),
            items, map d | d in items :: d.data16, set d | d in items && !d.data16.cached)
  }

  ghost function ItemsOf(cells: seq<ListHead>): (items: seq<ListData>)
    reads cells`info
    ensures |items| == |cells| && forall i {:trigger cells[i]} :: 0 <= i < |cells| ==> items[i] == cells[i].info
  {
    if cells == [] then [] else ItemsOf(cells[..|cells| - 1]) + [cells[|cells| - 1].info]
  }

  ghost function Identity(n: nat): seq<int> {
    seq(n, i => i)
  }

  lemma AccountStarts(res: CoreResults, cells: seq<ListHead>)
    ensures Accounted(res, OpenAccount(res, cells))
  {
    hide Infos, LowsKept, BackedUp;
    assert res.evals[|res.evals|..] == [];
    LowsOpen(res, cells);
    BackupsOpen(res, cells);
    TotalledNothing(TotalsOf(res));
  }

  lemma LowsOpen(res: CoreResults?, cells: seq<ListHead>)
    ensures LowsKept(OpenAccount(res, cells), Results([]).Keys)
  {
    hide Infos;
  }

  lemma BooksOpen(cmp: Comparator, res: CoreResults?, cells: seq<ListHead>)
    requires cmp == CmpComplex ==> res != null
    ensures Books(cmp, res, OpenAccount(res, cells), ItemsOf(cells), map[], cells)
  {
    hide Accounted, BackedUp, ItemsOf, OpenAccount, Infos, Keyed;
    var acct, items := OpenAccount(res, cells), ItemsOf(cells);
    if res != null { AccountStarts(res, cells); }
    BackupsOpen(res, cells);
    ItemsInAccount(res, cells);
    NothingKeyed(cmp, res == null, items);
    forall i {:trigger items[i]} | 0 <= i < |items| ensures items[i] in acct.items {
      assert cells[i].info == items[i];
    }
  }

  lemma NothingKeyed(cmp: Comparator, regen: bool, items: seq<ListData>)
    ensures Keyed(cmp, regen, items, map[])
  {
  }

  lemma BackupsOpen(res: CoreResults?, cells: seq<ListHead>)
    ensures BackedUp(OpenAccount(res, cells))
  {
    hide Infos;
    assert OpenAccount(res, cells).data.Keys == Infos(cells);
  }

  lemma ItemsInAccount(res: CoreResults?, cells: seq<ListHead>)
    ensures OpenAccount(res, cells).items == Infos(cells)
    ensures forall i {:trigger cells[i]} :: 0 <= i < |cells| ==> cells[i].info in Infos(cells)
  {
    forall i | 0 <= i < |cells| ensures cells[i].info in Infos(cells) {
      assert cells[i] in cells;
    }
  }

  lemma ChainOpens(list: ListHead?, cells: seq<ListHead>)
    requires Linked(list, cells)
    ensures Chained(cells, Identity(|cells|), list)
    ensures |Identity(|cells|)| == |cells| && (list != null ==> |cells| > 0)
  {
    var order := Identity(|cells|);
    forall k | 0 <= k < |order| ensures cells[order[k]].next == Nth(cells, order, k + 1) {
      assert cells[k].next == At(cells, k + 1);
    }
  }

  lemma SortEntry(cmp: Comparator, res: CoreResults?, list: ListHead?, cells: seq<ListHead>)
    requires Linked(list, cells) && (cmp == CmpComplex ==> res != null)
    ensures Books(cmp, res, OpenAccount(res, cells), ItemsOf(cells), map[], cells)
    ensures Chained(cells, Identity(|cells|), list)
    ensures Runs(Identity(|cells|), 1, map[])
    ensures OpenAccount(res, cells).items == Infos(cells)
    ensures |Identity(|cells|)| == |cells| && (list != null ==> |cells| > 0)
  {
    hide Books, Chained, Runs, Linked, Infos, OpenAccount;
    ItemsInAccount(res, cells);
    ChainOpens(list, cells);
    BooksOpen(cmp, res, cells);
    SingletonRuns(Identity(|cells|), map[]);
  }

  lemma ChainHead(cells: seq<ListHead>, order: seq<int>, head: ListHead?)
    requires Chained(cells, order, head)
    ensures head != null <==> order != []
  {
  }

  lemma SortExit(cmp: Comparator, res: CoreResults?, cells: seq<ListHead>, items: seq<ListData>, acct: Account,
                 perm: seq<int>, list: ListHead?, insize: nat, key: Keys, k: nat)
    requires Chained(cells, perm, list) && Books(cmp, res, acct, items, key, cells)
    requires insize > 0 && |perm| == |cells| <= 2 * insize && Runs(perm, 2 * insize, key)
    requires insize == Pow2(k) && (k == 0 || insize < |cells|)
    ensures IsPermutation(perm, |cells|) && Linked(list, Permuted(cells, perm))
    ensures SortedStable(cmp, cells, perm)
    ensures |cells| >= 2 ==> AllSettled(cmp, res == null, cells) && CeilLog2(|cells|) == k + 1
    ensures BackedUp(acct) && (cmp == CmpComplex ==> res != null && Accounted(res, acct))
  {
    ChainIsPermutation(cells, perm, list);
    ChainedIsLinked(cells, perm, list);
    SortedByKeys(cmp, res, cells, items, acct, perm, 2 * insize, key);
    if |cells| >= 2 {
      LogOfDoubling(k, |cells|);
    }
  }

  /** A chain through as many distinct cells as there are is a rearrangement of them. */
  lemma ChainIsPermutation(cells: seq<ListHead>, order: seq<int>, head: ListHead?)
    requires Chained(cells, order, head) && |order| == |cells|
    ensures IsPermutation(order, |cells|)
  {
  }

  /** The most comparisons that k passes over n cells can make. */
  ghost function MostCompares(k: nat, n: nat): nat {
    if n == 0 then 0 else k * (n - 1)
  }

  lemma PassBound(k: nat, n: nat, compares: nat, more: nat)
    requires compares <= MostCompares(k, n) && more < n
    ensures compares + more <= MostCompares(k + 1, n)
  {
    assert (k + 1) * (n - 1) == k * (n - 1) + (n - 1);
  }

  lemma SortBound(k: nat, n: nat, compares: nat)
    requires compares <= MostCompares(k, n) && (n >= 2 ==> CeilLog2(n) == k)
    ensures compares <= n * CeilLog2(n)
  {
    if n >= 2 {
      assert n * k == k * (n - 1) + k;
    } else {
      assert n == 1 ==> k * (n - 1) == 0;
    }
  }

  lemma Doubled(k: nat)
    ensures Pow2(0) == 1 && Pow2(k + 1) == Pow2(k) * 2
  {
  }

  /** core_list_mergesort on a non-empty list. The result chains exactly the given cells, carrying the
      items they carried, by ascending key, cells of equal key in the order they came in; with two or
      more cells every item ends up settled. No backup byte changes, and sorting by value evaluates
      each uncached item exactly once. The comparator is called at most n * ceil(log2 n) times. */
  method MergeSort(list0: ListHead, cmp: Comparator, res: CoreResults?, ghost cells: seq<ListHead>, ghost tally: Tally)
    returns (list: ListHead?, ghost perm: seq<int>)
    requires Linked(list0, cells) && (cmp == CmpComplex ==> res != null)
    modifies cells`next, Infos(cells)`data16, res, tally
    ensures IsPermutation(perm, |cells|) && Linked(list, Permuted(cells, perm))
    ensures SortedStable(cmp, cells, perm)
    ensures |cells| >= 2 ==> AllSettled(cmp, res == null, cells)
    ensures BackedUp(old(OpenAccount(res, cells)))
    ensures cmp == CmpComplex ==> res != null && Accounted(res, old(OpenAccount(res, cells)))
    ensures tally.calls <= old(tally.calls) + |cells| * CeilLog2(|cells|)
  {
    hide Chained, Books, Runs, Linked, OpenAccount, Infos, IsPermutation, Permuted, SortedStable, AllSettled, BackedUp,
      Accounted, CeilLog2, Pow2, MostCompares;
    list := list0;
    Doubled(0);
    var insize := 1;
    ghost var acct, items, key := OpenAccount(res, cells), ItemsOf(cells), map[];
    ghost var k := 0;
    SortEntry(cmp, res, list0, cells);
    perm := Identity(|cells|);
    while true
      invariant Chained(cells, perm, list) && Books(cmp, res, acct, items, key, cells)
      invariant list != null && |perm| == |cells| > 0 && insize > 0 && Runs(perm, insize, key)
      invariant insize == Pow2(k) && (k == 0 || insize < |cells|)
      invariant old(tally.calls) <= tally.calls <= old(tally.calls) + MostCompares(k, |cells|)
      decreases |cells| - insize
    {
      var nmerges;
      ghost var before := tally.calls;
      list, nmerges, perm, key := MergePass(cmp, res, list, insize, cells, items, acct, perm, key, tally);
      PassBound(k, |cells|, before - old(tally.calls), tally.calls - before);
      if nmerges <= 1 {
        SortExit(cmp, res, cells, items, acct, perm, list, insize, key, k);
        SortBound(k + 1, |cells|, tally.calls - old(tally.calls));
        return;
      }
      ChainHead(cells, perm, list);
      Doubled(k);
      insize := insize * 2;
      k := k + 1;
    }
  }
}
