/** The inner loop of core_list_mergesort: merging two runs of the list in place. Throughout, cells is
    the list as it was given, and sequences of positions in it say in what order cells are chained. */
module ListMerge {
  import opened ListCells
  import opened ListOrder
  import opened ListCompare

  // ----- what the sort keeps about data, keys and the account

  ghost predicate Books(cmp: Comparator, res: CoreResults?, acct: Account, items: seq<ListData>, key: Keys,
                        cells: seq<ListHead>)
    reads res, acct.items, items, cells`info
  {
    && (cmp == CmpComplex ==> res != null && Accounted(res, acct))
    && Keyed(cmp, res == null, items, key)
    && BackedUp(acct)
    && |items| == |cells|
    && (forall i {:trigger cells[i]} :: 0 <= i < |cells| ==> cells[i].info == items[i])
    && forall i {:trigger items[i]} :: 0 <= i < |items| ==> items[i] in acct.items
  }

  // ----- the list while it is taken apart and rebuilt

  ghost predicate InRange(s: seq<int>, n: nat) {
    forall k :: 0 <= k < |s| ==> 0 <= s[k] < n
  }

  ghost predicate Within(s: seq<int>, t: seq<int>) {
    forall k :: 0 <= k < |s| ==> s[k] in t
  }

  /** The k-th cell in the given order, or null past the end. */
  ghost function Nth(cells: seq<ListHead>, order: seq<int>, k: nat): ListHead? {
    if k < |order| && 0 <= order[k] < |cells| then cells[order[k]] else null
  }

  /** The links out of places lo..hi still follow the order. */
  ghost predicate Intact(cells: seq<ListHead>, order: seq<int>, lo: nat, hi: nat)
    requires InRange(order, |cells|)
    reads cells`next
  {
    forall k {:trigger cells[order[k]].next} :: lo <= k < hi && k < |order| ==>
      cells[order[k]].next == Nth(cells, order, k + 1)
  }

  /** list and tail are the two ends of the chain built so far; the link out of tail is still open. */
  ghost predicate Built(cells: seq<ListHead>, out: seq<int>, list: ListHead?, tail: ListHead?)
    requires InRange(out, |cells|)
    reads cells`next
  {
    && Distinct(out)
    && (out == [] ==> tail == null)
    && (out != [] ==> list == cells[out[0]] && tail == cells[out[|out| - 1]])
    && forall k {:trigger cells[out[k]].next} :: 0 <= k < |out| - 1 ==> cells[out[k]].next == cells[out[k + 1]]
  }

  /** Nothing at places lo..hi has been put out yet. */
  ghost predicate Pending(order: seq<int>, lo: nat, hi: nat, out: seq<int>) {
    forall k {:trigger order[k]} :: lo <= k < hi && k < |order| ==> order[k] !in out
  }

  /** In the middle of a merge: out is built; places lo..mid are left of the first run, starting
      at p, and everything from place rest on is untouched, starting at q. */
  ghost predicate Shape(cells: seq<ListHead>, order: seq<int>, out: seq<int>, list: ListHead?, tail: ListHead?,
                        p: ListHead?, q: ListHead?, lo: nat, mid: nat, rest: nat)
    reads cells`next
  {
    && lo <= mid <= rest <= |order| && Distinct(cells) && Distinct(order)
    && InRange(order, |cells|) && InRange(out, |cells|)
    && (lo < mid ==> p == cells[order[lo]]) && q == Nth(cells, order, rest)
    && Intact(cells, order, lo, mid) && Intact(cells, order, rest, |order|)
    && Pending(order, lo, mid, out) && Pending(order, rest, |order|, out)
    && Built(cells, out, list, tail)
    && |out| == lo + rest - mid
  }

  lemma ShapeEnds(cells: seq<ListHead>, order: seq<int>, out: seq<int>, list: ListHead?, tail: ListHead?,
                  p: ListHead?, q: ListHead?, lo: nat, mid: nat, rest: nat)
    requires Shape(cells, order, out, list, tail, p, q, lo, mid, rest)
    ensures lo <= mid <= rest <= |order| && |out| == lo + rest - mid && InRange(order, |cells|)
    ensures lo < mid ==> p == cells[order[lo]]
    ensures if rest < |order| then q == cells[order[rest]] else q == null
    ensures lo == mid ==> Shape(cells, order, out, list, tail, null, q, rest, rest, rest)
  {
  }

  /** The steps that hang the cell e onto the merged list. */
  method Append(list: ListHead?, tail: ListHead?, e: ListHead, ghost cells: seq<ListHead>, ghost out: seq<int>,
                ghost x: int)
    returns (list': ListHead?, tail': ListHead?)
    requires Distinct(cells) && InRange(out, |cells|) && Built(cells, out, list, tail)
    requires 0 <= x < |cells| && e == cells[x] && x !in out
    modifies (if tail == null then {} else {tail})`next
    ensures Built(cells, out + [x], list', tail')
  {
    list' := list;
    if tail != null {
      tail.next := e;
    } else {
      list' := e;
    }
    tail' := e;
  }

  /** The next element of the merge comes from p. */
  method TakeP(ghost cells: seq<ListHead>, ghost order: seq<int>, ghost out: seq<int>, list: ListHead?, tail: ListHead?,
               p: ListHead, ghost q: ListHead?, ghost lo: nat, ghost mid: nat, ghost rest: nat)
    returns (p': ListHead?, list': ListHead?, tail': ListHead?)
    requires Shape(cells, order, out, list, tail, p, q, lo, mid, rest) && lo < mid
    modifies cells`next
    ensures Shape(cells, order, out + [order[lo]], list', tail', p', q, lo + 1, mid, rest)
  {
    var e := p;
    p' := p.next;
    list', tail' := Append(list, tail, e, cells, out, order[lo]);
  }

  /** The next element of the merge comes from q. */
  method TakeQ(ghost cells: seq<ListHead>, ghost order: seq<int>, ghost out: seq<int>, list: ListHead?, tail: ListHead?,
               ghost p: ListHead?, q: ListHead, ghost lo: nat, ghost mid: nat, ghost rest: nat)
    returns (q': ListHead?, list': ListHead?, tail': ListHead?)
    requires Shape(cells, order, out, list, tail, p, q, lo, mid, rest) && rest < |order|
    modifies cells`next
    ensures Shape(cells, order, out + [order[rest]], list', tail', p, q', lo, mid, rest + 1)
  {
    var e := q;
    q' := q.next;
    list', tail' := Append(list, tail, e, cells, out, order[rest]);
  }

  /** Stepping insize places along from p. */
  method StepAlong(p: ListHead, insize: nat, ghost cells: seq<ListHead>, ghost order: seq<int>, ghost s: nat)
    returns (q: ListHead?, psize: nat)
    requires insize > 0 && s < |order| && InRange(order, |cells|)
    requires p == cells[order[s]] && Intact(cells, order, s, |order|)
    ensures psize == if s + insize <= |order| then insize else |order| - s
    ensures q == Nth(cells, order, s + psize)
  {
    q := p;
    psize := 0;
    for i := 0 to insize
      invariant i == psize && s + psize < |order|
      invariant q == cells[order[s + psize]]
    {
      psize := psize + 1;
      q := q.next;
      assert q == Nth(cells, order, s + psize);
      if q == null {
        assert s + psize == |order|;
        break;
      }
      assert s + psize < |order|;
    }
  }

  // ----- the inner loop: one merge

  /** One comparison keeps the books. */
  method CompareCells(cmp: Comparator, res: CoreResults?, p: ListHead, q: ListHead, ghost cells: seq<ListHead>,
                      ghost items: seq<ListData>, ghost acct: Account, ghost x: nat, ghost y: nat, ghost key: Keys,
                      ghost tally: Tally)
    returns (r: int, ghost key': Keys)
    requires Books(cmp, res, acct, items, key, cells)
    requires x < |cells| && y < |cells| && p == cells[x] && q == cells[y]
    modifies acct.items`data16, res, tally
    ensures tally.calls == old(tally.calls) + 1
    ensures Books(cmp, res, acct, items, key', cells) && Extends(key, key')
    ensures x in key' && y in key' && r == key'[x] - key'[y]
  {
    hide Keyed, Accounted;
    r, key' := Compare(cmp, p.info, q.info, res, acct, items, x, y, key, tally);
    assert BackedUp(acct);
    forall i {:trigger cells[i]} | 0 <= i < |cells| ensures cells[i].info == items[i] {
      assert cells[i].info == old(cells[i].info);
    }
    hide BackedUp;
  }

  /** Choosing where the next element of the merge comes from: pr and qr are what is left of the runs
      P and Q, seg is what they have put out. Either choice keeps the order the merge needs. */
  method ChooseNext(cmp: Comparator, res: CoreResults?, p: ListHead?, psize: nat, q: ListHead?, qsize: nat,
                    ghost cells: seq<ListHead>, ghost items: seq<ListData>, ghost acct: Account, ghost seg: seq<int>,
                    ghost pr: seq<int>, ghost qr: seq<int>, ghost P: seq<int>, ghost Q: seq<int>, ghost key: Keys,
                    ghost tally: Tally)
    returns (fromP: bool, ghost key': Keys)
    requires Books(cmp, res, acct, items, key, cells) && Progress(seg, pr, qr, P, Q, key)
    requires InRange(pr, |cells|) && InRange(qr, |cells|) && (pr != [] || qr != [])
    requires psize == |pr| && (pr != [] ==> p == cells[pr[0]])
    requires (qsize == 0 || q == null <==> qr == []) && (qr != [] ==> q == cells[qr[0]])
    modifies acct.items`data16, res, tally
    ensures tally.calls == old(tally.calls) + if pr != [] && qr != [] then 1 else 0
    ensures Books(cmp, res, acct, items, key', cells) && Extends(key, key')
    ensures if fromP then pr != [] && Progress(seg + [pr[0]], pr[1..], qr, P, Q, key')
            else qr != [] && Progress(seg + [qr[0]], pr, qr[1..], P, Q, key')
  {
    hide Progress, Books, Extends;
    key' := key;
    ExtendsTransitive(key, key, key);
    if psize == 0 {
      fromP := false;
    } else if qsize == 0 || q == null {
      fromP := true;
    } else {
      var r;
      r, key' := CompareCells(cmp, res, p, q, cells, items, acct, pr[0], qr[0], key, tally);
      fromP := r <= 0;
    }
    if fromP {
      StepLeft(seg, pr, qr, P, Q, key, key');
    } else {
      StepRight(seg, pr, qr, P, Q, key, key');
    }
  }

  /** Where a run of up to w places starting at mid ends. */
  ghost function RunEnd(order: seq<int>, mid: nat, w: nat): (end: nat)
    requires mid <= |order|
    ensures mid <= end <= |order| && end - mid <= w
  {
    if mid + w <= |order| then mid + w else |order|
  }

  /** A merge under way: the runs at places s..mid and mid..end of order, of which places lo..mid and
      rest..end are left; out0 was merged before, seg is what this merge has put out. */
  datatype Merge = Merge(order: seq<int>, s: nat, mid: nat, end: nat, out0: seq<int>,
                         lo: nat, rest: nat, seg: seq<int>, key: Keys, compares: nat)

  ghost predicate MergeInv(cmp: Comparator, res: CoreResults?, cells: seq<ListHead>, items: seq<ListData>,
                           acct: Account, m: Merge, insize: nat, p: ListHead?, psize: nat, q: ListHead?, qsize: nat,
                           list: ListHead?, tail: ListHead?)
    reads res, acct.items, items, cells
  {
    && m.s <= m.lo <= m.mid <= m.rest <= m.end <= |m.order|
    && m.s < m.mid && m.end == RunEnd(m.order, m.mid, insize)
    && psize == m.mid - m.lo && qsize == insize - (m.rest - m.mid)
    && Books(cmp, res, acct, items, m.key, cells)
    && Shape(cells, m.order, m.out0 + m.seg, list, tail, p, q, m.lo, m.mid, m.rest)
    && |m.seg| == m.lo - m.s + m.rest - m.mid && Within(m.seg, m.order[m.s..m.end])
    && Progress(m.seg, m.order[m.lo..m.mid], m.order[m.rest..m.end], m.order[m.s..m.mid], m.order[m.mid..m.end], m.key)
    && m.compares <= |m.seg| && (m.lo == m.mid && m.rest == m.end ==> m.compares < |m.seg|)
  }

  lemma AdvanceP(cmp: Comparator, res: CoreResults?, cells: seq<ListHead>, items: seq<ListData>, acct: Account,
                 m: Merge, insize: nat, p: ListHead?, psize: nat, q: ListHead?, qsize: nat, list: ListHead?,
                 tail: ListHead?, key: Keys, compared: nat)
    requires m.s <= m.lo < m.mid <= m.rest <= m.end <= |m.order| && m.end == RunEnd(m.order, m.mid, insize)
    requires psize == m.mid - m.lo - 1 && qsize == insize - (m.rest - m.mid)
    requires |m.seg| == m.lo - m.s + m.rest - m.mid && Within(m.seg, m.order[m.s..m.end])
    requires m.compares <= |m.seg| && compared == if m.rest < m.end then 1 else 0
    requires Books(cmp, res, acct, items, key, cells)
    requires Shape(cells, m.order, m.out0 + m.seg + [m.order[m.lo]], list, tail, p, q, m.lo + 1, m.mid, m.rest)
    requires Progress(m.seg + [m.order[m.lo]], m.order[m.lo..m.mid][1..], m.order[m.rest..m.end],
                      m.order[m.s..m.mid], m.order[m.mid..m.end], key)
    ensures MergeInv(cmp, res, cells, items, acct,
                     m.(lo := m.lo + 1, seg := m.seg + [m.order[m.lo]], key := key, compares := m.compares + compared),
                     insize, p, psize, q, qsize, list, tail)
  {
    hide Shape, Books, Progress;
    assert m.order[m.lo] == m.order[m.s..m.end][m.lo - m.s];
    assert m.order[m.lo..m.mid][1..] == m.order[m.lo + 1..m.mid];
    assert m.out0 + m.seg + [m.order[m.lo]] == m.out0 + (m.seg + [m.order[m.lo]]);
  }

  lemma AdvanceQ(cmp: Comparator, res: CoreResults?, cells: seq<ListHead>, items: seq<ListData>, acct: Account,
                 m: Merge, insize: nat, p: ListHead?, psize: nat, q: ListHead?, qsize: nat, list: ListHead?,
                 tail: ListHead?, key: Keys, compared: nat)
    requires m.s <= m.lo <= m.mid <= m.rest < m.end <= |m.order| && m.s < m.mid
    requires m.end == RunEnd(m.order, m.mid, insize)
    requires psize == m.mid - m.lo && qsize == insize - (m.rest - m.mid) - 1
    requires |m.seg| == m.lo - m.s + m.rest - m.mid && Within(m.seg, m.order[m.s..m.end])
    requires m.compares <= |m.seg| && compared == if m.lo < m.mid then 1 else 0
    requires Books(cmp, res, acct, items, key, cells)
    requires Shape(cells, m.order, m.out0 + m.seg + [m.order[m.rest]], list, tail, p, q, m.lo, m.mid, m.rest + 1)
    requires Progress(m.seg + [m.order[m.rest]], m.order[m.lo..m.mid], m.order[m.rest..m.end][1..],
                      m.order[m.s..m.mid], m.order[m.mid..m.end], key)
    ensures MergeInv(cmp, res, cells, items, acct,
                     m.(rest := m.rest + 1, seg := m.seg + [m.order[m.rest]], key := key,
                       compares := m.compares + compared),
                     insize, p, psize, q, qsize, list, tail)
  {
    hide Shape, Books, Progress;
    assert m.order[m.rest] == m.order[m.s..m.end][m.rest - m.s];
    assert m.order[m.rest..m.end][1..] == m.order[m.rest + 1..m.end];
    assert m.out0 + m.seg + [m.order[m.rest]] == m.out0 + (m.seg + [m.order[m.rest]]);
  }

  lemma MergeParts(cmp: Comparator, res: CoreResults?, cells: seq<ListHead>, items: seq<ListData>, acct: Account,
                   m: Merge, insize: nat, p: ListHead?, psize: nat, q: ListHead?, qsize: nat, list: ListHead?,
                   tail: ListHead?)
    requires MergeInv(cmp, res, cells, items, acct, m, insize, p, psize, q, qsize, list, tail)
    ensures m.s <= m.lo <= m.mid <= m.rest <= m.end <= |m.order| && m.s < m.mid
    ensures m.end == RunEnd(m.order, m.mid, insize)
    ensures psize == m.mid - m.lo && qsize == insize - (m.rest - m.mid)
    ensures qsize == 0 || m.rest == |m.order| <==> m.rest == m.end
    ensures Books(cmp, res, acct, items, m.key, cells)
    ensures Shape(cells, m.order, m.out0 + m.seg, list, tail, p, q, m.lo, m.mid, m.rest)
    ensures |m.seg| == m.lo - m.s + m.rest - m.mid && m.compares <= |m.seg| && Within(m.seg, m.order[m.s..m.end])
    ensures Progress(m.seg, m.order[m.lo..m.mid], m.order[m.rest..m.end], m.order[m.s..m.mid], m.order[m.mid..m.end],
      m.key)
  {
  }

  /** The next choice takes a comparison exactly when both runs have something left. */
  ghost function Compared(m: Merge): nat {
    if m.lo < m.mid && m.rest < m.end then 1 else 0
  }

  /** The choice, within the inner loop. */
  method MergeChoose(cmp: Comparator, res: CoreResults?, insize: nat, p: ListHead?, psize: nat, q: ListHead?,
                     qsize: nat, ghost list: ListHead?, ghost tail: ListHead?, ghost cells: seq<ListHead>,
                     ghost items: seq<ListData>, ghost acct: Account, ghost m: Merge, ghost tally: Tally)
    returns (fromP: bool, ghost key: Keys)
    requires MergeInv(cmp, res, cells, items, acct, m, insize, p, psize, q, qsize, list, tail)
    requires psize > 0 || (qsize > 0 && q != null)
    modifies acct.items`data16, res, tally
    ensures m.s <= m.lo <= m.mid <= m.rest <= m.end <= |m.order|
    ensures Books(cmp, res, acct, items, key, cells) && Extends(m.key, key)
    ensures tally.calls == old(tally.calls) + Compared(m)
    ensures fromP ==>
      && m.lo < m.mid && p != null
      && Progress(m.seg + [m.order[m.lo]], m.order[m.lo..m.mid][1..], m.order[m.rest..m.end],
                  m.order[m.s..m.mid], m.order[m.mid..m.end], key)
    ensures !fromP ==>
      && m.rest < m.end && q != null
      && Progress(m.seg + [m.order[m.rest]], m.order[m.lo..m.mid], m.order[m.rest..m.end][1..],
                  m.order[m.s..m.mid], m.order[m.mid..m.end], key)
  {
    hide MergeInv, Shape, Books, Progress, Extends, RunEnd, Within;
    MergeParts(cmp, res, cells, items, acct, m, insize, p, psize, q, qsize, list, tail);
    ShapeEnds(cells, m.order, m.out0 + m.seg, list, tail, p, q, m.lo, m.mid, m.rest);
    ghost var pr, qr := m.order[m.lo..m.mid], m.order[m.rest..m.end];
    fromP, key := ChooseNext(cmp, res, p, psize, q, qsize, cells, items, acct, m.seg, pr, qr,
                             m.order[m.s..m.mid], m.order[m.mid..m.end], m.key, tally);
  }

  /** One round of the inner loop. */
  method MergeStep(cmp: Comparator, res: CoreResults?, insize: nat, p: ListHead?, psize: nat, q: ListHead?, qsize: nat,
                   list: ListHead?, tail: ListHead?, ghost cells: seq<ListHead>, ghost items: seq<ListData>,
                   ghost acct: Account, ghost m: Merge, ghost tally: Tally)
    returns (p': ListHead?, psize': nat, q': ListHead?, qsize': nat, list': ListHead?, tail': ListHead?,
             ghost m': Merge)
    requires MergeInv(cmp, res, cells, items, acct, m, insize, p, psize, q, qsize, list, tail)
    requires psize > 0 || (qsize > 0 && q != null)
    modifies cells`next, acct.items`data16, res, tally
    ensures MergeInv(cmp, res, cells, items, acct, m', insize, p', psize', q', qsize', list', tail')
    ensures m'.compares == m.compares + Compared(m) && tally.calls == old(tally.calls) + Compared(m)
    ensures Extends(m.key, m'.key) && m'.lo + m'.rest == m.lo + m.rest + 1
    ensures m' == m.(lo := m'.lo, rest := m'.rest, seg := m'.seg, key := m'.key, compares := m'.compares)
  {
    hide MergeInv, Shape, Books, Progress, Extends, RunEnd, Within;
    MergeParts(cmp, res, cells, items, acct, m, insize, p, psize, q, qsize, list, tail);
    p', psize', q', qsize' := p, psize, q, qsize;
    var fromP;
    ghost var key, compared := m.key, Compared(m);
    fromP, key := MergeChoose(cmp, res, insize, p, psize, q, qsize, list, tail, cells, items, acct, m, tally);
    if fromP {
      p', list', tail' := TakeP(cells, m.order, m.out0 + m.seg, list, tail, p, q, m.lo, m.mid, m.rest);
      psize' := psize - 1;
      AdvanceP(cmp, res, cells, items, acct, m, insize, p', psize', q, qsize, list', tail', key, compared);
      m' := m.(lo := m.lo + 1, seg := m.seg + [m.order[m.lo]], key := key, compares := m.compares + compared);
    } else {
      q', list', tail' := TakeQ(cells, m.order, m.out0 + m.seg, list, tail, p, q, m.lo, m.mid, m.rest);
      qsize' := qsize - 1;
      AdvanceQ(cmp, res, cells, items, acct, m, insize, p, psize, q', qsize', list', tail', key, compared);
      m' := m.(rest := m.rest + 1, seg := m.seg + [m.order[m.rest]], key := key, compares := m.compares + compared);
    }
  }

  /** The end of the inner loop: both runs are put out. */
  lemma MergeExit(cmp: Comparator, res: CoreResults?, cells: seq<ListHead>, items: seq<ListData>, acct: Account,
                  m: Merge, insize: nat, p: ListHead?, psize: nat, q: ListHead?, qsize: nat, list: ListHead?,
                  tail: ListHead?)
    requires MergeInv(cmp, res, cells, items, acct, m, insize, p, psize, q, qsize, list, tail)
    requires psize == 0 && (qsize == 0 || q == null)
    ensures m.mid <= m.end <= |m.order|
    ensures Shape(cells, m.order, m.out0 + m.seg, list, tail, null, q, m.end, m.end, m.end)
    ensures m.s < m.end && |m.seg| == m.end - m.s && m.compares < m.end - m.s
    ensures Run(m.seg, m.key) && Within(m.seg, m.order[m.s..m.end]) && Books(cmp, res, acct, items, m.key, cells)
  {
    hide Shape, Books, Progress, Run, Within;
    ShapeEnds(cells, m.order, m.out0 + m.seg, list, tail, p, q, m.lo, m.mid, m.rest);
    assert m.order[m.lo..m.mid] == [] && m.order[m.rest..m.end] == [];
    MergeDone(m.seg, m.order[m.s..m.mid], m.order[m.mid..m.end], m.key);
  }

  /** The inner loop: merging the run at place m.s with the run behind it onto the merged list. */
  method MergeRuns(cmp: Comparator, res: CoreResults?, insize: nat, p0: ListHead, psize0: nat, q0: ListHead?,
                   list0: ListHead?, tail0: ListHead?, ghost cells: seq<ListHead>, ghost items: seq<ListData>,
                   ghost acct: Account, ghost m0: Merge, ghost tally: Tally)
    returns (q: ListHead?, list: ListHead?, tail: ListHead?, ghost m: Merge)
    requires MergeInv(cmp, res, cells, items, acct, m0, insize, p0, psize0, q0, insize, list0, tail0)
    modifies cells`next, acct.items`data16, res, tally
    ensures tally.calls == old(tally.calls) + m.compares - m0.compares
    ensures Extends(m0.key, m.key) && Books(cmp, res, acct, items, m.key, cells)
    ensures m == m0.(lo := m.lo, rest := m.rest, seg := m.seg, key := m.key, compares := m.compares)
    ensures m.mid <= m.end <= |m.order|
    ensures Shape(cells, m.order, m.out0 + m.seg, list, tail, null, q, m.end, m.end, m.end)
    ensures m.s < m.end && |m.seg| == m.end - m.s && m.compares < m.end - m.s
    ensures Run(m.seg, m.key) && Within(m.seg, m.order[m.s..m.end])
  {
    hide MergeInv, Extends, Shape, Run, Books, Within;
    var p: ListHead?, psize, qsize := p0, psize0, insize;
    q, list, tail, m := q0, list0, tail0, m0;
    ExtendsTransitive(m0.key, m0.key, m0.key);
    while psize > 0 || (qsize > 0 && q != null)
      invariant MergeInv(cmp, res, cells, items, acct, m, insize, p, psize, q, qsize, list, tail)
      invariant Extends(m0.key, m.key) && tally.calls == old(tally.calls) + m.compares - m0.compares
      invariant m == m0.(lo := m.lo, rest := m.rest, seg := m.seg, key := m.key, compares := m.compares)
      decreases 2 * |m0.order| - m.lo - m.rest
    {
      ghost var m';
      MergeBounds(cmp, res, cells, items, acct, m, insize, p, psize, q, qsize, list, tail);
      p, psize, q, qsize, list, tail, m' :=
        MergeStep(cmp, res, insize, p, psize, q, qsize, list, tail, cells, items, acct, m, tally);
      ExtendsTransitive(m0.key, m.key, m'.key);
      m := m';
      MergeBounds(cmp, res, cells, items, acct, m, insize, p, psize, q, qsize, list, tail);
    }
    MergeExit(cmp, res, cells, items, acct, m, insize, p, psize, q, qsize, list, tail);
  }

  lemma MergeBounds(cmp: Comparator, res: CoreResults?, cells: seq<ListHead>, items: seq<ListData>, acct: Account,
                    m: Merge, insize: nat, p: ListHead?, psize: nat, q: ListHead?, qsize: nat, list: ListHead?,
                    tail: ListHead?)
    requires MergeInv(cmp, res, cells, items, acct, m, insize, p, psize, q, qsize, list, tail)
    ensures m.lo <= m.rest <= |m.order|
  {
  }
}
