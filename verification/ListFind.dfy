/** The find phase of core_bench_list: repeated search, reversal and moving of a cell, as steps on the
    order of the cells. */
module ListFind {
  import opened MachineTypes
  import opened ListCells
  import opened ListMerge
  import opened ListSort
  import opened Sequences

  /** What the search sees of a cell. */
  datatype Entry = Entry(data16: Data16, idx: S16)

  ghost predicate Shows(cells: seq<ListHead>, snap: seq<Entry>)
    reads cells`info, Infos(cells)
  {
    && |snap| == |cells|
    && forall i {:trigger cells[i]} :: 0 <= i < |cells| ==> snap[i] == Entry(cells[i].info.data16, cells[i].info.idx)
  }

  /** The first place at which an entry matches, or the length. */
  ghost function FirstMatch(es: seq<Entry>, wantData: U16, wantIdx: S16): (k: nat)
    ensures k <= |es|
  {
    if es == [] || Matches(es[0].data16, es[0].idx, wantData, wantIdx) then 0
    else 1 + FirstMatch(es[1..], wantData, wantIdx)
  }

  lemma {:induction false} FirstMatchIs(es: seq<Entry>, wantData: U16, wantIdx: S16, k: nat)
    requires k <= |es|
    requires forall i :: 0 <= i < k ==> !Matches(es[i].data16, es[i].idx, wantData, wantIdx)
    requires k < |es| ==> Matches(es[k].data16, es[k].idx, wantData, wantIdx)
    ensures FirstMatch(es, wantData, wantIdx) == k
    decreases |es|
  {
    if k > 0 {
      FirstMatchIs(es[1..], wantData, wantIdx, k - 1);
    }
  }

  lemma {:induction false} FirstMatchFits(es: seq<Entry>, wantData: U16, wantIdx: S16)
    ensures var k := FirstMatch(es, wantData, wantIdx);
      && (forall i :: 0 <= i < k ==> !Matches(es[i].data16, es[i].idx, wantData, wantIdx))
      && (k < |es| ==> Matches(es[k].data16, es[k].idx, wantData, wantIdx))
  {
    if es != [] && !Matches(es[0].data16, es[0].idx, wantData, wantIdx) {
      FirstMatchFits(es[1..], wantData, wantIdx);
      assert forall i :: 1 <= i < |es| ==> es[i] == es[1..][i - 1];
    }
  }

  /** The element behind place j moved to just behind the head. */
  ghost function MoveAfterHead<T>(s: seq<T>, j: nat): (r: seq<T>)
    requires j + 1 < |s|
    ensures |r| == |s|
  {
    [s[0], s[j + 1]] + s[1..j + 1] + s[j + 2..]
  }

  /** The order of the cells, the accumulated value, the hits and misses, and the idx to look for next. */
  datatype Finding = Finding(order: seq<int>, retval: U16, found: nat, missed: nat, idx: S16)

  function NextIdx(idx: S16): S16 {
    if idx >= 0 then ToS16(idx + 1) else idx
  }

  /** The order after a round in which place k matched, or none did (k is the length). */
  ghost function NextOrder<T>(order: seq<T>, k: nat): (r: seq<T>)
    requires k <= |order|
    ensures |r| == |order|
  {
    if 0 < k < |order| then MoveAfterHead(Reversed(order), |order| - 1 - k) else Reversed(order)
  }

  /** The place that NextOrder fills place i from. */
  ghost function NextPlace(n: nat, k: nat, i: nat): (p: nat)
    requires k <= n && i < n
    ensures p < n
  {
    if k == 0 || k == n then n - 1 - i
    else if i == 0 then n - 1
    else if i == 1 then k - 1
    else if i <= n - k then n - i
    else n - 1 - i
  }

  lemma NextAt<T>(s: seq<T>, k: nat, i: nat)
    requires k <= |s| && i < |s|
    ensures NextOrder(s, k)[i] == s[NextPlace(|s|, k, i)]
  {
    if 0 < k < |s| {
      var back, j := Reversed(s), |s| - 1 - k;
      var r := MoveAfterHead(back, j);
      if i == 0 {
        assert r[0] == back[0];
      } else if i == 1 {
        assert r[1] == back[j + 1];
      } else if i <= |s| - k {
        assert r[i] == back[1..j + 1][i - 2] == back[i - 1];
      } else {
        assert r[i] == back[j + 2..][i - 2 - j] == back[i];
      }
    }
  }

  lemma NextOrderIsPermutation(order: seq<int>, k: nat, n: nat)
    requires IsPermutation(order, n) && k <= n
    ensures IsPermutation(NextOrder(order, k), n)
  {
    var r := NextOrder(order, k);
    hide NextOrder;
    forall i | 0 <= i < n ensures 0 <= r[i] < n {
      NextAt(order, k, i);
    }
    forall i, j | 0 <= i < j < n ensures r[i] != r[j] {
      NextAt(order, k, i);
      NextAt(order, k, j);
    }
  }

  /** What a round adds to the accumulated value, read from the reversed list or the found cell. */
  ghost function Gain(snap: seq<Entry>, order: seq<int>, k: nat): nat
    requires IsPermutation(order, |snap|) && |order| >= 2 && k <= |order|
  {
    if k == |order| then snap[order[|order| - 2]].data16.upper % 2
    else if snap[order[k]].data16.low % 2 == 1 then snap[order[k]].data16.upper / 2 % 2
    else 0
  }

  /** One round, searching for number i. */
  ghost function FindStep(snap: seq<Entry>, f: Finding, i: nat): (r: Finding)
    requires IsPermutation(f.order, |snap|) && |f.order| >= 2
    ensures IsPermutation(r.order, |snap|)
  {
    var k := FirstMatch(Permuted(snap, f.order), i % 0x100, f.idx);
    NextOrderIsPermutation(f.order, k, |snap|);
    Finding(NextOrder(f.order, k), (f.retval + Gain(snap, f.order, k)) % 0x1_0000,
            if k < |f.order| then f.found + 1 else f.found,
            if k < |f.order| then f.missed else f.missed + 1, NextIdx(f.idx))
  }

  ghost function FindRounds(snap: seq<Entry>, f: Finding, n: nat): (r: Finding)
    requires IsPermutation(f.order, |snap|) && |f.order| >= 2
    ensures IsPermutation(r.order, |snap|)
    ensures r.found + r.missed == f.found + f.missed + n
  {
    if n == 0 then f else FindStep(snap, FindRounds(snap, f, n - 1), n - 1)
  }

  // ----- the pointer steps

  /** Where each cell is after the move. */
  lemma MovedCells(cells: seq<ListHead>, j: nat)
    requires j + 1 < |cells| && Distinct(cells)
    ensures var r := MoveAfterHead(cells, j);
      && r[0] == cells[0] && r[1] == cells[j + 1]
      && (forall k :: 2 <= k < |r| ==> r[k] == if k < j + 2 then cells[k - 1] else cells[k])
      && Distinct(r)
  {
  }

  /** The four assignments that move the cell behind thisFind to just behind the head. */
  method MoveNext(list: ListHead, thisFind: ListHead, ghost cells: seq<ListHead>, ghost j: nat)
    requires Linked(list, cells) && j + 1 < |cells| && thisFind == cells[j]
    modifies cells`next
    ensures Linked(list, MoveAfterHead(cells, j))
  {
    var finder := thisFind.next;
    thisFind.next := finder.next;
    finder.next := list.next;
    list.next := finder;
    ghost var r := MoveAfterHead(cells, j);
    MovedCells(cells, j);
    hide MoveAfterHead;
    forall k | 0 <= k < |r| ensures r[k].next == if k + 1 < |r| then r[k + 1] else null {
      assert k >= 2 ==> r[k] == if k < j + 2 then cells[k - 1] else cells[k];
      assert k >= 1 && k + 1 < |r| ==> r[k + 1] == if k + 1 < j + 2 then cells[k] else cells[k + 1];
    }
  }

  lemma PermutationRange(order: seq<int>, n: nat)
    requires IsPermutation(order, n)
    ensures |order| == n && InRange(order, n)
  {
  }

  lemma PermutedReversed(cells: seq<ListHead>, order: seq<int>)
    requires InRange(order, |cells|)
    ensures InRange(Reversed(order), |cells|) && Permuted(cells, Reversed(order)) == Reversed(Permuted(cells, order))
  {
  }

  lemma PermutedNext(cells: seq<ListHead>, order: seq<int>, k: nat)
    requires IsPermutation(order, |cells|) && k <= |order| && IsPermutation(NextOrder(order, k), |cells|)
    ensures Permuted(cells, NextOrder(order, k)) == NextOrder(Permuted(cells, order), k)
    ensures Permuted(cells, Reversed(order)) == Reversed(Permuted(cells, order))
  {
    hide NextOrder, NextPlace, Reversed, Distinct;
    var s, r := Permuted(cells, order), NextOrder(order, k);
    PermutationRange(order, |cells|);
    PermutationRange(r, |cells|);
    PermutedReversed(cells, order);
    forall i | 0 <= i < |order| ensures Permuted(cells, r)[i] == NextOrder(s, k)[i] {
      NextAt(order, k, i);
      NextAt(s, k, i);
    }
  }

  /** core_list_find, told by what the search sees. */
  method FindPlace(list: ListHead, wantData: U16, wantIdx: S16, ghost s: seq<ListHead>, ghost es: seq<Entry>)
    returns (found: ListHead?, ghost k: nat)
    requires Shows(s, es) && Linked(list, s)
    ensures k == FirstMatch(es, wantData, wantIdx) && found == At(s, FirstMatch(es, wantData, wantIdx))
  {
    found, k := Find(list, wantData, wantIdx, s);
    forall i | 0 <= i < k ensures !Matches(es[i].data16, es[i].idx, wantData, wantIdx) {
      assert !CellMatches(s[i], wantData, wantIdx);
    }
    FirstMatchIs(es, wantData, wantIdx, k);
  }

  lemma ShowsInOrder(cells: seq<ListHead>, snap: seq<Entry>, order: seq<int>)
    requires Shows(cells, snap) && InRange(order, |cells|)
    ensures Shows(Permuted(cells, order), Permuted(snap, order))
  {
    var s := Permuted(cells, order);
    assert forall i {:trigger s[i]} :: 0 <= i < |s| ==> s[i] == cells[order[i]];
  }

  /** The reversal of one round, and what it adds to the accumulated value. */
  method TurnAndCount(list0: ListHead, thisFind: ListHead?, retval0: U16, ghost cells: seq<ListHead>,
                      ghost snap: seq<Entry>, ghost order: seq<int>, ghost k: nat)
    returns (list: ListHead, retval: U16)
    requires Shows(cells, snap) && |cells| >= 2 && IsPermutation(order, |cells|) && k <= |order|
    requires Linked(list0, Permuted(cells, order))
    requires thisFind == if k < |order| then cells[order[k]] else null
    modifies cells`next
    ensures Linked(list, Reversed(Permuted(cells, order)))
    ensures retval == (retval0 + Gain(snap, order, k)) % 0x1_0000
  {
    ghost var s := Permuted(cells, order);
    var back := Reverse(list0, s);
    SecondShown(back, cells, snap, order);
    assert thisFind != null ==> cells[order[k]].info.data16 == snap[order[k]].data16;
    hide Shows, Linked, IsPermutation;
    list, retval := back, retval0;
    if thisFind == null {
      retval := (retval + list.next.info.data16.upper % 2) % 0x1_0000;
    } else {
      if thisFind.info.data16.low % 2 == 1 {
        retval := (retval + thisFind.info.data16.upper / 2 % 2) % 0x1_0000;
      }
    }
  }

  lemma SecondShown(list: ListHead?, cells: seq<ListHead>, snap: seq<Entry>, order: seq<int>)
    requires Shows(cells, snap) && InRange(order, |cells|) && |order| >= 2
    requires Linked(list, Reversed(Permuted(cells, order)))
    ensures list != null && list.next != null && list.next.info.data16 == snap[order[|order| - 2]].data16
  {
    var r := Reversed(Permuted(cells, order));
    assert r[0].next == r[1] && r[1] == cells[order[|order| - 2]];
  }

  /** The move of one round: the cell behind the found one, if there is one, goes behind the head. */
  method MoveIfFound(list: ListHead, thisFind: ListHead?, ghost s: seq<ListHead>, ghost k: nat)
    requires k <= |s| && Linked(list, Reversed(s)) && |s| >= 2
    requires thisFind == if k < |s| then s[k] else null
    modifies s`next
    ensures Linked(list, NextOrder(s, k))
  {
    if thisFind != null {
      assert Reversed(s)[|s| - 1 - k] == thisFind;
      if thisFind.next != null {
        MoveNext(list, thisFind, Reversed(s), |s| - 1 - k);
      }
    }
  }

  /** One round of the find loop. */
  method FindRound(list0: ListHead, data: U16, retval0: U16, found0: nat, missed0: nat, idx0: S16,
                   ghost cells: seq<ListHead>, ghost snap: seq<Entry>, ghost order: seq<int>, ghost i: nat)
    returns (list: ListHead, retval: U16, found: nat, missed: nat, idx: S16, ghost f: Finding)
    requires Shows(cells, snap) && |cells| >= 2 && IsPermutation(order, |cells|) && Distinct(cells)
    requires Linked(list0, Permuted(cells, order)) && data == i % 0x100
    modifies cells`next
    ensures f == FindStep(snap, Finding(order, retval0, found0, missed0, idx0), i)
    ensures f == Finding(f.order, retval, found, missed, idx)
    ensures Linked(list, Permuted(cells, f.order))
  {
    hide FirstMatch, NextOrder, Matches;
    found, missed, idx := found0, missed0, idx0;
    var thisFind;
    ghost var k;
    ShowsInOrder(cells, snap, order);
    thisFind, k := FindPlace(list0, data, idx, Permuted(cells, order), Permuted(snap, order));
    NextOrderIsPermutation(order, k, |snap|);
    PermutedNext(cells, order, k);
    list, retval := TurnAndCount(list0, thisFind, retval0, cells, snap, order, k);
    MoveIfFound(list, thisFind, Permuted(cells, order), k);
    if thisFind == null {
      missed := missed + 1;
    } else {
      found := found + 1;
    }
    if idx >= 0 {
      idx := ToS16(idx + 1);
    }
    f := FindStep(snap, Finding(order, retval0, found0, missed0, idx0), i);
  }

  /** The find loop; data is the low byte last looked for, and keeps its value when the loop does not run. */
  method FindMany(list0: ListHead, findNum: S16, data0: U16, finderIdx: S16,
                  ghost cells: seq<ListHead>, ghost snap: seq<Entry>, ghost order: seq<int>)
    returns (list: ListHead, retval: U16, found: nat, missed: nat, data: U16, idx: S16, ghost f: Finding)
    requires Shows(cells, snap) && |cells| >= 2 && IsPermutation(order, |cells|) && Distinct(cells)
    requires Linked(list0, Permuted(cells, order))
    modifies cells`next
    ensures f == FindRounds(snap, Finding(order, 0, 0, 0, finderIdx), Rounds(findNum))
    ensures f == Finding(f.order, retval, found, missed, idx)
    ensures data == LastData(findNum, data0)
    ensures Linked(list, Permuted(cells, f.order))
  {
    hide Linked, Permuted, FindStep;
    list, retval, found, missed, data, idx := list0, 0, 0, 0, data0, finderIdx;
    ghost var start := Finding(order, 0, 0, 0, finderIdx);
    f := start;
    var i := 0;
    while i < findNum
      invariant 0 <= i <= Rounds(findNum)
      invariant f == FindRounds(snap, start, i) && f == Finding(f.order, retval, found, missed, idx)
      invariant data == if i > 0 then (i - 1) % 0x100 else data0
      invariant Shows(cells, snap) && Linked(list, Permuted(cells, f.order))
    {
      data := i % 0x100;
      list, retval, found, missed, idx, f :=
        FindRound(list, data, retval, found, missed, idx, cells, snap, f.order, i);
      i := i + 1;
    }
  }

  function Rounds(findNum: S16): nat {
    if findNum >= 0 then findNum else 0
  }

  function LastData(findNum: S16, data0: U16): U16 {
    if findNum > 0 then (findNum - 1) % 0x100 else data0
  }
}
