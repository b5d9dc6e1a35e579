/** core_list_init: the list built inside its memory block. */
module ListInit {
  import opened Bitwise
  import opened MachineTypes
  import opened ListCells
  import opened ListCompare
  import opened ListMerge
  import opened ListSort
  import opened ListFind
  import opened ListBench
  import opened ListRestore
  import opened Sequences

  const PER_ITEM := 20
  const CELL_BYTES := 8
  const ITEM_BYTES := 4

  /** The element count core_list_init derives from the block size. */
  function SizeOf(blksize: U32): int {
    blksize / PER_ITEM - 2
  }

  /** The data of the i-th inserted item: a pattern from the seed, the algorithm from i, and its backup. */
  function ItemData(seed: S16, i: nat): (d: Data16)
    ensures Restored(d) && !d.cached
  {
    var pat := Xor(ToU16(seed), i, 4);
    assert Pow2(4) == 16;
    var dat := pat * 8 + i % 8;
    Data16(dat, false, dat)
  }

  lemma Pow2Of16()
    ensures Pow2(16) == 0x1_0000
  {
    assert Pow2(4) == 0x10;
    assert Pow2(6) == 0x40;
    assert Pow2(8) == 0x100;
    assert Pow2(10) == 0x400;
    assert Pow2(12) == 0x1000;
    assert Pow2(14) == 0x4000;
  }

  /** The idx of the k-th cell behind the head, before the sort. */
  function IdxFor(k: nat, size: nat, seed: S16): S16 {
    if k < size / 5 then ToS16(k)
    else
      var pat := Xor(k % 0x1_0000, ToU16(seed), 16);
      Pow2Of16();
      OrInto((k + 1) % 8, pat) % 0x4000
  }

  /** pat with the three bits of high or-ed in at bit 8. */
  function OrInto(high: nat, pat: nat): (r: nat)
    requires high < 8 && pat < 0x1_0000
    ensures r < 0x1_0000
  {
    pat / 0x800 * 0x800 + Or3(high, pat / 0x100 % 8) * 0x100 + pat % 0x100
  }

  function Or3(a: nat, b: nat): (r: nat)
    requires a < 8 && b < 8
    ensures r < 8
  {
    (if a / 4 + b / 4 > 0 then 4 else 0) + (if a / 2 % 2 + b / 2 % 2 > 0 then 2 else 0)
      + (if a % 2 + b % 2 > 0 then 1 else 0)
  }

  /** Linking a new cell behind the head. */
  method LinkBehind(head: ListHead, newitem: ListHead, ghost s: seq<ListHead>)
    requires Linked(head, s) && s != [] && newitem !in s
    modifies head`next, newitem`next
    ensures Linked(head, [s[0], newitem] + s[1..])
  {
    newitem.next := head.next;
    head.next := newitem;
    ghost var r := [s[0], newitem] + s[1..];
    assert forall k {:trigger r[k].next} :: 2 <= k < |r| ==> r[k] == s[k - 1];
  }

  /** core_list_insert_new: the two bump allocators hand out the next cell and the next item,
      or the insertion is refused and nothing changes. */
  method InsertNew(head: ListHead, data16: Data16, idx: S16, heads: array<ListHead>, datas: array<ListData>, hi0: nat,
                   di0: nat, ghost s: seq<ListHead>)
    returns (newitem: ListHead?, hi: nat, di: nat)
    requires hi0 <= heads.Length && di0 <= datas.Length
    requires Linked(head, s) && s != [] && (hi0 < heads.Length ==> heads[hi0] !in s)
    modifies head`next, if hi0 < heads.Length then {heads[hi0]} else {}, if di0 < datas.Length then {datas[di0]} else {}
    ensures hi0 + 1 >= heads.Length || di0 + 1 >= datas.Length ==>
      && newitem == null && hi == hi0 && di == di0 && Linked(head, s)
      && unchanged(head) && (hi0 < heads.Length ==> unchanged(heads[hi0]))
      && (di0 < datas.Length ==> unchanged(datas[di0]))
    ensures hi0 + 1 < heads.Length && di0 + 1 < datas.Length ==>
      && hi == hi0 + 1 && di == di0 + 1 && newitem == heads[hi0] && newitem.info == datas[di0]
      && datas[di0].data16 == data16 && datas[di0].idx == idx && Linked(head, [s[0], heads[hi0]] + s[1..])
  {
    hi, di := hi0, di0;
    if hi + 1 >= heads.Length {
      return null, hi, di;
    }
    if di + 1 >= datas.Length {
      return null, hi, di;
    }
    newitem := heads[hi];
    hi := hi + 1;
    LinkBehind(head, newitem, s);
    newitem.info := datas[di];
    di := di + 1;
    newitem.info.data16 := data16;
    newitem.info.idx := idx;
  }

  // ----- the list before the sort

  /** The first n cells of the block, the first at the head and the others latest first. */
  ghost function BuiltChain(h: seq<ListHead>, n: nat): (r: seq<ListHead>)
    requires 1 <= n <= |h|
    ensures |r| == n && r[0] == h[0] && forall k :: 1 <= k < n ==> r[k] == h[n - k]
  {
    [h[0]] + Reversed(h[1..n])
  }

  const HEAD_DATA := Data16(0x80, true, 0)
  const TAIL_DATA := Data16(0xff, true, 0x7f)

  /** The data given to the item with this number. */
  function InitData(seed: S16, h: nat): (d: Data16)
    ensures Restored(d)
  {
    if h == 0 then HEAD_DATA else if h == 1 then TAIL_DATA else ItemData(seed, h - 2)
  }

  /** The n cells built so far own the first n items, holding their data; the chain carries idx as given. */
  ghost predicate Filled(h: seq<ListHead>, d: seq<ListData>, n: nat, seed: S16)
    reads h`info, d`data16
  {
    && n <= |h| && n <= |d|
    && forall i {:trigger h[i]} :: 0 <= i < n ==> h[i].info == d[i] && d[i].data16 == InitData(seed, i)
  }

  /** Inserting the items: the loop of core_list_init runs size times, the last rounds being refused. */
  method InsertItems(head: ListHead, heads: array<ListHead>, datas: array<ListData>, seed: S16)
    returns (hi: nat, di: nat)
    requires heads.Length == datas.Length >= 3 && Distinct(heads[..]) && Distinct(datas[..])
    requires head == heads[0] && Linked(head, BuiltChain(heads[..], 2)) && Filled(heads[..], datas[..], 2, seed)
    requires datas[0].idx == 0 && datas[1].idx == 0x7fff
    modifies heads[..], datas[..]
    ensures hi == di == heads.Length - 1
    ensures Linked(head, BuiltChain(heads[..], hi)) && Filled(heads[..], datas[..], hi, seed)
    ensures datas[0].idx == 0 && datas[1].idx == 0x7fff
  {
    hi, di := 2, 2;
    var size := heads.Length;
    ghost var h, d := heads[..], datas[..];
    for i := 0 to size
      invariant hi == di == if i + 2 <= size - 1 then i + 2 else size - 1
      invariant Linked(head, BuiltChain(h, hi)) && Filled(h, d, hi, seed)
      invariant datas[0].idx == 0 && datas[1].idx == 0x7fff
    {
      hi, di := InsertItem(head, heads, datas, seed, i, hi);
    }
  }

  lemma ChainGrows(h: seq<ListHead>, n: nat)
    requires 1 <= n < |h| && Distinct(h)
    ensures h[n] !in BuiltChain(h, n)
    ensures [h[0], h[n]] + BuiltChain(h, n)[1..] == BuiltChain(h, n + 1)
  {
    var s, r := BuiltChain(h, n), [h[0], h[n]] + BuiltChain(h, n)[1..];
    assert forall k :: 2 <= k <= n ==> r[k] == s[k - 1];
  }

  /** One round of that loop. */
  method InsertItem(head: ListHead, heads: array<ListHead>, datas: array<ListData>, seed: S16, i: nat, hi0: nat)
    returns (hi: nat, di: nat)
    requires heads.Length == datas.Length && Distinct(heads[..]) && Distinct(datas[..])
    requires 2 <= hi0 < heads.Length && head == heads[0] && (hi0 + 1 < heads.Length ==> hi0 == i + 2)
    requires Linked(head, BuiltChain(heads[..], hi0)) && Filled(heads[..], datas[..], hi0, seed)
    modifies head, heads[hi0], datas[hi0]
    ensures hi == di == if hi0 + 1 < heads.Length then hi0 + 1 else hi0
    ensures Linked(head, BuiltChain(heads[..], hi)) && Filled(heads[..], datas[..], hi, seed)
  {
    ghost var h, d := heads[..], datas[..];
    ghost var s := BuiltChain(h, hi0);
    ChainGrows(h, hi0);
    assert forall k :: 0 <= k < hi0 ==> h[k] != h[hi0] && d[k] != d[hi0];
    assert hi0 + 1 < heads.Length ==> InitData(seed, hi0) == ItemData(seed, i);
    hide Linked, BuiltChain, ItemData, Distinct, InitData;
    var newitem;
    newitem, hi, di := InsertNew(head, ItemData(seed, i), 0x7fff, heads, datas, hi0, hi0, s);
  }

  // ----- the idx of each cell, and the sort

  ghost predicate OwnItems(s: seq<ListHead>)
    reads s`info
  {
    forall j, k {:trigger s[j], s[k]} :: 0 <= j < k < |s| ==> s[j].info != s[k].info
  }

  /** The numbering loop: every cell but the first and the last gets its idx. */
  method NumberCells(list: ListHead, size: nat, seed: S16, ghost s: seq<ListHead>)
    requires Linked(list, s) && |s| >= 2 && OwnItems(s)
    modifies Infos(s)`idx
    ensures forall k {:trigger s[k]} :: 0 <= k < |s| ==>
      s[k].info.idx == if 1 <= k < |s| - 1 then IdxFor(k, size, seed) else old(s[k].info.idx)
  {
    hide IdxFor;
    var finder := list.next;
    var i := 1;
    while finder.next != null
      invariant 1 <= i < |s| && finder == s[i]
      invariant forall k {:trigger s[k]} :: 0 <= k < |s| ==>
        s[k].info.idx == if 1 <= k < i then IdxFor(k, size, seed) else old(s[k].info.idx)
      decreases |s| - i
    {
      finder.info.idx := IdxFor(i, size, seed);
      i := i + 1;
      finder := finder.next;
    }
  }

  /** The entries of the list before the sort, in its order. */
  ghost function InitEntries(size: nat, seed: S16): (es: seq<Entry>)
    requires size >= 3
    ensures |es| == size - 1
  {
    var n := size - 1;
    seq(n, k requires 0 <= k < n => Entry(InitData(seed, if k == 0 then 0 else n - k),
                                         if k == 0 then 0 else if k == n - 1 then 0x7fff else IdxFor(k, size, seed)))
  }

  lemma PlaceOf(perm: seq<int>, n: nat, x: nat) returns (i: nat)
    requires IsPermutation(perm, n) && x < n
    ensures i < n && perm[i] == x
  {
    AllPositions(perm, n);
    assert x in perm;
    i :| 0 <= i < |perm| && perm[i] == x;
  }

  lemma PlacesInOrder(idxs: seq<int>, perm: seq<int>, i: nat, j: nat)
    requires SortsByIdx(idxs, Identity(|idxs|), perm) && i <= j < |idxs|
    ensures i == j || idxs[perm[i]] < idxs[perm[j]] || (idxs[perm[i]] == idxs[perm[j]] && perm[i] < perm[j])
  {
    var id := Identity(|idxs|);
    assert i < j ==> idxs[id[perm[i]]] <= idxs[id[perm[j]]];
  }

  /** The first place is taken by position 0 exactly when no idx is below its idx. */
  lemma FirstStays(idxs: seq<int>, perm: seq<int>)
    requires |idxs| > 0 && SortsByIdx(idxs, Identity(|idxs|), perm)
    ensures perm[0] == 0 <==> forall k :: 0 <= k < |idxs| ==> idxs[0] <= idxs[k]
  {
    var n := |idxs|;
    var first := PlaceOf(perm, n, 0);
    if perm[0] == 0 {
      forall k | 0 <= k < n ensures idxs[0] <= idxs[k] {
        var i := PlaceOf(perm, n, k);
        PlacesInOrder(idxs, perm, 0, i);
      }
    }
    PlacesInOrder(idxs, perm, 0, first);
  }

  /** The last position stays last when no idx is above its idx. */
  lemma LastStays(idxs: seq<int>, perm: seq<int>)
    requires |idxs| > 0 && SortsByIdx(idxs, Identity(|idxs|), perm)
    requires forall k :: 0 <= k < |idxs| ==> idxs[k] <= idxs[|idxs| - 1]
    ensures perm[|idxs| - 1] == |idxs| - 1
  {
    var n := |idxs|;
    var last := PlaceOf(perm, n, n - 1);
    PlacesInOrder(idxs, perm, last, n - 1);
  }

  lemma IdxForSign(k: nat, size: nat, seed: S16)
    ensures k >= size / 5 || k < 0x8000 ==> IdxFor(k, size, seed) >= 0
    ensures k == 0x8000 < size / 5 ==> IdxFor(k, size, seed) < 0
  {
    hide Xor, OrInto;
  }

  /** The sort puts the head cell first exactly when no in-order idx leaves the 16-bit range;
      the sentinel is last in any case. */
  lemma HeadAndTail(size: nat, seed: S16, perm: seq<int>)
    requires size >= 3 && SortsByIdx(IdxsOf(InitEntries(size, seed)), Identity(size - 1), perm)
    ensures perm[size - 2] == size - 2
    ensures perm[0] == 0 <==> size / 5 <= 0x8000
  {
    hide IdxFor, InitData, SortsByIdx;
    var n := size - 1;
    var idxs := IdxsOf(InitEntries(size, seed));
    assert IsPermutation(perm, n) by { SortsIsPermutation(idxs, perm); }
    LastStays(idxs, perm);
    FirstStays(idxs, perm);
    if size / 5 <= 0x8000 {
      forall k | 0 <= k < n ensures idxs[0] <= idxs[k] {
        IdxForSign(k, size, seed);
      }
    } else {
      IdxForSign(0x8000, size, seed);
      assert idxs[0x8000] < idxs[0];
    }
  }

  lemma SortsIsPermutation(idxs: seq<int>, perm: seq<int>)
    requires SortsByIdx(idxs, Identity(|idxs|), perm)
    ensures IsPermutation(perm, |idxs|)
  {
  }

  lemma ChainOwnsItems(h: seq<ListHead>, d: seq<ListData>, n: nat, seed: S16)
    requires 1 <= n && Filled(h, d, n, seed) && Distinct(d)
    ensures OwnItems(BuiltChain(h, n))
  {
  }

  lemma ChainShows(h: seq<ListHead>, d: seq<ListData>, size: nat, seed: S16)
    requires size >= 3 && Filled(h, d, size - 1, seed)
    requires var s := BuiltChain(h, size - 1);
      forall k {:trigger s[k]} :: 0 <= k < |s| ==>
        s[k].info.idx == if 1 <= k < |s| - 1 then IdxFor(k, size, seed) else if k == 0 then 0 else 0x7fff
    ensures Shows(BuiltChain(h, size - 1), InitEntries(size, seed))
  {
    hide IdxFor, InitData;
  }

  /** All initial data agrees with its backup, so restoring it changes nothing. */
  lemma RestoredAlready(cells: seq<ListHead>, size: nat, seed: S16)
    requires size >= 3 && AllRestored(cells, InitEntries(size, seed)) && Traceable(cells, InitEntries(size, seed))
    ensures Shows(cells, InitEntries(size, seed))
  {
    hide IdxFor, ItemData;
    var es := InitEntries(size, seed);
    forall i | 0 <= i < |cells| ensures cells[i].info.data16 == es[i].data16 {
      assert es[i].data16 == InitData(seed, if i == 0 then 0 else size - 1 - i);
    }
  }

  /** The fake head and tail. */
  method FakeEnds(seed: S16, heads: array<ListHead>, datas: array<ListData>) returns (list: ListHead)
    requires heads.Length == datas.Length >= 3 && Distinct(heads[..]) && Distinct(datas[..])
    modifies heads[..], datas[..]
    ensures list == heads[0] && Linked(list, BuiltChain(heads[..], 2)) && Filled(heads[..], datas[..], 2, seed)
    ensures datas[0].idx == 0 && datas[1].idx == 0x7fff
  {
    hide Linked, BuiltChain;
    ghost var h := heads[..];
    assert datas[..][0] != datas[..][1] && h[0] != h[1];
    list := heads[0];
    list.next := null;
    list.info := datas[0];
    list.info.idx := 0;
    list.info.data16 := HEAD_DATA;
    FirstLink(h);
    ChainGrows(h, 1);
    var newitem, hi, di := InsertNew(list, TAIL_DATA, 0x7fff, heads, datas, 1, 1, BuiltChain(h, 1));
  }

  lemma FirstLink(h: seq<ListHead>)
    requires h != [] && h[0].next == null
    ensures Linked(h[0], BuiltChain(h, 1))
  {
    assert BuiltChain(h, 1) == [h[0]];
  }

  /** The fake head and tail, the items, and their idx: everything before the sort. */
  method Build(size: nat, seed: S16, heads: array<ListHead>, datas: array<ListData>) returns (list: ListHead)
    requires size == heads.Length == datas.Length >= 3 && Distinct(heads[..]) && Distinct(datas[..])
    modifies heads[..], datas[..]
    ensures list == heads[0] && Linked(list, BuiltChain(heads[..], size - 1))
    ensures Shows(BuiltChain(heads[..], size - 1), InitEntries(size, seed))
    ensures Filled(heads[..], datas[..], size - 1, seed)
  {
    hide IdxFor, InitData, Linked, Shows, Distinct;
    list := FakeEnds(seed, heads, datas);
    ghost var h, d := heads[..], datas[..];
    var hi, di := InsertItems(list, heads, datas, seed);
    ghost var chain := BuiltChain(h, hi);
    ChainOwnsItems(h, d, hi, seed);
    assert chain[0].info == d[0] && chain[|chain| - 1].info == d[1];
    NumberCells(list, size, seed, chain);
    ChainShows(h, d, size, seed);
  }

  /** core_list_init in a block of blksize bytes whose first SizeOf(blksize) cells and items are heads
      and datas. The list it returns holds all but the last of them, each cell with its own item, all
      data agreeing with its backup, by ascending idx, the sentinel last; the head stays first exactly
      while the in-order idx fit 16 bits. */
  method Init(blksize: U32, seed: S16, heads: array<ListHead>, datas: array<ListData>)
    returns (list: ListHead?, ghost perm: seq<int>)
    requires blksize / PER_ITEM >= 5
    requires SizeOf(blksize) == heads.Length == datas.Length && Distinct(heads[..]) && Distinct(datas[..])
    modifies heads[..], datas[..]
    ensures var n := SizeOf(blksize) - 1;
      var chain := BuiltChain(heads[..], n);
      && IsPermutation(perm, n) && Linked(list, Permuted(chain, perm))
      && Shows(chain, InitEntries(SizeOf(blksize), seed))
      && SortsByIdx(IdxsOf(InitEntries(SizeOf(blksize), seed)), Identity(n), perm)
    ensures forall h {:trigger heads[h]} :: 0 <= h < SizeOf(blksize) - 1 ==> heads[h].info == datas[h]
    ensures perm[SizeOf(blksize) - 2] == SizeOf(blksize) - 2
    ensures list == heads[0] <==> SizeOf(blksize) / 5 <= 0x8000
    ensures SizeOf(blksize) * (CELL_BYTES + ITEM_BYTES) <= blksize
  {
    hide IdxFor, InitData, Linked, Shows, SortsByIdx, AllRestored, Traceable, BuiltChain, InitEntries, Permuted, IdxsOf;
    var size: nat := SizeOf(blksize);
    var head := Build(size, seed, heads, datas);
    ghost var chain, es, n := BuiltChain(heads[..], size - 1), InitEntries(size, seed), size - 1;
    IdentityPermutes(chain);
    TraceableFromShows(chain, es);
    list, perm := SortByIndex(head, chain, es, Identity(n));
    RestoredAlready(chain, size, seed);
    ComposeIdentity(perm, n);
    HeadAndTail(size, seed, perm);
    HeadIsCell(chain, perm, list);
    ChainHeadIs(heads[..], n, perm[0]);
  }

  lemma ComposeIdentity(perm: seq<int>, n: nat)
    requires IsPermutation(perm, n)
    ensures Permuted(Identity(n), perm) == perm
  {
  }

  lemma ChainHeadIs(h: seq<ListHead>, n: nat, x: nat)
    requires 1 <= n <= |h| && Distinct(h) && x < n
    ensures BuiltChain(h, n)[x] == h[0] <==> x == 0
  {
  }

  // ----- whether the generated idx are distinct, as the benchmark's restoring sort needs

  lemma XorWithZero16(a: nat)
    requires a < 0x1_0000
    ensures Xor(a, 0, 16) == a
  {
    Pow2Of16();
    XorWithZero(a, 16);
  }

  lemma OrIntoClear(high: nat, pat: nat)
    requires high < 8 && pat < 0x100
    ensures OrInto(high, pat) == high * 0x100 + pat
  {
    assert Or3(high, 0) == high;
  }

  lemma IdxOfSeedZero(i: nat, size: nat)
    requires 1 <= i < 0x100
    ensures IdxFor(i, size, 0) == if i < size / 5 then i else (i + 1) % 8 * 0x100 + i
  {
    hide Xor, OrInto;
    XorWithZero16(i);
    OrIntoClear((i + 1) % 8, i);
  }

  /** With seed 0, as in the standard runs, the idx of up to 256 elements are distinct. */
  lemma SeedZeroIsDistinct(size: nat, j: nat, k: nat)
    requires 3 <= size <= 0x100 && j < k < size - 1
    ensures IdxsOf(InitEntries(size, 0))[j] != IdxsOf(InitEntries(size, 0))[k]
  {
    hide InitData, IdxFor;
    if j > 0 { IdxOfSeedZero(j, size); }
    if k < size - 2 { IdxOfSeedZero(k, size); }
  }

  /** Other seeds can give two cells the same idx: 31 elements (a 660-byte block) and seed 2. */
  lemma IdxCanCollide()
    ensures IdxFor(5, 31, 2) == IdxFor(7, 31, 2) == 5
  {
    hide Xor, OrInto;
    XorWithZero(0, 13);
    XorStep(1, 0, 14, 0);
    XorStep(3, 1, 15, 1);
    XorStep(7, 2, 16, 2);
    OrIntoClear(0, 5);
  }

  // ----- what that means for the benchmark step on such a list

  /** Sorted entries have strictly ascending idx exactly when no two idx were equal. */
  lemma SortedStrictly(es: seq<Entry>, perm: seq<int>)
    requires SortsByIdx(IdxsOf(es), Identity(|es|), perm)
    ensures IsPermutation(perm, |es|) && Nondecreasing(IdxsOf(Permuted(es, perm)))
    ensures StrictlyIncreasing(IdxsOf(Permuted(es, perm))) <==> Distinct(IdxsOf(es))
  {
    var idxs, after := IdxsOf(es), IdxsOf(Permuted(es, perm));
    assert forall i :: 0 <= i < |es| ==> after[i] == idxs[perm[i]];
    SortsIsPermutation(idxs, perm);
    forall i, j | 0 <= i < j < |es| ensures after[i] <= after[j] {
      PlacesInOrder(idxs, perm, i, j);
    }
    if StrictlyIncreasing(after) {
      forall x, y | 0 <= x < y < |es| ensures idxs[x] != idxs[y] {
        var i := PlaceOf(perm, |es|, x);
        var j := PlaceOf(perm, |es|, y);
        assert after[i] != after[j];
      }
    }
  }

  /** The calls of an iteration on a list from core_list_init leave it in its order, for every seed3, if and
      only if core_list_init has given all cells different idx. */
  lemma InitOrderRestored(size: nat, seed: S16, perm: seq<int>)
    requires size >= 4 && SortsByIdx(IdxsOf(InitEntries(size, seed)), Identity(size - 1), perm)
    ensures IsPermutation(perm, size - 1)
    ensures Distinct(IdxsOf(InitEntries(size, seed))) <==>
      forall seed3: S16 ::
        && KeepsOrder(Permuted(InitEntries(size, seed), perm), seed3, 1)
        && KeepsOrder(Permuted(InitEntries(size, seed), perm), seed3, -1)
  {
    hide InitEntries, SortsByIdx, KeepsOrder, IdxsOf;
    SortedStrictly(InitEntries(size, seed), perm);
    OrderAlwaysRestored(Permuted(InitEntries(size, seed), perm));
  }

  lemma PatternOfSeed2(i: nat)
    requires i % 8 == 0
    ensures Xor(2, i, 4) != 0
  {
    hide Xor;
    var half: nat := i / 2;
    assert half % 2 == 0;
    XorHalves(1, half, 3);
    assert (1 + half) % 2 == 1;
    assert Xor(2, i, 4) / 2 == Xor(1, half, 3) by { XorHalves(2, i, 4); }
  }

  /** With seed 2 no item has the low byte 0. */
  lemma NoLowByteIsZero(h: nat)
    ensures LowByte(InitData(2, h)) != 0
  {
    hide Xor;
    if h >= 2 {
      var i: nat := h - 2;
      if i % 8 == 0 { PatternOfSeed2(i); }
    }
  }

  /** So the list of 31 elements and seed 2 is one that the second of the two calls in an iteration,
      core_bench_list(res, -1), does not put back, with seed3 1. */
  lemma InitListNotRestored(perm: seq<int>, before: seq<int>, mid: seq<Entry>)
    requires SortsByIdx(IdxsOf(InitEntries(31, 2)), Identity(30), perm) && InRange(perm, 30)
    requires MayPrecede(Permuted(InitEntries(31, 2), perm), 1, -1, before, mid)
    ensures !Restorable(Permuted(InitEntries(31, 2), perm), before)
  {
    hide InitData, IdxFor, FindRounds, TiesKept, FirstMatch;
    var es, snap := InitEntries(31, 2), Permuted(InitEntries(31, 2), perm);
    assert IsPermutation(perm, 30) by { SortsIsPermutation(IdxsOf(es), perm); }
    var a := PlaceOf(perm, 30, 5);
    var b := PlaceOf(perm, 30, 7);
    IdxCanCollide();
    forall i | 0 <= i < 30 ensures !Matches(snap[i].data16, snap[i].idx, 0, -1) {
      NoLowByteIsZero(if perm[i] == 0 then 0 else 30 - perm[i]);
    }
    FirstMatchIs(snap, 0, -1, 30);
    OneSearchTurns(snap, -1, if a < b then a else b, if a < b then b else a);
  }

  // ----- initialisation and a benchmark step, end to end

  lemma ItemsOfChain(heads: array<ListHead>, datas: array<ListData>, n: nat, perm: seq<int>)
    requires 1 <= n <= heads.Length && n <= datas.Length && IsPermutation(perm, n)
    requires forall h {:trigger heads[h]} :: 0 <= h < n ==> heads[h].info == datas[h]
    ensures var cells := Permuted(BuiltChain(heads[..], n), perm);
      forall i :: 0 <= i < |cells| ==> cells[i] in heads[..] && cells[i].info in datas[..]
  {
    var chain := BuiltChain(heads[..], n);
    var cells := Permuted(chain, perm);
    forall i | 0 <= i < |cells| ensures cells[i] in heads[..] && cells[i].info in datas[..] {
      var h := if perm[i] == 0 then 0 else n - perm[i];
      assert cells[i] == chain[perm[i]] == heads[h];
      assert heads[..][h] == cells[i] && datas[..][h] == cells[i].info;
    }
  }

  lemma AllBacked(size: nat, seed: S16, perm: seq<int>)
    requires size >= 3 && InRange(perm, size - 1)
    ensures Backed(Permuted(InitEntries(size, seed), perm))
  {
    hide InitData, IdxFor;
    var es := InitEntries(size, seed);
    forall i | 0 <= i < |perm| ensures Restored(Permuted(es, perm)[i].data16) {
      assert es[perm[i]].data16 == InitData(seed, if perm[i] == 0 then 0 else size - 1 - perm[i]);
    }
  }

  /** A benchmark step on a list whose data agree with their backup. */
  method BenchBacked(list: ListHead, seed3: S16, finderIdx: S16, data0: U16, ghost cells: seq<ListHead>,
                     ghost snap: seq<Entry>)
    returns (retval: Crc.Word, ghost run: BenchRun)
    requires Linked(list, cells) && |snap| == |cells| >= 3 && Shows(cells, snap)
    requires Backed(snap)
    modifies cells, Infos(cells)`data16
    ensures MayPrecede(snap, seed3, finderIdx, run.before, run.mid) && Shows(cells, snap)
    ensures Linked(list, cells) <==> Restorable(snap, run.before)
  {
    hide Shows, Linked, Permuted, MayPrecede, Restorable, AllRestored, Traceable, EachOnce, Uncached, FindRounds,
      IsPermutation, Backed;
    var res := new CoreResults(list, seed3);
    assert Linked(list, cells) && Shows(cells, snap);
    var last;
    retval, last, run := BenchList(res, finderIdx, data0, cells, snap);
  }

  /** core_list_init and one core_bench_list on its list. Every item has its data again; the cells follow
      each other as they did exactly under the condition above. */
  method InitAndBench(blksize: U32, seed: S16, heads: array<ListHead>, datas: array<ListData>, seed3: S16,
                      finderIdx: S16, data0: U16)
    returns (retval: Crc.Word, ghost cells: seq<ListHead>, ghost snap: seq<Entry>, ghost perm: seq<int>,
             ghost run: BenchRun)
    requires blksize / PER_ITEM >= 6
    requires SizeOf(blksize) == heads.Length == datas.Length && Distinct(heads[..]) && Distinct(datas[..])
    modifies heads[..], datas[..]
    ensures SortsByIdx(IdxsOf(InitEntries(SizeOf(blksize), seed)), Identity(SizeOf(blksize) - 1), perm)
    ensures IsPermutation(perm, SizeOf(blksize) - 1)
    ensures cells == Permuted(BuiltChain(heads[..], SizeOf(blksize) - 1), perm)
    ensures snap == Permuted(InitEntries(SizeOf(blksize), seed), perm)
    ensures MayPrecede(snap, seed3, finderIdx, run.before, run.mid)
    ensures Shows(cells, snap) && (Linked(cells[0], cells) <==> Restorable(snap, run.before))
  {
    hide InitEntries, BuiltChain, SortsByIdx, Shows, Linked, Permuted, IdxsOf, MayPrecede, Restorable, Distinct, Backed;
    ghost var size: nat, h, d := SizeOf(blksize), heads[..], datas[..];
    var list;
    list, perm := Init(blksize, seed, heads, datas);
    assert heads[..] == h && datas[..] == d;
    ghost var chain, es := BuiltChain(heads[..], size - 1), InitEntries(size, seed);
    cells, snap := Permuted(chain, perm), Permuted(es, perm);
    ItemsOfChain(heads, datas, size - 1, perm);
    ShowsInOrder(chain, es, perm);
    FirstIsHead(cells, list);
    AllBacked(size, seed, perm);
    retval, run := BenchBacked(list, seed3, finderIdx, data0, cells, snap);
  }

  /** core_list_init and iterate on its list. If all cells have got different idx, the list and all its data
      are at the end as core_list_init has made them, whatever seed3 and the number of iterations are. */
  method InitAndIterate(blksize: U32, seed: S16, heads: array<ListHead>, datas: array<ListData>, seed3: S16,
                        iterations: U32)
    returns (crc: Crc.Word, crclist: Crc.Word, ghost cells: seq<ListHead>, ghost snap: seq<Entry>, ghost perm: seq<int>,
             ghost calls: seq<Call>)
    requires blksize / PER_ITEM >= 6
    requires SizeOf(blksize) == heads.Length == datas.Length && Distinct(heads[..]) && Distinct(datas[..])
    requires Distinct(IdxsOf(InitEntries(SizeOf(blksize), seed)))
    modifies heads[..], datas[..]
    ensures SortsByIdx(IdxsOf(InitEntries(SizeOf(blksize), seed)), Identity(SizeOf(blksize) - 1), perm)
    ensures IsPermutation(perm, SizeOf(blksize) - 1)
    ensures cells == Permuted(BuiltChain(heads[..], SizeOf(blksize) - 1), perm)
    ensures snap == Permuted(InitEntries(SizeOf(blksize), seed), perm)
    ensures Linked(cells[0], cells) && Shows(cells, snap)
    ensures |calls| == 2 * iterations && crc == CallsCrc(calls)
    ensures crclist == if iterations == 0 then Zero() else CallsCrc(calls[..2])
  {
    hide InitEntries, BuiltChain, SortsByIdx, Shows, Linked, Permuted, IdxsOf, Distinct, Backed, KeepsOrder, AllSteps,
      CallsCrc, Zero, Before, FinderOf, StrictlyIncreasing;
    ghost var size: nat, h, d := SizeOf(blksize), heads[..], datas[..];
    var list;
    list, perm := Init(blksize, seed, heads, datas);
    assert heads[..] == h && datas[..] == d;
    ghost var chain, es := BuiltChain(heads[..], size - 1), InitEntries(size, seed);
    cells, snap := Permuted(chain, perm), Permuted(es, perm);
    ItemsOfChain(heads, datas, size - 1, perm);
    ShowsInOrder(chain, es, perm);
    FirstIsHead(cells, list);
    SortedStrictly(es, perm);
    AllBacked(size, seed, perm);
    crc, crclist, calls := IterateBacked(list, seed3, iterations, cells, snap);
  }

  /** iterate on a list of different idx whose data agree with their backup. */
  method IterateBacked(list: ListHead, seed3: S16, iterations: U32, ghost cells: seq<ListHead>, ghost snap: seq<Entry>)
    returns (crc: Crc.Word, crclist: Crc.Word, ghost calls: seq<Call>)
    requires Linked(list, cells) && |snap| == |cells| >= 3 && Shows(cells, snap)
    requires Backed(snap) && StrictlyIncreasing(IdxsOf(snap))
    modifies cells, Infos(cells)`data16
    ensures Linked(list, cells) && Shows(cells, snap)
    ensures |calls| == 2 * iterations && crc == CallsCrc(calls)
    ensures crclist == if iterations == 0 then Zero() else CallsCrc(calls[..2])
  {
    hide Linked, Shows, KeepsOrder, AllSteps, CallsCrc, Zero, Before, FinderOf, StrictlyIncreasing, Backed;
    var res := new CoreResults(list, seed3);
    ghost var items := seq(|cells|, i requires 0 <= i < |cells| reads cells => cells[i].info);
    IterationsKeepOrder(snap);
    BackedBefore(snap, iterations);
    crclist, calls := Iterate(res, iterations, cells, items, snap);
    crc := res.crc;
  }

  lemma BackedBefore(snap: seq<Entry>, k: nat)
    requires Backed(snap)
    ensures Before(snap, k) == snap
  {
  }
}
