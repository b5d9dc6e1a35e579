/** The linked list of the list benchmark: cells, data items, and the small in-place operations
    (find, reverse, remove, undo-remove) of core_list_join.c. */
module ListCells {
  import opened MachineTypes
  import opened Sequences

  /** The layout of data16: the upper byte backs up the lower, bit 7 says that the lower seven bits are
      a cached value, bits 3-6 are data for an operation and bits 0-2 select it. */
  datatype Data16 = Data16(upper: Byte, cached: bool, low: Bits7)
  type Bits7 = x: int | 0 <= x < 0x80

  function LowByte(d: Data16): Byte {
    (if d.cached then 0x80 else 0) + d.low
  }

  function Pack(d: Data16): U16 {
    d.upper * 0x100 + LowByte(d)
  }

  function Unpack(x: U16): Data16 {
    Data16(x / 0x100, x / 0x80 % 2 == 1, x % 0x80)
  }

  /** The layout loses nothing of the 16 bits. */
  lemma LayoutIsExact(x: U16, d: Data16)
    ensures Pack(Unpack(x)) == x && Unpack(Pack(d)) == d
  {
  }

  class ListData {
    var data16: Data16
    var idx: S16

    constructor (data16: Data16, idx: S16)
      ensures this.data16 == data16 && this.idx == idx
    {
      this.data16, this.idx := data16, idx;
    }
  }

  class ListHead {
    var next: ListHead?
    var info: ListData

    constructor (info: ListData)
      ensures this.info == info && next == null
    {
      this.info, next := info, null;
    }
  }

  /** The cell at position i, or null when the list ends before it. */
  ghost function At(cells: seq<ListHead>, i: nat): ListHead? {
    if i < |cells| then cells[i] else null
  }

  ghost predicate Distinct<T>(s: seq<T>) {
    forall i, j :: 0 <= i < j < |s| ==> s[i] != s[j]
  }

  /** Following next from head visits exactly these cells, each once, and ends at null. */
  ghost predicate Linked(head: ListHead?, cells: seq<ListHead>)
    reads cells`next
  {
    && head == At(cells, 0)
    && Distinct(cells)
    && forall i {:trigger cells[i].next} :: 0 <= i < |cells| ==> cells[i].next == At(cells, i + 1)
  }

  ghost function Infos(cells: seq<ListHead>): set<ListData>
    reads cells`info
  {
    set c | c in cells :: c.info
  }

  /** core_list_reverse. */
  method Reverse(list: ListHead?, ghost cells: seq<ListHead>) returns (head: ListHead?)
    requires Linked(list, cells)
    modifies cells`next
    ensures Linked(head, Reversed(cells))
  {
    var list := list;
    var next: ListHead? := null;
    ghost var k := 0;
    while list != null
      invariant 0 <= k <= |cells|
      invariant list == At(cells, k)
      invariant next == if k == 0 then null else cells[k - 1]
      invariant forall i {:trigger cells[i].next} :: k <= i < |cells| ==> cells[i].next == At(cells, i + 1)
      invariant forall i {:trigger cells[i].next} :: 0 <= i < k ==>
        cells[i].next == if i == 0 then null else cells[i - 1]
      decreases |cells| - k
    {
      var tmp := list.next;
      list.next := next;
      next := list;
      list := tmp;
      k := k + 1;
    }
    head := next;
  }

  /** The test core_list_find stops at: by idx when the wanted idx is not negative, by low byte otherwise. */
  predicate Matches(data16: Data16, idx: S16, wantData: U16, wantIdx: S16) {
    if wantIdx >= 0 then idx == wantIdx else LowByte(data16) == wantData
  }

  ghost predicate CellMatches(c: ListHead, wantData: U16, wantIdx: S16)
    reads c, c.info
  {
    Matches(c.info.data16, c.info.idx, wantData, wantIdx)
  }

  /** core_list_find: the first matching cell, or null when no cell matches. */
  method Find(list: ListHead?, wantData: U16, wantIdx: S16, ghost cells: seq<ListHead>)
    returns (found: ListHead?, ghost k: nat)
    requires Linked(list, cells)
    ensures k <= |cells| && found == At(cells, k)
    ensures forall i :: 0 <= i < k ==> !CellMatches(cells[i], wantData, wantIdx)
    ensures k < |cells| ==> CellMatches(cells[k], wantData, wantIdx)
    ensures found != null ==> found in cells && CellMatches(found, wantData, wantIdx)
    ensures found == null ==> forall c :: c in cells ==> !CellMatches(c, wantData, wantIdx)
  {
    found, k := list, 0;
    if wantIdx >= 0 {
      while found != null && found.info.idx != wantIdx
        invariant k <= |cells| && found == At(cells, k)
        invariant forall i :: 0 <= i < k ==> !CellMatches(cells[i], wantData, wantIdx)
        decreases |cells| - k
      {
        found := found.next;
        k := k + 1;
      }
    } else {
      while found != null && LowByte(found.info.data16) != wantData
        invariant k <= |cells| && found == At(cells, k)
        invariant forall i :: 0 <= i < k ==> !CellMatches(cells[i], wantData, wantIdx)
        decreases |cells| - k
      {
        found := found.next;
        k := k + 1;
      }
    }
  }

  /** core_list_remove on the cell at position k: the data items of that cell and the next are
      exchanged and the next cell leaves the list carrying the removed item. */
  method Remove(item: ListHead, ghost head: ListHead?, ghost cells: seq<ListHead>, ghost k: nat)
    returns (removed: ListHead)
    requires Linked(head, cells)
    requires k + 1 < |cells| && item == cells[k]
    modifies cells[k], cells[k + 1]
    ensures removed == cells[k + 1] && removed.next == null
    ensures Linked(head, cells[..k + 1] + cells[k + 2..])
    ensures cells[k].info == old(cells[k + 1].info)
    ensures removed.info == old(cells[k].info)
  {
    removed := item.next;
    var tmp := item.info;
    item.info := removed.info;
    removed.info := tmp;
    item.next := item.next.next;
    removed.next := null;
    assert forall i {:trigger cells[i].next} :: k + 2 <= i < |cells| ==> cells[i].next == At(cells, i + 1);
  }

  /** core_list_undo_remove on the cell at position k. */
  method UndoRemove(removed: ListHead, modified: ListHead, ghost head: ListHead?, ghost cells: seq<ListHead>,
                    ghost k: nat)
    returns (linked: ListHead)
    requires Linked(head, cells)
    requires k < |cells| && modified == cells[k] && removed !in cells
    modifies removed, modified
    ensures linked == removed
    ensures Linked(head, cells[..k + 1] + [removed] + cells[k + 1..])
    ensures removed.info == old(modified.info) && modified.info == old(removed.info)
  {
    var tmp := removed.info;
    removed.info := modified.info;
    modified.info := tmp;
    removed.next := modified.next;
    modified.next := removed;
    linked := removed;
    assert forall i {:trigger cells[i].next} :: k + 1 <= i < |cells| ==> cells[i].next == At(cells, i + 1);
  }
}
