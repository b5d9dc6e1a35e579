/** What core_bench_list returns: what each search adds to the accumulated value, and which message its CRC is
    over. */
module ListValue {
  import opened Crc
  import opened CrcTheory
  import opened MachineTypes
  import opened ListCells
  import opened ListSort
  import opened ListFind
  import opened ListBench

  // ----- the searches

  /** The bit of this weight in the data of an item. */
  function DataBit(e: Entry, weight: nat): nat
    requires weight > 0
  {
    Pack(e.data16) / weight % 2
  }

  lemma DataBits(e: Entry)
    ensures DataBit(e, 1) == e.data16.low % 2
    ensures DataBit(e, 0x100) == e.data16.upper % 2 && DataBit(e, 0x200) == e.data16.upper / 2 % 2
  {
    assert Pack(e.data16) / 0x100 == e.data16.upper;
    assert Pack(e.data16) / 0x200 == e.data16.upper / 2;
  }

  lemma WrapOnce(x: int, y: int)
    ensures (x % 0x1_0000 + y) % 0x1_0000 == (x + y) % 0x1_0000
  {
  }

  /** The place that a round finds, or the length. */
  ghost function FoundAt(snap: seq<Entry>, f: Finding, i: nat): (k: nat)
    requires IsPermutation(f.order, |snap|)
    ensures k <= |snap|
  {
    FirstMatch(Permuted(snap, f.order), i % 0x100, f.idx)
  }

  /** What a search looks for: an idx that is not negative, or else a low byte. */
  predicate Wanted(e: Entry, data: U16, idx: S16) {
    if idx < 0 then Pack(e.data16) % 0x100 == data else e.idx == idx
  }

  lemma WantedMatches(e: Entry, data: U16, idx: S16)
    ensures Wanted(e, data, idx) <==> Matches(e.data16, e.idx, data, idx)
  {
    assert Pack(e.data16) % 0x100 == LowByte(e.data16);
  }

  /** Item k is the first that is wanted; k is the length if none is. */
  ghost predicate IsFirst(es: seq<Entry>, k: nat, data: U16, idx: S16) {
    && k <= |es|
    && (forall i :: 0 <= i < k ==> !Wanted(es[i], data, idx))
    && (k < |es| ==> Wanted(es[k], data, idx))
  }

  /** Round i looks for the number i modulo 256, or for the idx of the round. */
  lemma FoundIsFirst(snap: seq<Entry>, f: Finding, i: nat)
    requires IsPermutation(f.order, |snap|)
    ensures IsFirst(Permuted(snap, f.order), FoundAt(snap, f, i), i % 0x100, f.idx)
  {
    hide Matches, Wanted, FirstMatch, Permuted;
    var es := Permuted(snap, f.order);
    FirstMatchFits(es, i % 0x100, f.idx);
    forall k | 0 <= k < |es|
      ensures Wanted(es[k], i % 0x100, f.idx) <==> Matches(es[k].data16, es[k].idx, i % 0x100, f.idx)
    {
      WantedMatches(es[k], i % 0x100, f.idx);
    }
  }

  lemma NothingYet(n: nat, finderIdx: S16)
    ensures FindValue(Start(n, finderIdx)) == 0
  {
  }

  /** A hit counts 4, and bit 9 of the found item if its bit 0 is set. */
  lemma HitAdds(snap: seq<Entry>, f: Finding, i: nat)
    requires IsPermutation(f.order, |snap|) && |snap| >= 2 && FoundAt(snap, f, i) < |snap|
    ensures var item := snap[f.order[FoundAt(snap, f, i)]];
      FindValue(FindStep(snap, f, i)) ==
      (FindValue(f) + 4 + if DataBit(item, 1) == 1 then DataBit(item, 0x200) else 0) % 0x1_0000
  {
    hide FirstMatch, NextOrder;
    var g: int := Gain(snap, f.order, FoundAt(snap, f, i));
    DataBits(snap[f.order[FoundAt(snap, f, i)]]);
    WrapOnce(f.retval + g, 4 * (f.found + 1) - f.missed);
    WrapOnce(f.retval + 4 * f.found - f.missed, 4 + g);
  }

  /** A miss adds bit 8 of the second item of the list as it is then, and takes off 1. */
  lemma MissAdds(snap: seq<Entry>, f: Finding, i: nat)
    requires IsPermutation(f.order, |snap|) && |snap| >= 2 && FoundAt(snap, f, i) == |snap|
    ensures var next := FindStep(snap, f, i);
      FindValue(next) == (FindValue(f) + DataBit(snap[next.order[1]], 0x100) - 1) % 0x1_0000
  {
    hide FirstMatch, NextOrder;
    var g: int := Gain(snap, f.order, |snap|);
    NextAt(f.order, |snap|, 1);
    DataBits(snap[f.order[|snap| - 2]]);
    WrapOnce(f.retval + g, 4 * f.found - (f.missed + 1));
    WrapOnce(f.retval + 4 * f.found - f.missed, g - 1);
  }

  /** The sum of those bits over n rounds. */
  ghost function SecondBits(snap: seq<Entry>, f: Finding, n: nat): nat
    requires IsPermutation(f.order, |snap|) && |snap| >= 2
  {
    if n == 0 then 0 else SecondBits(snap, f, n - 1) + DataBit(snap[FindRounds(snap, f, n).order[1]], 0x100)
  }

  /** Rounds that all miss. */
  lemma {:induction false} MissesAdd(snap: seq<Entry>, f: Finding, n: nat)
    requires IsPermutation(f.order, |snap|) && |snap| >= 2
    requires forall i :: 0 <= i < n ==> FoundAt(snap, FindRounds(snap, f, i), i) == |snap|
    ensures FindValue(FindRounds(snap, f, n)) == (FindValue(f) + SecondBits(snap, f, n) - n) % 0x1_0000
  {
    hide FindStep, FindValue, FoundAt, DataBit;
    if n > 0 {
      MissesAdd(snap, f, n - 1);
      MissAdds(snap, FindRounds(snap, f, n - 1), n - 1);
      var v: int, sum: int, bit: int :=
        FindValue(f), SecondBits(snap, f, n - 1), DataBit(snap[FindRounds(snap, f, n).order[1]], 0x100);
      WrapOnce(v + sum - (n - 1), bit - 1);
    }
  }

  /** The idx looked for after n rounds: it counts up to the largest 16-bit number, and a negative one stays. */
  lemma {:induction false} IdxAfter(snap: seq<Entry>, f: Finding, n: nat)
    requires IsPermutation(f.order, |snap|) && |snap| >= 2 && n < 0x8000
    ensures FindRounds(snap, f, n).idx ==
      if f.idx < 0 then f.idx else if f.idx + n < 0x8000 then f.idx + n else -0x8000
  {
    hide FindStep;
    if n > 0 {
      IdxAfter(snap, f, n - 1);
      IdxOfStep(snap, FindRounds(snap, f, n - 1), n - 1);
    }
  }

  lemma IdxOfStep(snap: seq<Entry>, f: Finding, i: nat)
    requires IsPermutation(f.order, |snap|) && |snap| >= 2
    ensures FindStep(snap, f, i).idx == NextIdx(f.idx)
  {
    hide FirstMatch, NextOrder, Gain, NextIdx;
  }

  // ----- the checks

  ghost function Repeated(word: seq<bool>, n: nat): seq<bool> {
    if n == 0 then [] else Repeated(word, n - 1) + word
  }

  lemma {:induction false} RepeatIsFed(v: U16, n: nat, crc: Word)
    ensures CrcRepeat(v, n, crc) == Feed(Repeated(LowBits(v, 16), n), crc)
  {
    if n > 0 {
      RepeatIsFed(v, n - 1, crc);
      WordIsFeed(v, CrcRepeat(v, n - 1, crc));
      FeedAppend(Repeated(LowBits(v, 16), n - 1), LowBits(v, 16), crc);
    }
  }

  /** The check without the second item runs from the first item that matches, or, when none does, from the one
      behind the head. */
  lemma CheckedCells(es: seq<Entry>, k: nat, wantData: U16, wantIdx: S16)
    requires |es| >= 3 && IsFirst([es[0]] + es[2..], k, wantData, wantIdx)
    ensures CheckLength(es, wantData, wantIdx) == if k < |es| - 1 then |es| - 1 - k else |es| - 2
  {
    hide Matches, Wanted;
    var rest := [es[0]] + es[2..];
    forall i | 0 <= i < |rest|
      ensures Wanted(rest[i], wantData, wantIdx) <==> Matches(rest[i].data16, rest[i].idx, wantData, wantIdx)
    {
      WantedMatches(rest[i], wantData, wantIdx);
    }
    FirstMatchIs(rest, wantData, wantIdx, k);
  }

  /** What core_bench_list returns is the CRC, begun with the accumulated value, of the data of the head as often
      as the first check meets cells, and of the data of the final head once for every cell behind it. */
  lemma ValueIsCrc(run: BenchRun, finalHead: Data16)
    requires |run.mid| >= 3
    ensures var first := Repeated(LowBits(Pack(run.mid[0].data16), 16), CheckLength(run.mid, run.data, run.find.idx));
      var second := Repeated(LowBits(Pack(finalHead), 16), |run.mid| - 1);
      BenchValue(run, finalHead) == Feed(first + second, LowBits(FindValue(run.find), 16))
  {
    hide CrcRepeat, Repeated, Feed, LowBits, Pack, CheckLength, FindValue;
    var crc, n := LowBits(FindValue(run.find), 16), CheckLength(run.mid, run.data, run.find.idx);
    var first, second := LowBits(Pack(run.mid[0].data16), 16), LowBits(Pack(finalHead), 16);
    RepeatIsFed(Pack(run.mid[0].data16), n, crc);
    RepeatIsFed(Pack(finalHead), |run.mid| - 1, CrcRepeat(Pack(run.mid[0].data16), n, crc));
    FeedAppend(Repeated(first, n), Repeated(second, |run.mid| - 1), crc);
  }
}
