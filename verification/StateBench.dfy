/** core_bench_state: scan the block, corrupt it, scan it again, undo the corruption. */
module StateBench {
  import opened Bitwise
  import opened BitPlaces
  import opened Crc
  import opened Division
  import opened MachineTypes
  import opened Scanner
  import opened ScannerTheory
  import opened StateInit

  // ----- one scan of the whole block

  ghost predicate Tracked(was: seq<U32>, ts: seq<Token>, now: seq<U32>) {
    && |was| == |now| == 8
    && forall k: State :: now[Index(k)] == Wrap32(was[Index(k)] + Track(ts, k))
  }

  ghost predicate Finished(was: seq<U32>, ts: seq<Token>, now: seq<U32>) {
    && |was| == |now| == 8
    && forall k: State :: now[Index(k)] == Wrap32(was[Index(k)] + Final(ts, k))
  }

  lemma NoTokens(was: seq<U32>)
    requires |was| == 8
    ensures Tracked(was, [], was) && Finished(was, [], was)
  {
    forall k: State { WrapAfter(was[Index(k)], 0, 0); }
  }

  lemma OneMoreToken(was: seq<U32>, ts: seq<Token>, mid: seq<U32>, t: Token, now: seq<U32>)
    requires Tracked(was, ts, mid) && Tallied(mid, t.bytes, now)
    ensures Tracked(was, ts + [t], now)
  {
    hide Wrap32, Tally;
    assert (ts + [t])[..|ts|] == ts;
    forall k: State { WrapAfter(was[Index(k)], Track(ts, k), Tally(t.bytes, k)); }
  }

  lemma OneMoreFinished(was: seq<U32>, ts: seq<Token>, mid: seq<U32>, t: Token)
    requires Finished(was, ts, mid)
    ensures Finished(was, ts + [t], PlusOne(mid, t.kind))
  {
    hide Wrap32;
    assert (ts + [t])[..|ts|] == ts;
    forall k: State
      ensures PlusOne(mid, t.kind)[Index(k)] == Wrap32(was[Index(k)] + Final(ts + [t], k))
    {
      WrapAfter(was[Index(k)], Final(ts, k), if t.kind == k then 1 else 0);
      assert k != t.kind ==> Index(k) != Index(t.kind);
    }
  }

  lemma OneToken(text: seq<Byte>, p: nat)
    requires Terminated(text, p) && text[p] != NUL
    ensures var t := TokenAt(text, p);
      && p < t.end < |text| && Terminated(text, t.end)
      && Tokens(text, p) == [t] + Tokens(text, t.end)
  {
    TokenVerdict(text, p);
    hide IsInt, IsFloat, IsScientific, Scan, FieldEnd, TokenAt;
  }

  /** One of the two loops over the input. */
  method ScanBlock(block: array<Byte>, tracks: array<U32>, finals: array<U32>)
    requires tracks.Length == finals.Length == 8 && tracks != finals
    requires Terminated(block[..], 0)
    modifies tracks, finals
    ensures block[..] == old(block[..])
    ensures Tracked(old(tracks[..]), Tokens(block[..], 0), tracks[..])
    ensures Finished(old(finals[..]), Tokens(block[..], 0), finals[..])
  {
    assert block.Length > 0;
    hide Tallied, Tracked, Finished, PlusOne, TokenAt, Terminated;
    ghost var text, done: seq<Token> := block[..], [];
    var p := 0;
    NoTokens(tracks[..]);
    NoTokens(finals[..]);
    while block[p] != NUL
      invariant block[..] == text && p < |text|
      invariant Terminated(text, p) && Tokens(text, 0) == done + Tokens(text, p)
      invariant Tracked(old(tracks[..]), done, tracks[..])
      invariant Finished(old(finals[..]), done, finals[..])
      decreases |text| - p
    {
      ghost var t, mid, ends := TokenAt(text, p), tracks[..], finals[..];
      OneToken(text, p);
      assert done + ([t] + Tokens(text, t.end)) == done + [t] + Tokens(text, t.end);
      var fstate;
      p, fstate := Transition(block, p, tracks);
      Increment(finals, fstate);
      OneMoreToken(old(tracks[..]), done, mid, t, tracks[..]);
      OneMoreFinished(old(finals[..]), done, ends, t);
      done := done + [t];
    }
    assert Tokens(text, p) == [] && done + [] == done;
  }

  // ----- corruption

  /** The seed as a byte. */
  function ByteOf(seed: S16): Byte {
    seed % 0x100
  }

  function XorByte(c: Byte, x: Byte): (r: Byte) {
    Pow2Of8();
    Bitwise.Xor(c, x, 8)
  }

  lemma Pow2Of8()
    ensures Pow2(8) == 0x100
  {
    assert Pow2(4) == 0x10;
  }

  function Flip(c: Byte, x: Byte): Byte {
    if c == COMMA then c else XorByte(c, x)
  }

  /** Every step-th byte flipped, commas left alone. */
  function Corrupted(text: seq<Byte>, x: Byte, step: nat): (r: seq<Byte>)
    requires step > 0
    ensures |r| == |text|
  {
    seq(|text|, i requires 0 <= i < |text| => if i % step == 0 then Flip(text[i], x) else text[i])
  }

  /** Bit by bit: the visited bytes but commas are exclusively ored, and the others stay. */
  lemma CorruptedByBits(text: seq<Byte>, x: Byte, step: nat, i: nat, k: nat)
    requires step > 0 && i < |text| && k < 8
    ensures BitIn(Corrupted(text, x, step)[i], k) ==
      if i % step == 0 && text[i] != COMMA then (BitIn(text[i], k) + BitIn(x, k)) % 2 else BitIn(text[i], k)
  {
    hide BitIn, Bitwise.Xor;
    BitOfXor(text[i], x, 8, k);
  }

  /** After a visited position the next one is a step further, and there is none between. */
  lemma NextStep(p: nat, d: nat, step: nat)
    requires 0 < d <= step && p % step == 0
    ensures (p + d) % step == 0 <==> d == step
  {
    assert p == step * (p / step) + p % step;
    assert step * (p / step + 1) == step * (p / step) + step;
    if d == step {
      QuotientIs(p + d, step, p / step + 1, 0);
    } else {
      QuotientIs(p + d, step, p / step, d);
    }
  }

  /** One of the two loops over the block. */
  method Corrupt(block: array<Byte>, seed: S16, step: nat)
    requires step > 0
    modifies block
    ensures block[..] == Corrupted(old(block[..]), ByteOf(seed), step)
  {
    hide XorByte;
    var p := 0;
    while p < block.Length
      invariant p % step == 0
      invariant forall i :: 0 <= i < p && i < block.Length ==>
        block[i] == Corrupted(old(block[..]), ByteOf(seed), step)[i]
      invariant forall i :: p <= i < block.Length ==> block[i] == old(block[i])
    {
      if block[p] != COMMA {
        block[p] := XorByte(block[p], ByteOf(seed));
      }
      forall i | p < i < p + step ensures i % step != 0 { NextStep(p, i - p, step); }
      NextStep(p, step, step);
      p := p + step;
    }
  }

  /** The undoing pass restores the block exactly when every byte it visits was a comma, or the two
      seeds agree in their low byte and flipping did not make a comma. */
  lemma Restoration(text: seq<Byte>, x: Byte, y: Byte, step: nat)
    requires step > 0
    ensures Corrupted(Corrupted(text, x, step), y, step) == text <==>
      forall i :: 0 <= i < |text| && i % step == 0 ==> text[i] == COMMA || (x == y && XorByte(text[i], x) != COMMA)
  {
    forall i | 0 <= i < |text|
      ensures Corrupted(Corrupted(text, x, step), y, step)[i] == text[i] <==>
        (i % step == 0 ==> text[i] == COMMA || (x == y && XorByte(text[i], x) != COMMA))
    {
      FlipTwice(text[i], x, y);
      hide Flip, XorByte;
    }
    hide Flip, XorByte;
  }

  lemma FlipTwice(c: Byte, x: Byte, y: Byte)
    ensures Flip(Flip(c, x), y) == c <==> c == COMMA || (x == y && XorByte(c, x) != COMMA)
  {
    Pow2Of8();
    XorTwice(c, x, y, 8);
    hide Bitwise.Xor;
  }

  /** Of two adjacent NULs at least one survives any corruption with a step of 2 or more. */
  lemma NulSurvives(text: seq<Byte>, x: Byte, step: nat, k: nat)
    requires step >= 2 && k + 1 < |text| && text[k] == text[k + 1] == NUL
    ensures Terminated(text, 0) && Terminated(Corrupted(text, x, step), 0)
  {
    var r := Corrupted(text, x, step);
    if k % step == 0 {
      NextStep(k, 1, step);
      assert r[k + 1] == NUL;
    } else {
      assert r[k] == NUL;
    }
  }

  // ----- the benchmark

  function StateOf(i: nat): (st: State)
    requires i < 8
    ensures Index(st) == i
  {
    match i
    case 0 => Start
    case 1 => Invalid
    case 2 => S1
    case 3 => S2
    case 4 => Int
    case 5 => Float
    case 6 => Exponent
    case _ => Scientific
  }

  /** The crc after the first i final counts and transition counts of the tokens. */
  ghost function CountsCrc(ts: seq<Token>, crc: Word, i: nat): Word
    requires i <= 8
  {
    if i == 0 then crc
    else
      var st := StateOf(i - 1);
      CrcLong(Wrap32(Track(ts, st)), CrcLong(Wrap32(Final(ts, st)), CountsCrc(ts, crc, i - 1)))
  }

  /** All tokens of both scans, in the order they are met. */
  ghost function BenchTokens(text: seq<Byte>, x: Byte, step: nat): seq<Token>
    requires step > 0 && Terminated(text, 0) && Terminated(Corrupted(text, x, step), 0)
  {
    Tokens(text, 0) + Tokens(Corrupted(text, x, step), 0)
  }

  /** core_bench_state on a block of which a NUL survives the corruption. */
  method BenchState(block: array<Byte>, seed1: S16, seed2: S16, step: nat, crc: Word) returns (r: Word)
    requires step > 0
    requires Terminated(block[..], 0) && Terminated(Corrupted(block[..], ByteOf(seed1), step), 0)
    modifies block
    ensures block[..] == Corrupted(Corrupted(old(block[..]), ByteOf(seed1), step), ByteOf(seed2), step)
    ensures r == CountsCrc(BenchTokens(old(block[..]), ByteOf(seed1), step), crc, 8)
  {
    hide Tracked, Finished, Corrupted, Terminated, ByteOf, Track, Final, CrcLong, Wrap32;
    var finals, tracks := new U32[8](_ => 0), new U32[8](_ => 0);
    ghost var zeros, text, ts1 := finals[..], block[..], Tokens(block[..], 0);
    assert finals[..] == tracks[..];
    ScanBlock(block, tracks, finals);
    ghost var tracks1, finals1 := tracks[..], finals[..];
    Corrupt(block, seed1, step);
    ghost var ts2 := Tokens(block[..], 0);
    ScanBlock(block, tracks, finals);
    Corrupt(block, seed2, step);
    BothScans(zeros, ts1, tracks1, finals1, ts2, tracks[..], finals[..]);
    r := crc;
    for i := 0 to 8
      invariant Counted(ts1 + ts2, tracks[..], finals[..])
      invariant block[..] == Corrupted(Corrupted(text, ByteOf(seed1), step), ByteOf(seed2), step)
      invariant r == CountsCrc(ts1 + ts2, crc, i)
    {
      CountOf(ts1 + ts2, tracks[..], finals[..], i);
      r := Crcu32(finals[i], r);
      r := Crcu32(tracks[i], r);
    }
  }

  /** The counters from zero over both scans. */
  ghost predicate Counted(ts: seq<Token>, tracks: seq<U32>, finals: seq<U32>) {
    && |tracks| == |finals| == 8
    && forall k: State :: tracks[Index(k)] == Wrap32(Track(ts, k)) && finals[Index(k)] == Wrap32(Final(ts, k))
  }

  lemma CountOf(ts: seq<Token>, tracks: seq<U32>, finals: seq<U32>, i: nat)
    requires Counted(ts, tracks, finals) && i < 8
    ensures tracks[i] == Wrap32(Track(ts, StateOf(i))) && finals[i] == Wrap32(Final(ts, StateOf(i)))
  {
    hide Wrap32, Track, Final;
    assert Index(StateOf(i)) == i;
  }

  lemma BothScans(zeros: seq<U32>, ts1: seq<Token>, tracks1: seq<U32>, finals1: seq<U32>, ts2: seq<Token>,
                  tracks: seq<U32>, finals: seq<U32>)
    requires |zeros| == 8 && forall i :: 0 <= i < 8 ==> zeros[i] == 0
    requires Tracked(zeros, ts1, tracks1) && Finished(zeros, ts1, finals1)
    requires Tracked(tracks1, ts2, tracks) && Finished(finals1, ts2, finals)
    ensures Counted(ts1 + ts2, tracks, finals)
  {
    hide Wrap32, Track, Final;
    forall k: State
      ensures tracks[Index(k)] == Wrap32(Track(ts1 + ts2, k)) && finals[Index(k)] == Wrap32(Final(ts1 + ts2, k))
    {
      CountsAppend(ts1, ts2, k);
      WrapAfter(0, Track(ts1, k), Track(ts2, k));
      WrapAfter(0, Final(ts1, k), Final(ts2, k));
    }
  }

  lemma {:induction false} CountsAppend(ts: seq<Token>, us: seq<Token>, k: State)
    ensures Track(ts + us, k) == Track(ts, k) + Track(us, k)
    ensures Final(ts + us, k) == Final(ts, k) + Final(us, k)
    decreases |us|
  {
    if us == [] {
      assert ts + us == ts;
    } else {
      assert (ts + us)[..|ts + us| - 1] == ts + us[..|us| - 1];
      CountsAppend(ts, us[..|us| - 1], k);
    }
  }

  /** The block that core_init_state fills, of two bytes or more, can be scanned before and after any
      corruption with a step of at least 0x22, the least that calc_func passes. */
  lemma InitialBlockIsScannable(size: nat, seed: S16, x: Byte, step: nat)
    requires size >= 2 && step >= 0x22
    ensures var text := InitText(size, seed);
      Terminated(text, 0) && Terminated(Corrupted(text, x, step), 0)
  {
    hide Fields, Corrupted;
    NulSurvives(InitText(size, seed), x, step, size - 2);
  }

  /** The counters that core_bench_state hands to the crc obey the flow over both scans. */
  lemma BenchFlow(text: seq<Byte>, x: Byte, step: nat)
    requires step > 0 && Terminated(text, 0) && Terminated(Corrupted(text, x, step), 0)
    ensures var ts := BenchTokens(text, x, step);
      Flow(k => Track(ts, k), k => Final(ts, k), |ts|)
  {
    hide Flow, Stopped, Track, Final, Tokens, Corrupted;
    TokensStop(text, 0);
    TokensStop(Corrupted(text, x, step), 0);
    CountersFlow(BenchTokens(text, x, step));
  }

  lemma FitsUnwrapped(x: nat, y: nat)
    requires x + y < 0x1_0000_0000
    ensures Wrap32(x + y) == x + y
  {
  }

  /** In a block of at most 2^31 bytes no 32-bit counter wraps. */
  lemma BenchCountersFit(text: seq<Byte>, x: Byte, step: nat, k: State)
    requires step > 0 && Terminated(text, 0) && Terminated(Corrupted(text, x, step), 0)
    requires |text| <= 0x8000_0000
    ensures var ts := BenchTokens(text, x, step);
      Wrap32(Track(ts, k)) == Track(ts, k) && Wrap32(Final(ts, k)) == Final(ts, k)
  {
    hide Wrap32, Track, Final, Tokens, Corrupted;
    var text2 := Corrupted(text, x, step);
    var ts1, ts2 := Tokens(text, 0), Tokens(text2, 0);
    CountersFit(text, 0, k);
    CountersFit(text2, 0, k);
    CountsAppend(ts1, ts2, k);
    FitsUnwrapped(Track(ts1, k), Track(ts2, k));
    FitsUnwrapped(Final(ts1, k), Final(ts2, k));
  }
}
