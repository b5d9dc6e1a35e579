/** What the counters of the scanner count, told by the bytes of the tokens alone, and the bytes that they
    become in the CRC of core_bench_state. */
module ScannerCounts {
  import opened Crc
  import opened CrcTheory
  import opened Division
  import opened MachineTypes
  import opened Scanner
  import opened ScannerTheory
  import opened StateBench

  // ----- states met by a token

  /** Some prefix of the bytes, none and all included, is scanned to state k. */
  ghost predicate Met(bytes: seq<Byte>, k: State) {
    exists j :: 0 <= j <= |bytes| && Scan(bytes[..j]) == k
  }

  /** The states in the order in which a number can pass through them. */
  function Rank(st: State): nat {
    match st
    case Start => 0
    case S1 => 1
    case Int => 2
    case Float => 3
    case S2 => 4
    case Exponent => 5
    case Scientific => 6
    case Invalid => 7
  }

  lemma Passes(st: State, c: Byte)
    ensures Next(st, c) == st || Rank(st) < Rank(Next(st, c))
  {
  }

  lemma MetMore(bytes: seq<Byte>, c: Byte, k: State)
    ensures Met(bytes + [c], k) <==> Met(bytes, k) || Next(Scan(bytes), c) == k
  {
    hide Next, Scan;
    var all := bytes + [c];
    ScanOneMore(bytes, c);
    assert all[..|all|] == all;
    assert forall j :: 0 <= j <= |bytes| ==> all[..j] == bytes[..j];
    if Met(bytes, k) {
      var j :| 0 <= j <= |bytes| && Scan(bytes[..j]) == k;
      assert Scan(all[..j]) == k;
    }
    if Met(all, k) {
      var j :| 0 <= j <= |all| && Scan(all[..j]) == k;
      assert j <= |bytes| ==> Scan(bytes[..j]) == k;
    }
  }

  /** A state is entered at most once: a token that has met it is still there, or was counted on leaving it. */
  lemma {:induction false} MetOnce(bytes: seq<Byte>, k: State)
    requires k != Invalid && k != Scientific
    ensures Met(bytes, k) ==> Rank(k) <= Rank(Scan(bytes))
    ensures Tally(bytes, k) + (if Scan(bytes) == k then 1 else 0) == if Met(bytes, k) then 1 else 0
    decreases |bytes|
  {
    hide Met, Rank, Next;
    if bytes == [] {
      MetNothing(k);
    } else {
      var before, c := bytes[..|bytes| - 1], bytes[|bytes| - 1];
      assert before + [c] == bytes;
      MetOnce(before, k);
      MetMore(before, c, k);
      Passes(Scan(before), c);
    }
  }

  lemma MetNothing(k: State)
    ensures Met([], k) <==> k == Start
  {
    var none: seq<Byte> := [];
    assert none[..0] == none;
  }

  // ----- and by its bytes

  /** [+-]?d*.d*[eE] */
  ghost predicate EndsInE(f: seq<Byte>) {
    |f| >= 1 && IsFloat(f[..|f| - 1]) && IsE(f[|f| - 1])
  }

  /** What a token counts for: k other than Invalid when it has a beginning of the form of k, and Invalid when
      its first byte spoils it, or a byte among the digits of its exponent. */
  ghost predicate CountsFor(bytes: seq<Byte>, k: State) {
    match k
    case Start => true
    case S1 => bytes != [] && IsSign(bytes[0])
    case Int => bytes != [] && (IsDigit(bytes[0]) || (|bytes| >= 2 && IsSign(bytes[0]) && IsDigit(bytes[1])))
    case Float => exists j :: 0 <= j <= |bytes| && IsFloat(bytes[..j])
    case S2 => exists j :: 0 <= j <= |bytes| && EndsInE(bytes[..j])
    case Exponent => exists j :: 0 <= j <= |bytes| && IsMantissa(bytes[..j])
    case Scientific => IsScientific(bytes)
    case Invalid =>
      if |bytes| == 1 then !IsDigit(bytes[0]) && !IsSign(bytes[0]) && bytes[0] != DOT
      else |bytes| > 1 && IsScientific(bytes[..|bytes| - 1]) && !IsDigit(bytes[|bytes| - 1])
  }

  lemma SignMet(bytes: seq<Byte>)
    ensures Met(bytes, S1) <==> CountsFor(bytes, S1)
  {
    hide Scan, IsInt, IsFloat, IsMantissa, IsScientific;
    if Met(bytes, S1) {
      var j :| 0 <= j <= |bytes| && Scan(bytes[..j]) == S1;
      Verdict(bytes[..j]);
      assert bytes[..j][0] == bytes[0];
    }
    if CountsFor(bytes, S1) {
      Verdict(bytes[..1]);
      assert OptSign(bytes[..1]) && Scan(bytes[..1]) == S1;
    }
  }

  lemma DigitMet(bytes: seq<Byte>)
    ensures Met(bytes, Int) <==> CountsFor(bytes, Int)
  {
    hide Scan, IsFloat, IsMantissa, IsScientific;
    if Met(bytes, Int) {
      var j :| 0 <= j <= |bytes| && Scan(bytes[..j]) == Int;
      Verdict(bytes[..j]);
      var sign, ds :| IntParts(bytes[..j], sign, ds);
      assert bytes[..j][|sign|] == ds[0];
      assert sign != [] ==> bytes[..j][0] == sign[0];
    }
    if CountsFor(bytes, Int) {
      var n := if IsDigit(bytes[0]) then 0 else 1;
      assert IntParts(bytes[..n + 1], bytes[..n], bytes[n..n + 1]);
      Verdict(bytes[..n + 1]);
      assert Scan(bytes[..n + 1]) == Int;
    }
  }

  lemma RestMet(bytes: seq<Byte>, k: State)
    requires k == Start || k == Float || k == S2 || k == Exponent
    ensures Met(bytes, k) <==> CountsFor(bytes, k)
  {
    hide Scan, IsFloat, IsMantissa, IsInt, IsScientific;
    forall j | 0 <= j <= |bytes|
      ensures Scan(bytes[..j]) == Float <==> IsFloat(bytes[..j])
      ensures Scan(bytes[..j]) == Exponent <==> IsMantissa(bytes[..j])
      ensures Scan(bytes[..j]) == S2 <==> EndsInE(bytes[..j])
      ensures Scan(bytes[..j]) == Start <==> j == 0
    {
      Verdict(bytes[..j]);
    }
    hide EndsInE;
    if k == Start { assert Scan(bytes[..0]) == Start; }
    if k == Float && Met(bytes, k) {
      var j :| 0 <= j <= |bytes| && Scan(bytes[..j]) == Float;
      assert IsFloat(bytes[..j]);
    }
    if k == S2 && Met(bytes, k) {
      var j :| 0 <= j <= |bytes| && Scan(bytes[..j]) == S2;
      assert EndsInE(bytes[..j]);
    }
    if k == Exponent && Met(bytes, k) {
      var j :| 0 <= j <= |bytes| && Scan(bytes[..j]) == Exponent;
      assert IsMantissa(bytes[..j]);
    }
  }

  /** Bytes that are not invalid have counted nothing as invalid; the one that makes them so does, at the
      beginning or in the exponent. */
  lemma {:induction false} NothingInvalid(bytes: seq<Byte>)
    requires Scan(bytes) != Invalid
    ensures Tally(bytes, Invalid) == 0
    decreases |bytes|
  {
    if bytes != [] { NothingInvalid(bytes[..|bytes| - 1]); }
  }

  lemma InvalidCounts(bytes: seq<Byte>)
    requires bytes == [] || Scan(bytes[..|bytes| - 1]) != Invalid
    ensures Tally(bytes, Invalid) == if CountsFor(bytes, Invalid) then 1 else 0
  {
    if bytes != [] {
      var before, c := bytes[..|bytes| - 1], bytes[|bytes| - 1];
      NothingInvalid(before);
      Verdict(before);
      hide IsInt, IsFloat, IsMantissa, IsScientific;
      assert before == [] <==> |bytes| == 1;
    }
  }

  lemma {:induction false} NothingScientific(bytes: seq<Byte>)
    ensures Tally(bytes, Scientific) == 0
    decreases |bytes|
  {
    if bytes != [] { NothingScientific(bytes[..|bytes| - 1]); }
  }

  /** One token: what leaves a state and what stays in it. */
  lemma TokenCounts(t: Token, k: State)
    requires Stopped(t)
    ensures Tally(t.bytes, k) + (if k != Invalid && t.kind == k then 1 else 0) == if CountsFor(t.bytes, k) then 1 else 0
  {
    hide Met, Tally, IsInt, IsFloat, IsMantissa, IsScientific;
    if k == Invalid {
      InvalidCounts(t.bytes);
    } else if k == Scientific {
      NothingScientific(t.bytes);
      Verdict(t.bytes);
    } else {
      MetOnce(t.bytes, k);
      if k == S1 { SignMet(t.bytes); } else if k == Int { DigitMet(t.bytes); } else { RestMet(t.bytes, k); }
    }
  }

  // ----- all tokens

  ghost function Counting(ts: seq<Token>, k: State): nat {
    if ts == [] then 0 else Counting(ts[..|ts| - 1], k) + if CountsFor(ts[|ts| - 1].bytes, k) then 1 else 0
  }

  /** The counters of whatever tokens of whatever texts: of each state but Invalid, what was counted on leaving
      it and at the end of tokens is the number of tokens with a beginning of its form, and as invalid count the
      tokens spoilt at their first byte or in the digits of their exponent. */
  lemma {:induction false} CountersAre(ts: seq<Token>, k: State)
    requires forall i :: 0 <= i < |ts| ==> Stopped(ts[i])
    ensures Track(ts, k) + (if k != Invalid then Final(ts, k) else 0) == Counting(ts, k)
    decreases |ts|
  {
    hide Stopped, CountsFor, Tally;
    if ts != [] {
      CountersAre(ts[..|ts| - 1], k);
      TokenCounts(ts[|ts| - 1], k);
      TokenKind(ts[|ts| - 1]);
    }
  }

  lemma TokenKind(t: Token)
    requires Stopped(t)
    ensures t.kind == Scan(t.bytes)
  {
  }

  /** So over both scans of core_bench_state. */
  lemma BenchCounts(text: seq<Byte>, x: Byte, step: nat, k: State)
    requires step > 0 && Terminated(text, 0) && Terminated(Corrupted(text, x, step), 0)
    ensures var ts := BenchTokens(text, x, step);
      Track(ts, k) + (if k != Invalid then Final(ts, k) else 0) == Counting(ts, k)
  {
    hide Stopped, Track, Final, Tokens, Corrupted, Counting;
    TokensStop(text, 0);
    TokensStop(Corrupted(text, x, step), 0);
    CountersAre(BenchTokens(text, x, step), k);
  }

  // ----- the bytes of the CRC

  /** A 32-bit number, low byte first. */
  function BytesOf(v: U32): (b: seq<Byte>)
    ensures |b| == 4
  {
    [v % 0x100, v / 0x100 % 0x100, v / 0x1_0000 % 0x100, v / 0x100_0000]
  }

  /** The counters in the order of the enumeration, of each state first the tokens that ended in it. */
  ghost function Report(ts: seq<Token>, states: seq<State>): seq<Byte> {
    if states == [] then []
    else
      var before, st := Report(ts, states[..|states| - 1]), states[|states| - 1];
      before + BytesOf(Wrap32(Final(ts, st))) + BytesOf(Wrap32(Track(ts, st)))
  }

  lemma BytesAppend(a: seq<Byte>, b: seq<Byte>, crc: Word)
    ensures CrcBytes(a + b, crc) == CrcBytes(b, CrcBytes(a, crc))
    decreases |a|
  {
    if a == [] {
      assert a + b == b;
    } else {
      assert (a + b)[1..] == a[1..] + b;
      BytesAppend(a[1..], b, CrcByte(a[0], crc));
    }
  }

  lemma FourBytes(a: Byte, b: Byte, c: Byte, d: Byte, crc: Word)
    ensures CrcBytes([a, b, c, d], crc) == CrcByte(d, CrcByte(c, CrcByte(b, CrcByte(a, crc))))
  {
    hide CrcBytes, CrcByte;
    FirstByteOf(a, [b, c, d], crc);
    FirstByteOf(b, [c, d], CrcByte(a, crc));
    FirstByteOf(c, [d], CrcByte(b, CrcByte(a, crc)));
    FirstByteOf(d, [], CrcByte(c, CrcByte(b, CrcByte(a, crc))));
    assert [a] + [b, c, d] == [a, b, c, d] && [b] + [c, d] == [b, c, d] && [c] + [d] == [c, d] && [d] + [] == [d];
    NoBytes(CrcByte(d, CrcByte(c, CrcByte(b, CrcByte(a, crc)))));
  }

  lemma FirstByteOf(a: Byte, rest: seq<Byte>, crc: Word)
    ensures CrcBytes([a] + rest, crc) == CrcBytes(rest, CrcByte(a, crc))
  {
    assert ([a] + rest)[1..] == rest;
  }

  lemma BytesOfHalves(v: U32)
    ensures v % 0x1_0000 % 0x100 == v % 0x100 && v % 0x1_0000 / 0x100 % 0x100 == v / 0x100 % 0x100
    ensures v / 0x1_0000 % 0x1_0000 % 0x100 == v / 0x1_0000 % 0x100
    ensures v / 0x1_0000 % 0x1_0000 / 0x100 % 0x100 == v / 0x100_0000
  {
    var high: nat, low: nat := v / 0x1_0000, v % 0x1_0000;
    QuotientIs(v, 0x100, 0x100 * high + low / 0x100, low % 0x100);
    QuotientIs(0x100 * high + low / 0x100, 0x100, high, low / 0x100);
    QuotientIs(v, 0x100_0000, high / 0x100, high % 0x100 * 0x1_0000 + low);
  }

  lemma LongIsBytes(v: U32, crc: Word)
    ensures CrcLong(v, crc) == CrcBytes(BytesOf(v), crc)
  {
    hide CrcByte, CrcBytes;
    BytesOfHalves(v);
    FourBytes(v % 0x100, v / 0x100 % 0x100, v / 0x1_0000 % 0x100, v / 0x100_0000, crc);
  }

  lemma {:induction false} CountsAreReport(ts: seq<Token>, crc: Word, i: nat)
    requires i <= 8
    ensures CountsCrc(ts, crc, i) ==
      CrcBytes(Report(ts, [Start, Invalid, S1, S2, Int, Float, Exponent, Scientific][..i]), crc)
  {
    hide CrcBytes, BytesOf, CrcLong, Wrap32, Final, Track;
    var states := [Start, Invalid, S1, S2, Int, Float, Exponent, Scientific];
    if i == 0 {
      NoBytes(crc);
    } else {
      CountsAreReport(ts, crc, i - 1);
      var st, before := states[i - 1], Report(ts, states[..i - 1]);
      assert states[..i][..i - 1] == states[..i - 1];
      var final, track := BytesOf(Wrap32(Final(ts, st))), BytesOf(Wrap32(Track(ts, st)));
      BytesAppend(before + final, track, crc);
      BytesAppend(before, final, crc);
      LongIsBytes(Wrap32(Final(ts, st)), CountsCrc(ts, crc, i - 1));
      LongIsBytes(Wrap32(Track(ts, st)), CrcLong(Wrap32(Final(ts, st)), CountsCrc(ts, crc, i - 1)));
    }
  }

  lemma NoBytes(crc: Word)
    ensures CrcBytes([], crc) == crc
  {
  }

  /** What core_bench_state returns is the CRC of 64 bytes: its sixteen counters, low byte first. */
  lemma ResultIsCrc(ts: seq<Token>, crc: Word)
    ensures CountsCrc(ts, crc, 8) ==
      Feed(BitsOf(Report(ts, [Start, Invalid, S1, S2, Int, Float, Exponent, Scientific])), crc)
  {
    hide CountsCrc, CrcBytes, Report, Feed, BitsOf;
    var states := [Start, Invalid, S1, S2, Int, Float, Exponent, Scientific];
    CountsAreReport(ts, crc, 8);
    assert states[..8] == states;
    CrcBytesIsFeed(Report(ts, states), crc);
  }
}
