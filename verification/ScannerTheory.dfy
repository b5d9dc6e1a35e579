/** What the scanner of core_state.c decides: a grammar of numbers, a partition of the text, and the
    flow of its transition counters. */
module ScannerTheory {
  import opened MachineTypes
  import opened Scanner

  // ----- the grammar, independent of the machine

  predicate OptSign(x: seq<Byte>) { x == [] || (|x| == 1 && IsSign(x[0])) }

  predicate Digits(x: seq<Byte>) { forall i :: 0 <= i < |x| ==> IsDigit(x[i]) }

  predicate IntParts(f: seq<Byte>, sign: seq<Byte>, ds: seq<Byte>) {
    OptSign(sign) && Digits(ds) && ds != [] && f == sign + ds
  }

  predicate FloatParts(f: seq<Byte>, sign: seq<Byte>, whole: seq<Byte>, frac: seq<Byte>) {
    OptSign(sign) && Digits(whole) && Digits(frac) && f == sign + whole + [DOT] + frac
  }

  /** [+-]?d+ */
  ghost predicate IsInt(f: seq<Byte>) {
    exists sign, ds :: IntParts(f, sign, ds)
  }

  /** [+-]?d*.d* */
  ghost predicate IsFloat(f: seq<Byte>) {
    exists sign, whole, frac :: FloatParts(f, sign, whole, frac)
  }

  /** [+-]?d*.d*[eE][+-]: a number cut off before the digits of its exponent. */
  ghost predicate IsMantissa(f: seq<Byte>) {
    |f| >= 2 && IsFloat(f[..|f| - 2]) && IsE(f[|f| - 2]) && IsSign(f[|f| - 1])
  }

  predicate SciParts(f: seq<Byte>, mantissa: seq<Byte>, exponent: seq<Byte>) {
    Digits(exponent) && exponent != [] && f == mantissa + exponent
  }

  /** [+-]?d*.d*[eE][+-]d+ */
  ghost predicate IsScientific(f: seq<Byte>) {
    exists mantissa, exponent :: SciParts(f, mantissa, exponent) && IsMantissa(mantissa)
  }

  // ----- from the machine to the grammar

  ghost predicate Shape(st: State, f: seq<Byte>) {
    match st
    case Start => f == []
    case S1 => f != [] && OptSign(f)
    case Int => IsInt(f)
    case Float => IsFloat(f)
    case S2 => |f| >= 1 && IsFloat(f[..|f| - 1]) && IsE(f[|f| - 1])
    case Exponent => IsMantissa(f)
    case Scientific => IsScientific(f)
    case Invalid => true
  }

  /** One more byte keeps state and shape together. */
  lemma NextShape(st: State, f: seq<Byte>, c: Byte)
    requires Shape(st, f)
    ensures Shape(Next(st, c), f + [c])
  {
    var g := f + [c];
    assert g[..|f|] == f;
    match Next(st, c) {
      case Int =>
        if st == Int {
          var sign, ds :| IntParts(f, sign, ds);
          assert IntParts(g, sign, ds + [c]);
        } else {
          assert IntParts(g, f, [c]);
        }
      case Float =>
        if st == Float {
          var sign, whole, frac :| FloatParts(f, sign, whole, frac);
          assert FloatParts(g, sign, whole, frac + [c]);
        } else if st == Int {
          var sign, ds :| IntParts(f, sign, ds);
          assert FloatParts(g, sign, ds, []);
        } else {
          assert FloatParts(g, f, [], []);
        }
      case Exponent =>
        assert g[..|g| - 2] == f[..|f| - 1];
      case Scientific =>
        if st == Scientific {
          var mantissa, exponent :| SciParts(f, mantissa, exponent) && IsMantissa(mantissa);
          assert SciParts(g, mantissa, exponent + [c]);
        } else {
          assert SciParts(g, f, [c]);
        }
      case _ =>
    }
  }

  lemma {:induction false} ScanShape(f: seq<Byte>)
    ensures Shape(Scan(f), f)
    decreases |f|
  {
    if f != [] {
      ScanShape(f[..|f| - 1]);
      NextShape(Scan(f[..|f| - 1]), f[..|f| - 1], f[|f| - 1]);
      assert f[..|f| - 1] + [f[|f| - 1]] == f;
    }
  }

  // ----- from the grammar to the machine

  lemma ScanOneMore(f: seq<Byte>, c: Byte)
    ensures Scan(f + [c]) == Next(Scan(f), c)
  {
    assert (f + [c])[..|f|] == f;
  }

  /** Digits keep the states that accept them. */
  lemma {:induction false} ScanDigits(f: seq<Byte>, ds: seq<Byte>, st: State)
    requires Digits(ds) && (st == Int || st == Float || st == Scientific)
    requires Scan(f) == st || (ds != [] && Next(Scan(f), ds[0]) == st)
    ensures Scan(f + ds) == st
    decreases |ds|
  {
    if ds == [] {
      assert f + ds == f;
    } else {
      var before, c := ds[..|ds| - 1], ds[|ds| - 1];
      assert f + ds == (f + before) + [c];
      ScanOneMore(f + before, c);
      if before == [] {
        assert f + before == f;
      } else {
        ScanDigits(f, before, st);
      }
    }
  }

  lemma ScanSign(sign: seq<Byte>)
    requires OptSign(sign)
    ensures Scan(sign) == if sign == [] then Start else S1
  {
    if sign != [] { ScanOneMore([], sign[0]); assert [] + sign == sign; }
  }

  lemma ScanOfInt(f: seq<Byte>)
    requires IsInt(f)
    ensures Scan(f) == Int
  {
    var sign, ds :| IntParts(f, sign, ds);
    ScanSign(sign);
    ScanDigits(sign, ds, Int);
  }

  lemma ScanOfFloat(f: seq<Byte>)
    requires IsFloat(f)
    ensures Scan(f) == Float
  {
    var sign, whole, frac :| FloatParts(f, sign, whole, frac);
    ScanSign(sign);
    if whole == [] { assert sign + whole == sign; } else { ScanDigits(sign, whole, Int); }
    ScanOneMore(sign + whole, DOT);
    ScanDigits(sign + whole + [DOT], frac, Float);
  }

  lemma ScanOfS2(f: seq<Byte>)
    requires Shape(S2, f)
    ensures Scan(f) == S2
  {
    ScanOfFloat(f[..|f| - 1]);
  }

  lemma ScanOfMantissa(f: seq<Byte>)
    requires IsMantissa(f)
    ensures Scan(f) == Exponent
  {
    var g := f[..|f| - 1];
    assert g[..|g| - 1] == f[..|f| - 2];
    ScanOfS2(g);
  }

  lemma ScanOfScientific(f: seq<Byte>)
    requires IsScientific(f)
    ensures Scan(f) == Scientific
  {
    var mantissa, exponent :| SciParts(f, mantissa, exponent) && IsMantissa(mantissa);
    ScanOfMantissa(mantissa);
    ScanDigits(mantissa, exponent, Scientific);
  }

  /** The verdict on a field is its shape: a number of one of the three kinds, or a cut-off number. */
  lemma Verdict(f: seq<Byte>)
    ensures Scan(f) == Int <==> IsInt(f)
    ensures Scan(f) == Float <==> IsFloat(f)
    ensures Scan(f) == Scientific <==> IsScientific(f)
    ensures Scan(f) == Start <==> f == []
    ensures Scan(f) == S1 <==> f != [] && OptSign(f)
    ensures Scan(f) == S2 <==> |f| >= 1 && IsFloat(f[..|f| - 1]) && IsE(f[|f| - 1])
    ensures Scan(f) == Exponent <==> IsMantissa(f)
  {
    ScanShape(f);
    if IsInt(f) { ScanOfInt(f); }
    if IsFloat(f) { ScanOfFloat(f); }
    if IsScientific(f) { ScanOfScientific(f); }
    if OptSign(f) { ScanSign(f); }
    if Shape(S2, f) { ScanOfS2(f); }
    if IsMantissa(f) { ScanOfMantissa(f); }
  }

  /** On a NUL-terminated text the token at start consumes at least one byte and never passes the NUL.
      It is a number of some kind exactly when its whole field, up to a comma or NUL, has that shape.
      A valid token is its field and the comma after it; an invalid one ends with the first byte that
      spoils it. */
  lemma TokenVerdict(text: seq<Byte>, start: nat)
    requires Terminated(text, start) && text[start] != NUL
    ensures var stop, t := FieldEnd(text, start), TokenAt(text, start);
      var f := text[start..stop];
      && start < t.end <= NulAt(text, start)
      && (t.kind == Int <==> IsInt(f)) && (t.kind == Float <==> IsFloat(f))
      && (t.kind == Scientific <==> IsScientific(f))
      && (t.kind != Invalid ==> t.bytes == f && t.end == if text[stop] == COMMA then stop + 1 else stop)
      && (t.kind == Invalid ==> t.end == start + |t.bytes|)
      && (t.bytes == [] || Scan(t.bytes[..|t.bytes| - 1]) != Invalid)
      && Scan(t.bytes) == t.kind
  {
    var stop := FieldEnd(text, start);
    var f := text[start..stop];
    Verdict(f);
    hide IsInt, IsFloat, IsScientific;
    var t := TokenAt(text, start);
    if t.kind == Invalid {
      assert t.bytes == f[..|t.bytes|];
      assert t.bytes[..|t.bytes| - 1] == f[..|t.bytes| - 1];
    } else {
      StaysInvalid(f);
    }
  }

  // ----- repeated calls cover the text

  ghost function NulAt(text: seq<Byte>, start: nat): (k: nat)
    requires Terminated(text, start)
    ensures start <= k < |text| && text[k] == NUL
    ensures forall j :: start <= j < k ==> text[j] != NUL
    decreases |text| - start
  {
    if text[start] == NUL then start else NulAt(text, start + 1)
  }

  /** The tokens of the text, as the loop of core_bench_state meets them. */
  ghost function Tokens(text: seq<Byte>, start: nat): (ts: seq<Token>)
    requires Terminated(text, start)
    decreases |text| - start
  {
    if text[start] == NUL then []
    else
      TokenVerdict(text, start);
      var t := TokenAt(text, start);
      [t] + Tokens(text, t.end)
  }

  /** The bytes a token takes: those scanned, and perhaps a comma. */
  ghost predicate Takes(text: seq<Byte>, t: Token) {
    && t.from < t.end <= |text|
    && (text[t.from..t.end] == t.bytes || text[t.from..t.end] == t.bytes + [COMMA])
  }

  /** The tokens are non-empty pieces of the text, each beginning where the one before ends. */
  ghost predicate Covers(text: seq<Byte>, ts: seq<Token>, start: nat, end: nat) {
    && (ts == [] <==> start == end)
    && (ts != [] ==> ts[0].from == start && ts[|ts| - 1].end == end)
    && (forall i :: 0 <= i < |ts| ==> Takes(text, ts[i]))
    && forall i :: 0 < i < |ts| ==> ts[i - 1].end == ts[i].from
  }

  lemma CoversMore(text: seq<Byte>, t: Token, ts: seq<Token>, end: nat)
    requires Takes(text, t) && t.end <= end && Covers(text, ts, t.end, end)
    ensures Covers(text, [t] + ts, t.from, end)
  {
    assert t.from < end;
    hide Takes;
  }

  lemma CoversNothing(text: seq<Byte>, start: nat)
    ensures Covers(text, [], start, start)
  {
  }

  lemma TokenTakes(text: seq<Byte>, start: nat)
    requires Terminated(text, start) && text[start] != NUL
    ensures Takes(text, TokenAt(text, start))
  {
    TokenVerdict(text, start);
    hide IsInt, IsFloat, IsScientific, Scan;
  }

  lemma SameNul(text: seq<Byte>, start: nat, k: nat)
    requires Terminated(text, start) && start <= k <= NulAt(text, start)
    ensures Terminated(text, k) && NulAt(text, k) == NulAt(text, start)
  {
  }

  /** Repeated calls meet every byte before the NUL exactly once, in order. */
  lemma {:induction false} Partition(text: seq<Byte>, start: nat)
    requires Terminated(text, start)
    ensures Covers(text, Tokens(text, start), start, NulAt(text, start))
    decreases |text| - start
  {
    hide Covers, Takes, TokenAt, IsInt, IsFloat, IsScientific, Scan, FieldEnd;
    if text[start] == NUL {
      CoversNothing(text, start);
    } else {
      TokenVerdict(text, start);
      var t := TokenAt(text, start);
      TokenTakes(text, start);
      Partition(text, t.end);
      SameNul(text, start, t.end);
      CoversMore(text, t, Tokens(text, t.end), NulAt(text, start));
    }
  }

  // ----- the flow of the counters

  /** How often the scans of the tokens leave state k, and how many of them end in it. */
  ghost function Track(ts: seq<Token>, k: State): nat {
    if ts == [] then 0 else Track(ts[..|ts| - 1], k) + Tally(ts[|ts| - 1].bytes, k)
  }

  ghost function Final(ts: seq<Token>, k: State): nat {
    if ts == [] then 0 else Final(ts[..|ts| - 1], k) + if ts[|ts| - 1].kind == k then 1 else 0
  }

  /** What enters a state is either still there at the end of a token, or was counted on leaving. */
  ghost predicate Flow(track: State -> nat, final: State -> nat, tokens: nat) {
    && track(Start) + final(Start) == tokens
    && tokens == final(Start) + final(Invalid) + final(S1) + final(S2) + final(Int) + final(Float) + final(Exponent)
       + final(Scientific)
    && track(S1) + final(S1) <= track(Start)
    && track(Int) + final(Int) <= track(Start) + track(S1)
    && track(Float) + final(Float) <= track(Start) + track(S1) + track(Int)
    && track(S2) + final(S2) <= track(Float)
    && track(Exponent) + final(Exponent) <= track(S2)
    && final(Scientific) <= track(Exponent)
    && track(Scientific) == 0
    && track(Invalid) <= final(Invalid)
  }

  lemma StepFlow(track: State -> nat, st: State, c: Byte)
    requires st != Invalid && Flow(track, k => if st == k then 1 else 0, 1)
    ensures Flow(k => track(k) + Bump(st, c, k), k => if Next(st, c) == k then 1 else 0, 1)
  {
  }

  lemma FlowAdds(track: State -> nat, final: State -> nat, n: nat, track1: State -> nat, final1: State -> nat, m: nat,
                 sum: State -> nat, sum1: State -> nat)
    requires Flow(track, final, n) && Flow(track1, final1, m)
    requires forall k :: sum(k) == track(k) + track1(k)
    requires forall k :: sum1(k) == final(k) + final1(k)
    ensures Flow(sum, sum1, n + m)
  {
  }

  lemma FlowSame(track: State -> nat, final: State -> nat, track1: State -> nat, final1: State -> nat, n: nat)
    requires Flow(track, final, n) && (forall k :: track1(k) == track(k)) && (forall k :: final1(k) == final(k))
    ensures Flow(track1, final1, n)
  {
  }

  /** One token's flow. */
  lemma {:induction false} TokenFlow(bytes: seq<Byte>)
    requires bytes == [] || Scan(bytes[..|bytes| - 1]) != Invalid
    ensures Flow(k => Tally(bytes, k), k => if Scan(bytes) == k then 1 else 0, 1)
    decreases |bytes|, 1
  {
    if bytes != [] {
      TokenFlowStep(bytes);
    }
  }

  lemma {:induction false} TokenFlowStep(bytes: seq<Byte>)
    requires bytes != [] && Scan(bytes[..|bytes| - 1]) != Invalid
    ensures Flow(k => Tally(bytes, k), k => if Scan(bytes) == k then 1 else 0, 1)
    decreases |bytes|, 0
  {
    hide Bump, Next, Flow;
    var before, c := bytes[..|bytes| - 1], bytes[|bytes| - 1];
    StaysInvalid(before);
    TokenFlow(before);
    StepFlow(k => Tally(before, k), Scan(before), c);
    assert forall k: State :: Tally(bytes, k) == Tally(before, k) + Bump(Scan(before), c, k);
    FlowSame(k => Tally(before, k) + Bump(Scan(before), c, k), k => if Next(Scan(before), c) == k then 1 else 0,
             k => Tally(bytes, k), k => if Scan(bytes) == k then 1 else 0, 1);
  }

  /** Whatever the tokens of whatever texts, their counters add up to a flow. */
  lemma {:induction false} CountersFlow(ts: seq<Token>)
    requires forall i :: 0 <= i < |ts| ==> Stopped(ts[i])
    ensures Flow(k => Track(ts, k), k => Final(ts, k), |ts|)
  {
    hide Flow, Track, Final, Tally, Scan;
    if ts == [] {
      NoFlow();
    } else {
      var before, t := ts[..|ts| - 1], ts[|ts| - 1];
      CountersFlow(before);
      assert Stopped(t);
      TokenFlow(t.bytes);
      CountersStep(before, t);
      assert before + [t] == ts;
    }
  }

  lemma NoFlow()
    ensures Flow(k => Track([], k), k => Final([], k), 0)
  {
  }

  lemma CountersStep(before: seq<Token>, t: Token)
    requires Flow(k => Track(before, k), k => Final(before, k), |before|)
    requires Flow(k => Tally(t.bytes, k), k => if t.kind == k then 1 else 0, 1)
    ensures Flow(k => Track(before + [t], k), k => Final(before + [t], k), |before| + 1)
  {
    hide Flow, Tally;
    assert (before + [t])[..|before|] == before;
    FlowAdds(k => Track(before, k), k => Final(before, k), |before|, k => Tally(t.bytes, k),
      k => if t.kind == k then 1 else 0, 1,
             k => Track(before + [t], k), k => Final(before + [t], k));
  }

  /** Scanning stopped no later than at the first byte that made the token invalid. */
  ghost predicate Stopped(t: Token) {
    Scan(t.bytes) == t.kind && (t.bytes == [] || Scan(t.bytes[..|t.bytes| - 1]) != Invalid)
  }

  lemma {:induction false} TokensStop(text: seq<Byte>, start: nat)
    requires Terminated(text, start)
    ensures forall t <- Tokens(text, start) :: Stopped(t)
    decreases |text| - start
  {
    if text[start] != NUL {
      TokenVerdict(text, start);
      assert Stopped(TokenAt(text, start));
      hide Stopped;
      TokensStop(text, TokenAt(text, start).end);
    }
  }

  // ----- the counters of one text never wrap

  lemma {:induction false} TrackMore(t: Token, ts: seq<Token>, k: State)
    ensures Track([t] + ts, k) == Tally(t.bytes, k) + Track(ts, k)
    ensures Final([t] + ts, k) == (if t.kind == k then 1 else 0) + Final(ts, k)
    decreases |ts|
  {
    var all := [t] + ts;
    if ts == [] {
      assert all[..0] == [];
    } else {
      assert all[..|all| - 1] == [t] + ts[..|ts| - 1];
      TrackMore(t, ts[..|ts| - 1], k);
    }
  }

  lemma {:induction false} TallyFits(bytes: seq<Byte>, k: State)
    ensures Tally(bytes, k) <= |bytes|
    decreases |bytes|
  {
    if bytes != [] { TallyFits(bytes[..|bytes| - 1], k); }
  }

  /** No counter exceeds the number of bytes before the NUL. */
  lemma {:induction false} CountersFit(text: seq<Byte>, start: nat, k: State)
    requires Terminated(text, start)
    ensures Track(Tokens(text, start), k) <= NulAt(text, start) - start
    ensures Final(Tokens(text, start), k) <= NulAt(text, start) - start
    decreases |text| - start
  {
    if text[start] != NUL {
      TokenVerdict(text, start);
      var t := TokenAt(text, start);
      CountersFit(text, t.end, k);
      assert NulAt(text, t.end) == NulAt(text, start);
      TrackMore(t, Tokens(text, t.end), k);
      TallyFits(t.bytes, k);
    }
  }
}
