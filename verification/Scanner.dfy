/** The number scanner of core_state.c: core_state_transition, one token at a time. */
module Scanner {
  import opened MachineTypes

  datatype State = Start | Invalid | S1 | S2 | Int | Float | Exponent | Scientific

  const NUL: Byte := 0
  const PLUS: Byte := 43
  const COMMA: Byte := 44
  const MINUS: Byte := 45
  const DOT: Byte := 46

  predicate IsDigit(c: Byte) { 48 <= c <= 57 }

  predicate IsSign(c: Byte) { c == PLUS || c == MINUS }

  predicate IsE(c: Byte) { c == 69 || c == 101 }

  /** The position of a state's counter: its value in the C enumeration. */
  function Index(st: State): (i: nat)
    ensures i < 8
  {
    match st
    case Start => 0
    case Invalid => 1
    case S1 => 2
    case S2 => 3
    case Int => 4
    case Float => 5
    case Exponent => 6
    case Scientific => 7
  }

  /** The state after reading c; a field stays invalid once it is. */
  function Next(st: State, c: Byte): State {
    match st
    case Start => if IsDigit(c) then Int else if IsSign(c) then S1 else if c == DOT then Float else Invalid
    case S1 => if IsDigit(c) then Int else if c == DOT then Float else Invalid
    case Int => if c == DOT then Float else if IsDigit(c) then Int else Invalid
    case Float => if IsE(c) then S2 else if IsDigit(c) then Float else Invalid
    case S2 => if IsSign(c) then Exponent else Invalid
    case Exponent => if IsDigit(c) then Scientific else Invalid
    case Scientific => if IsDigit(c) then Scientific else Invalid
    case Invalid => Invalid
  }

  ghost function Scan(bytes: seq<Byte>): State {
    if bytes == [] then Start else Next(Scan(bytes[..|bytes| - 1]), bytes[|bytes| - 1])
  }

  /** How much reading c in state st adds to the counter of k: leaving a state counts for that
      state, except that a number spoilt in its exponent, or a bad first byte, counts as invalid. */
  function Bump(st: State, c: Byte, k: State): nat {
    if k == Invalid then (if (st == Start || st == Scientific) && Next(st, c) == Invalid then 1 else 0)
    else if k == st && k != Scientific && Next(st, c) != st then 1 else 0
  }

  /** The sum of these over the bytes of one token. */
  ghost function Tally(bytes: seq<Byte>, k: State): nat {
    if bytes == [] then 0
    else Tally(bytes[..|bytes| - 1], k) + Bump(Scan(bytes[..|bytes| - 1]), bytes[|bytes| - 1], k)
  }

  lemma ScanNothing()
    ensures Scan([]) == Start
  {
  }

  // ----- tokens

  /** Text from start on ends with a NUL. */
  ghost predicate Terminated(text: seq<Byte>, start: nat) {
    exists k :: start <= k < |text| && text[k] == NUL
  }

  /** Where the field that begins at start ends: at the next comma or NUL. */
  ghost function FieldEnd(text: seq<Byte>, start: nat): (stop: nat)
    requires Terminated(text, start)
    ensures start <= stop < |text| && (text[stop] == NUL || text[stop] == COMMA)
    ensures forall k :: start <= k < stop ==> text[k] != NUL && text[k] != COMMA
    decreases |text| - start
  {
    if text[start] == NUL || text[start] == COMMA then start else FieldEnd(text, start + 1)
  }

  /** The length of the shortest invalid prefix. */
  ghost function InvalidAt(bytes: seq<Byte>): (k: nat)
    requires Scan(bytes) == Invalid
    ensures 0 < k <= |bytes| && Scan(bytes[..k]) == Invalid
    ensures forall j :: 0 <= j < k ==> Scan(bytes[..j]) != Invalid
  {
    var before := bytes[..|bytes| - 1];
    if Scan(before) == Invalid then
      assert forall j :: 0 <= j <= |before| ==> before[..j] == bytes[..j];
      InvalidAt(before)
    else
      StaysInvalid(bytes);
      assert bytes[..|bytes|] == bytes;
      |bytes|
  }

  lemma {:induction false} StaysInvalid(bytes: seq<Byte>)
    ensures forall j :: 0 <= j <= |bytes| && Scan(bytes[..j]) == Invalid ==> Scan(bytes) == Invalid
    ensures |bytes| > 0 && Scan(bytes[..|bytes| - 1]) != Invalid ==>
      forall j :: 0 <= j < |bytes| ==> Scan(bytes[..j]) != Invalid
    decreases |bytes|
  {
    assert bytes[..|bytes|] == bytes;
    if bytes != [] {
      var before := bytes[..|bytes| - 1];
      StaysInvalid(before);
      assert forall j :: 0 <= j <= |before| ==> before[..j] == bytes[..j];
    }
  }

  /** A token: its kind, where it begins, the bytes scanned, and where the next token begins. */
  datatype Token = Token(kind: State, from: nat, bytes: seq<Byte>, end: nat)

  /** The token at start: its kind is the verdict on the whole field; a valid one spans the field and
      the comma after it, an invalid one ends with the first byte that spoils it. */
  ghost function TokenAt(text: seq<Byte>, start: nat): (t: Token)
    requires Terminated(text, start)
    ensures t.from == start && start + |t.bytes| <= t.end <= |text| && t.bytes == text[start..start + |t.bytes|]
  {
    var stop := FieldEnd(text, start);
    var kind := Scan(text[start..stop]);
    if kind == Invalid then
      var last := start + InvalidAt(text[start..stop]);
      Token(kind, start, text[start..last], last)
    else
      Token(kind, start, text[start..stop], if text[stop] == COMMA then stop + 1 else stop)
  }

  /** A prefix of the field that is not yet invalid, or whose last byte made it so, fixes the token. */
  lemma TokenIs(text: seq<Byte>, start: nat, p: nat)
    requires Terminated(text, start) && start <= p <= FieldEnd(text, start)
    ensures p == FieldEnd(text, start) && Scan(text[start..p]) != Invalid ==>
      TokenAt(text, start) == Token(Scan(text[start..p]), start, text[start..p], if text[p] == COMMA then p + 1 else p)
    ensures start < p && Scan(text[start..p][..p - start - 1]) != Invalid && Scan(text[start..p]) == Invalid ==>
      TokenAt(text, start) == Token(Invalid, start, text[start..p], p)
  {
    var field, seen := text[start..FieldEnd(text, start)], text[start..p];
    if start < p && Scan(seen[..|seen| - 1]) != Invalid && Scan(seen) == Invalid {
      assert field[..p - start] == seen;
      StaysInvalid(seen);
      StaysInvalid(field);
      assert forall j :: 0 <= j <= |seen| ==> seen[..j] == field[..j];
    }
  }

  // ----- the machine

  function Wrap32(x: nat): U32 {
    x % 0x1_0000_0000
  }

  lemma WrapAfter(x: U32, a: nat, b: nat)
    ensures Wrap32(Wrap32(x + a) + b) == Wrap32(x + (a + b))
    ensures Wrap32(x) == x
  {
  }

  /** The counters with that of k one higher. */
  function PlusOne(counts: seq<U32>, k: State): (r: seq<U32>)
    requires |counts| == 8
    ensures |r| == 8
  {
    counts[Index(k) := Wrap32(counts[Index(k)] as nat + 1)]
  }

  method Increment(counts: array<U32>, k: State)
    requires counts.Length == 8
    modifies counts
    ensures counts[..] == PlusOne(old(counts[..]), k)
  {
    counts[Index(k)] := Wrap32(counts[Index(k)] as nat + 1);
  }

  /** The counters before and after reading symbol in state st, and before and after scanning bytes. */
  ghost predicate Bumped(was: seq<U32>, st: State, symbol: Byte, now: seq<U32>) {
    && |was| == |now| == 8
    && forall k: State :: now[Index(k)] == Wrap32(was[Index(k)] + Bump(st, symbol, k))
  }

  ghost predicate Tallied(was: seq<U32>, bytes: seq<Byte>, now: seq<U32>) {
    && |was| == |now| == 8
    && forall k: State :: now[Index(k)] == Wrap32(was[Index(k)] + Tally(bytes, k))
  }

  lemma TallyNothing(was: seq<U32>)
    requires |was| == 8
    ensures Tallied(was, [], was)
  {
    forall k: State { WrapAfter(was[Index(k)], 0, 0); }
  }

  lemma TallyOneMore(was: seq<U32>, bytes: seq<Byte>, mid: seq<U32>, symbol: Byte, now: seq<U32>)
    requires Tallied(was, bytes, mid) && Bumped(mid, Scan(bytes), symbol, now)
    ensures Tallied(was, bytes + [symbol], now)
    ensures Scan(bytes + [symbol]) == Next(Scan(bytes), symbol)
  {
    hide Next, Bump, Wrap32;
    assert (bytes + [symbol])[..|bytes|] == bytes;
    forall k: State { WrapAfter(was[Index(k)], Tally(bytes, k), Bump(Scan(bytes), symbol, k)); }
  }

  /** The increments in the order the switch makes them. */
  function Bumps(counts: seq<U32>, st: State, symbol: Byte): seq<U32>
    requires |counts| == 8
  {
    var counts1 := if Bump(st, symbol, Invalid) == 1 then PlusOne(counts, Invalid) else counts;
    if st != Invalid && Bump(st, symbol, st) == 1 then PlusOne(counts1, st) else counts1
  }

  lemma BumpsAddUp(counts: seq<U32>, st: State, symbol: Byte)
    requires |counts| == 8
    ensures Bumped(counts, st, symbol, Bumps(counts, st, symbol))
  {
    hide Wrap32, Next;
    var now := Bumps(counts, st, symbol);
    forall k: State
      ensures now[Index(k)] == Wrap32(counts[Index(k)] + Bump(st, symbol, k))
    {
      WrapAfter(counts[Index(k)], 0, 0);
      assert k != st ==> Index(k) != Index(st);
      assert k != Invalid ==> Index(k) != Index(Invalid);
    }
  }

  /** The body of the switch. */
  method Move(state: State, symbol: Byte, counts: array<U32>) returns (next: State)
    requires counts.Length == 8 && state != Invalid
    modifies counts
    ensures next == Next(state, symbol)
    ensures Bumped(old(counts[..]), state, symbol, counts[..])
  {
    BumpsAddUp(counts[..], state, symbol);
    hide Bumped, PlusOne;
    next := state;
    match state {
      case Start =>
        if IsDigit(symbol) {
          next := Int;
        } else if symbol == PLUS || symbol == MINUS {
          next := S1;
        } else if symbol == DOT {
          next := Float;
        } else {
          next := Invalid;
          Increment(counts, Invalid);
        }
        Increment(counts, Start);
      case S1 =>
        if IsDigit(symbol) {
          next := Int;
          Increment(counts, S1);
        } else if symbol == DOT {
          next := Float;
          Increment(counts, S1);
        } else {
          next := Invalid;
          Increment(counts, S1);
        }
      case Int =>
        if symbol == DOT {
          next := Float;
          Increment(counts, Int);
        } else if !IsDigit(symbol) {
          next := Invalid;
          Increment(counts, Int);
        }
      case Float =>
        if IsE(symbol) {
          next := S2;
          Increment(counts, Float);
        } else if !IsDigit(symbol) {
          next := Invalid;
          Increment(counts, Float);
        }
      case S2 =>
        if symbol == PLUS || symbol == MINUS {
          next := Exponent;
          Increment(counts, S2);
        } else {
          next := Invalid;
          Increment(counts, S2);
        }
      case Exponent =>
        if IsDigit(symbol) {
          next := Scientific;
          Increment(counts, Exponent);
        } else {
          next := Invalid;
          Increment(counts, Exponent);
        }
      case Scientific =>
        if !IsDigit(symbol) {
          next := Invalid;
          Increment(counts, Invalid);
        }
    }
  }

  /** core_state_transition. */
  method Transition(block: array<Byte>, start: nat, counts: array<U32>) returns (p: nat, state: State)
    requires counts.Length == 8
    requires Terminated(block[..], start)
    modifies counts
    ensures block[..] == old(block[..])
    ensures var t := TokenAt(block[..], start);
      p == t.end && state == t.kind && Tallied(old(counts[..]), t.bytes, counts[..])
  {
    ghost var text, stop := block[..], FieldEnd(block[..], start);
    hide Next, Bumped, Tallied, Terminated, Scan;
    p, state := start, Start;
    TallyNothing(counts[..]);
    ghost var seen: seq<Byte> := [];
    ScanNothing();
    while block[p] != NUL && state != Invalid
      invariant block[..] == text
      invariant start <= p <= stop && seen == text[start..p]
      invariant state == Scan(seen)
      invariant state == Invalid ==> seen != [] && Scan(seen[..|seen| - 1]) != Invalid
      invariant Tallied(old(counts[..]), seen, counts[..])
      decreases stop - p
    {
      var symbol := block[p];
      if symbol == COMMA {
        TokenIs(text, start, p);
        p := p + 1;
        break;
      }
      ghost var mid := counts[..];
      state := Move(state, symbol, counts);
      TallyOneMore(old(counts[..]), seen, mid, symbol, counts[..]);
      seen := seen + [symbol];
      p := p + 1;
    }
    if p <= stop { TokenIs(text, start, p); }
  }
}
