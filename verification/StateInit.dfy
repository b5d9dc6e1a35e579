/** core_init_state: the text that the scanner of core_state.c reads. */
module StateInit {
  import opened MachineTypes
  import opened Scanner
  import opened ScannerTheory
  import opened Division

  function Code(c: char): Byte
    requires c < 128 as char
  {
    c as int
  }

  function Ascii(s: string): (bytes: seq<Byte>)
    requires forall i :: 0 <= i < |s| ==> s[i] < 128 as char
    ensures |bytes| == |s|
  {
    seq(|s|, i requires 0 <= i < |s| => Code(s[i]))
  }

  function IntPattern(i: nat): (p: seq<Byte>)
    requires i < 4
    ensures |p| == 4
  {
    match i
    case 0 => Ascii("5012")
    case 1 => Ascii("1234")
    case 2 => Ascii("-874")
    case _ => Ascii("+122")
  }

  function FloatPattern(i: nat): (p: seq<Byte>)
    requires i < 4
    ensures |p| == 8
  {
    match i
    case 0 => Ascii("35.54400")
    case 1 => Ascii(".1234500")
    case 2 => Ascii("-110.700")
    case _ => Ascii("+0.64400")
  }

  function SciPattern(i: nat): (p: seq<Byte>)
    requires i < 4
    ensures |p| == 8
  {
    match i
    case 0 => Ascii("5.500e+3")
    case 1 => Ascii("-.123e-2")
    case 2 => Ascii("-87e+832")
    case _ => Ascii("+0.6e-12")
  }

  function ErrPattern(i: nat): (p: seq<Byte>)
    requires i < 4
    ensures |p| == 8
  {
    match i
    case 0 => Ascii("T0.3e-1F")
    case 1 => Ascii("-T.T++Tq")
    case 2 => Ascii("1T3.4e4z")
    case _ => Ascii("34.0e-T^")
  }

  /** The pattern that a seed chooses. */
  function Pattern(seed: S16): (p: seq<Byte>)
    ensures 4 <= |p| <= 8
  {
    var i := seed / 8 % 4;
    match seed % 8
    case 0 => IntPattern(i)
    case 1 => IntPattern(i)
    case 2 => IntPattern(i)
    case 3 => FloatPattern(i)
    case 4 => FloatPattern(i)
    case 5 => SciPattern(i)
    case 6 => SciPattern(i)
    case _ => ErrPattern(i)
  }

  /** The fields from total on, when seed chooses the next one: as many as leave two bytes over. */
  function Fields(total: nat, size: nat, seed: S16): (text: seq<Byte>)
    ensures text != [] ==> total + |text| + 2 <= size
    decreases size - total
  {
    var p := Pattern(seed);
    if total + |p| + 1 < size - 1
    then p + [COMMA] + Fields(total + |p| + 1, size, ToS16(seed + 1))
    else []
  }

  function Zeros(n: nat): seq<Byte> {
    seq(n, _ => NUL)
  }

  function InitText(size: nat, seed: S16): (text: seq<Byte>)
    requires size >= 1
    ensures |text| == size
    ensures size >= 2 ==> text[size - 1] == text[size - 2] == NUL
  {
    var fields := Fields(0, size, ToS16(seed + 1));
    fields + Zeros(size - |fields|)
  }

  /** One field and its comma, written at total. */
  method WriteField(block: array<Byte>, total: nat, buf: seq<Byte>)
    requires total + |buf| < block.Length
    modifies block
    ensures block[..total + |buf| + 1] == old(block[..total]) + (buf + [COMMA])
  {
    for i := 0 to |buf|
      invariant block[..total] == old(block[..total])
      invariant block[total..total + i] == buf[..i]
    {
      block[total + i] := buf[i];
    }
    block[total + |buf|] := COMMA;
  }

  method FillZeros(block: array<Byte>, from: nat)
    requires from <= block.Length
    modifies block
    ensures block[..] == old(block[..from]) + Zeros(block.Length - from)
  {
    var total := from;
    while total < block.Length
      invariant from <= total <= block.Length
      invariant block[..from] == old(block[..from])
      invariant forall i :: from <= i < total ==> block[i] == NUL
    {
      block[total] := NUL;
      total := total + 1;
    }
  }

  /** core_init_state. The sum total + next + 1 is a 32-bit one; a block that leaves it room keeps it exact. */
  method InitState(size: U32, seed: S16, block: array<Byte>)
    requires 1 <= size < 0x1_0000_0000 - 8 && block.Length == size
    modifies block
    ensures block[..] == InitText(size, seed)
  {
    var limit := size - 1;
    var total, next, seed', buf: seq<Byte> := 0, 0, seed, [];
    ghost var first := ToS16(seed + 1);
    hide Pattern, ToS16;
    while total + next + 1 < limit
      invariant total <= size && next == |buf|
      invariant buf == [] ==> total == 0 && seed' == seed
      invariant buf != [] ==>
        buf == Pattern(seed') && block[..total] + Fields(total, size, seed') == Fields(0, size, first)
      decreases size - total, if buf == [] then 1 else 0
    {
      if next > 0 {
        WriteField(block, total, buf);
        total := total + next + 1;
      }
      seed' := ToS16(seed' as int + 1);
      buf := Pattern(seed');
      next := |buf|;
    }
    assert block[..total] == Fields(0, size, first);
    FillZeros(block, total);
  }

  // ----- which fields the block holds

  lemma LowFiveBits(x: int)
    ensures ToS16(x) % 32 == x % 32
  {
    var y := x + 0x8000;
    var w := y % 0x1_0000 - 0x8000;
    QuotientIs(x, 32, 2048 * (y / 0x1_0000) + w / 32, w % 32);
  }

  lemma LowBitsOf(w: int)
    ensures w % 8 == w % 32 % 8 && w / 8 % 4 == w % 32 / 8
  {
    var c, d := w / 32, w % 32;
    QuotientIs(w, 8, 4 * c + d / 8, d % 8);
    QuotientIs(w / 8, 4, c, d / 8);
  }

  /** A pattern depends on the low five bits of its seed alone; it has four bytes for three seeds out of eight. */
  lemma PatternsRepeat(seed: int)
    ensures Pattern(ToS16(seed)) == Pattern(seed % 32)
    ensures |Pattern(ToS16(seed))| == if seed % 8 <= 2 then 4 else 8
  {
    hide ToS16, IntPattern, FloatPattern, SciPattern, ErrPattern;
    LowFiveBits(seed);
    LowBitsOf(seed);
    LowBitsOf(ToS16(seed));
    LowBitsOf(seed % 32);
  }

  lemma NextSeed(x: int)
    ensures ToS16(ToS16(x) + 1) == ToS16(x + 1)
  {
    var y := x + 0x8000;
    var q, r := y / 0x1_0000, y % 0x1_0000;
    if r == 0xffff {
      QuotientIs(y + 1, 0x1_0000, q + 1, 0);
    } else {
      QuotientIs(y + 1, 0x1_0000, q, r + 1);
    }
  }

  /** The field with this number begins at starts[j]: it is the pattern of its own seed, and a comma. */
  ghost predicate FieldAt(text: seq<Byte>, starts: seq<nat>, seed: int, j: nat)
    requires j + 1 < |starts|
  {
    var p := Pattern(ToS16(seed + 1 + j));
    && starts[j + 1] == starts[j] + |p| + 1 <= |text|
    && text[starts[j]..starts[j + 1]] == p + [COMMA]
  }

  ghost predicate FieldsAt(text: seq<Byte>, starts: seq<nat>, seed: int) {
    && |starts| >= 1 && starts[0] == 0
    && forall j :: 0 <= j < |starts| - 1 ==> FieldAt(text, starts, seed, j)
  }

  /** A field of a text is one of every longer text. */
  lemma FieldInLonger(text: seq<Byte>, longer: seq<Byte>, starts: seq<nat>, seed: int, j: nat)
    requires j + 1 < |starts| && FieldAt(text, starts, seed, j) && text <= longer
    ensures FieldAt(longer, starts, seed, j)
  {
    hide Pattern, ToS16;
    assert longer[starts[j]..starts[j + 1]] == text[starts[j]..starts[j + 1]];
  }

  lemma FieldBehind(first: seq<Byte>, rest: seq<Byte>, later: seq<nat>, starts: seq<nat>, seed: int, j: nat)
    requires |starts| == |later| + 1 && 1 <= j < |later| && starts[0] == 0
    requires forall i :: 0 <= i < |later| ==> starts[i + 1] == later[i] + |first|
    requires FieldAt(rest, later, seed + 1, j - 1)
    ensures FieldAt(first + rest, starts, seed, j)
  {
    hide Pattern, ToS16;
    var text := first + rest;
    assert starts[j - 1 + 1] == later[j - 1] + |first| && starts[j + 1] == later[j] + |first|;
    assert text[starts[j]..starts[j + 1]] == rest[later[j - 1]..later[j]];
    assert seed + 1 + 1 + (j - 1) == seed + 1 + j;
  }

  lemma FieldsUnfold(total: nat, size: nat, seed: int)
    ensures var p, text := Pattern(ToS16(seed + 1)), Fields(total, size, ToS16(seed + 1));
      if total + |p| + 1 < size - 1
      then text == p + [COMMA] + Fields(total + |p| + 1, size, ToS16(seed + 2))
      else text == []
  {
    hide Pattern, ToS16;
    NextSeed(seed + 1);
  }

  lemma {:induction false} FieldsInTurn(total: nat, size: nat, seed: int) returns (starts: seq<nat>)
    ensures FieldsAt(Fields(total, size, ToS16(seed + 1)), starts, seed)
    ensures starts[|starts| - 1] == |Fields(total, size, ToS16(seed + 1))|
    ensures total + |Fields(total, size, ToS16(seed + 1))| + |Pattern(ToS16(seed + |starts|))| + 2 >= size
    decreases size - total
  {
    hide Pattern, Fields, ToS16;
    FieldsUnfold(total, size, seed);
    var p := Pattern(ToS16(seed + 1));
    starts := [0];
    if total + |p| + 1 < size - 1 {
      var first, rest := p + [COMMA], Fields(total + |p| + 1, size, ToS16(seed + 2));
      var later := FieldsInTurn(total + |p| + 1, size, seed + 1);
      starts := [0] + seq(|later|, i requires 0 <= i < |later| => later[i] + |first|);
      assert seed + 1 + |later| == seed + |starts|;
      forall j | 0 <= j < |starts| - 1 ensures FieldAt(first + rest, starts, seed, j) {
        if j == 0 {
          assert (first + rest)[..|first|] == first;
        } else {
          assert FieldAt(rest, later, seed + 1, j - 1);
          FieldBehind(first, rest, later, starts, seed, j);
        }
      }
    }
  }

  /** The block from its first byte: the fields of the seeds behind the given one, each with its comma, as many
      as leave two bytes over, and zeros. */
  lemma InitTextIsFields(size: nat, seed: S16) returns (starts: seq<nat>)
    requires size >= 1
    ensures FieldsAt(InitText(size, seed), starts, seed) && starts[|starts| - 1] <= size
    ensures |starts| > 1 ==> starts[|starts| - 1] + 2 <= size
    ensures starts[|starts| - 1] + |Pattern(ToS16(seed as int + |starts|))| + 1 + 2 > size
    ensures forall k :: starts[|starts| - 1] <= k < size ==> InitText(size, seed)[k] == NUL
  {
    hide Pattern, Fields, ToS16;
    starts := FieldsInTurn(0, size, seed);
    var text, fields := InitText(size, seed), Fields(0, size, ToS16(seed as int + 1));
    hide InitText;
    if |starts| > 1 {
      assert FieldAt(fields, starts, seed, |starts| - 2);
    }
    forall j | 0 <= j < |starts| - 1 ensures FieldAt(text, starts, seed, j) {
      FieldInLonger(fields, text, starts, seed, j);
    }
  }

  // ----- what the scanner makes of the patterns

  lemma IntPatternIsInt(i: nat)
    requires i < 4
    ensures IsInt(IntPattern(i))
  {
    var p := IntPattern(i);
    var k := if i < 2 then 0 else 1;
    assert IntParts(p, p[..k], p[k..]);
  }

  lemma FloatWithDotAt(p: seq<Byte>, k: nat, dot: nat)
    requires k <= dot < |p| && OptSign(p[..k]) && p[dot] == DOT
    requires forall i :: k <= i < |p| && i != dot ==> IsDigit(p[i])
    ensures IsFloat(p)
  {
    assert p == p[..k] + p[k..dot] + [DOT] + p[dot + 1..];
    assert FloatParts(p, p[..k], p[k..dot], p[dot + 1..]);
  }

  lemma FloatPatternIsFloat(i: nat)
    requires i < 4
    ensures IsFloat(FloatPattern(i))
  {
    var p := FloatPattern(i);
    match i {
      case 0 => FloatWithDotAt(p, 0, 2);
      case 1 => FloatWithDotAt(p, 0, 0);
      case 2 => FloatWithDotAt(p, 1, 4);
      case _ => FloatWithDotAt(p, 1, 2);
    }
  }

  lemma ScientificWithSignAt(p: seq<Byte>, e: nat)
    requires e + 2 < |p| && IsFloat(p[..e]) && IsE(p[e]) && IsSign(p[e + 1])
    requires forall i :: e + 2 <= i < |p| ==> IsDigit(p[i])
    ensures IsScientific(p)
  {
    var m := p[..e + 2];
    assert m[..e] == p[..e];
    assert SciParts(p, m, p[e + 2..]);
  }

  lemma SciPatternIsScientific(i: nat)
    requires i < 4 && i != 2
    ensures IsScientific(SciPattern(i))
  {
    var p := SciPattern(i);
    match i {
      case 0 =>
        FloatWithDotAt(p[..5], 0, 1);
        ScientificWithSignAt(p, 5);
      case 1 =>
        FloatWithDotAt(p[..5], 1, 1);
        ScientificWithSignAt(p, 5);
      case _ =>
        FloatWithDotAt(p[..4], 1, 2);
        ScientificWithSignAt(p, 4);
    }
  }

  lemma SpoiltBy(p: seq<Byte>, k: nat)
    requires k < |p| && Next(Scan(p[..k]), p[k]) == Invalid
    ensures Scan(p) == Invalid
  {
    assert p[..k + 1] == p[..k] + [p[k]];
    ScanOneMore(p[..k], p[k]);
    StaysInvalid(p);
  }

  /** The scanner wants a dot before an exponent. */
  lemma SciPatternWithoutDot()
    ensures Scan(SciPattern(2)) == Invalid
  {
    var p := SciPattern(2);
    assert IntParts(p[..3], p[..1], p[1..3]);
    Verdict(p[..3]);
    SpoiltBy(p, 3);
  }

  lemma FirstErrPattern()
    ensures Scan(ErrPattern(0)) == Invalid
  {
    SpoiltBy(ErrPattern(0), 0);
  }

  lemma FirstByte(p: seq<Byte>)
    requires p != []
    ensures Scan(p[..1]) == Next(Start, p[0])
  {
    assert p[..1] == [] + [p[0]];
    ScanOneMore([], p[0]);
  }

  lemma SecondErrPattern()
    ensures Scan(ErrPattern(1)) == Invalid
  {
    hide Scan;
    FirstByte(ErrPattern(1));
    SpoiltBy(ErrPattern(1), 1);
  }

  lemma ThirdErrPattern()
    ensures Scan(ErrPattern(2)) == Invalid
  {
    hide Scan;
    FirstByte(ErrPattern(2));
    SpoiltBy(ErrPattern(2), 1);
  }

  lemma FourthErrPattern()
    ensures Scan(ErrPattern(3)) == Invalid
  {
    hide Scan, IsFloat;
    var p := ErrPattern(3);
    FloatWithDotAt(p[..4], 0, 2);
    assert p[..6][..4] == p[..4];
    assert IsMantissa(p[..6]);
    ScanOfMantissa(p[..6]);
    SpoiltBy(p, 6);
  }

  lemma ErrPatternIsInvalid(i: nat)
    requires i < 4
    ensures Scan(ErrPattern(i)) == Invalid
  {
    hide Scan, ErrPattern;
    if i == 0 { FirstErrPattern(); }
    if i == 1 { SecondErrPattern(); }
    if i == 2 { ThirdErrPattern(); }
    if i == 3 { FourthErrPattern(); }
  }

  /** Every initial field gets the verdict its pattern was meant for, except the scientific pattern
      without a dot. */
  lemma PatternVerdict(seed: S16)
    ensures Scan(Pattern(seed)) ==
      if seed % 8 <= 2 then Int
      else if seed % 8 <= 4 then Float
      else if seed % 8 <= 6 && seed / 8 % 4 != 2 then Scientific
      else Invalid
  {
    hide Ascii, Scan, IsInt, IsFloat, IsScientific, IntPattern, FloatPattern, SciPattern, ErrPattern;
    var i := seed / 8 % 4;
    Verdict(Pattern(seed));
    match seed % 8 {
      case 0 => IntPatternIsInt(i);
      case 1 => IntPatternIsInt(i);
      case 2 => IntPatternIsInt(i);
      case 3 => FloatPatternIsFloat(i);
      case 4 => FloatPatternIsFloat(i);
      case 7 => ErrPatternIsInvalid(i);
      case _ => if i == 2 { SciPatternWithoutDot(); } else { SciPatternIsScientific(i); }
    }
  }
}
