/** Numbers as text: the formatter number of ee_printf.c, the reader parseval of core_util.c, and when
    the second undoes the first. */
module NumberText {
  import opened Bitwise
  import opened MachineTypes
  import opened Sequences

  /** The bits of type. */
  datatype Flags = Flags(zeropad: bool, sign: bool, plus: bool, space: bool, left: bool, hexPrep: bool, uppercase: bool)

  function DigitChar(d: nat, upper: bool): char
    requires d < 36
  {
    if d < 10 then '0' + d as char else if upper then 'A' + (d - 10) as char else 'a' + (d - 10) as char
  }

  /** The least significant digit of n, and the rest of n. */
  function LowDigit(n: nat, base: nat): (d: nat)
    requires base > 0
    ensures d < base
  {
    n % base
  }

  function Rest(n: nat, base: nat): (r: nat)
    requires base > 0
    ensures base >= 2 ==> r <= n / 2
  {
    QuotientHalves(n, base);
    n / base
  }

  lemma QuotientHalves(n: nat, base: nat)
    requires base > 0
    ensures n / base >= 0 && (base >= 2 ==> n / base <= n / 2)
  {
    var q := n / base;
    assert n == base * q + n % base;
    if base >= 2 {
      assert base * q == 2 * q + (base - 2) * q;
      assert (base - 2) * q >= 0;
    }
  }

  /** The digits of n, most significant first; none for 0. */
  function Digits(n: nat, base: nat, upper: bool): string
    requires 2 <= base <= 36
    decreases n
  {
    if n == 0 then "" else Digits(Rest(n, base), base, upper) + [DigitChar(LowDigit(n, base), upper)]
  }

  /** The digits printed for n: at least one. */
  function Printed(n: nat, base: nat, upper: bool): (s: string)
    requires 2 <= base <= 36
    ensures |s| > 0
  {
    if n == 0 then "0" else Digits(n, base, upper)
  }

  function Fill(n: int, c: char): (s: string)
    ensures |s| == Max(n, 0)
  {
    seq(Max(n, 0), _ => c)
  }

  function Max(a: int, b: int): int {
    if a < b then b else a
  }

  function SignText(num: S32, f: Flags): string {
    if !f.sign then "" else if num < 0 then "-" else if f.plus then "+" else if f.space then " " else ""
  }

  function Prefix(base: nat, f: Flags): string {
    if f.hexPrep && base == 8 then "0" else if f.hexPrep && base == 16 then "0x" else ""
  }

  /** What is printed as digits of a 32-bit long: the magnitude under SIGN, else the 32-bit pattern read as
      unsigned. */
  function Magnitude(num: S32, f: Flags): nat
  {
    if num >= 0 then num else if f.sign then -(num as int) else num as int + 0x1_0000_0000
  }

  /** Sign, prefix, zeros up to the precision, digits. */
  function Content(num: S32, base: nat, zeros: int, f: Flags): string
    requires 2 <= base <= 36
  {
    SignText(num, f) + (Prefix(base, f) + (Fill(zeros, '0') + Printed(Magnitude(num, f), base, f.uppercase)))
  }

  /** The zeros that the precision adds, and the columns left of the field. */
  function Zeros(num: S32, base: nat, precision: int, f: Flags): (z: nat)
    requires 2 <= base <= 36
  {
    Max(precision - |Printed(Magnitude(num, f), base, f.uppercase)|, 0)
  }

  function Room(num: S32, base: nat, size: int, precision: int, f: Flags): (pad: nat)
    requires 2 <= base <= 36
  {
    Max(size - |Content(num, base, Zeros(num, base, precision, f), f)|, 0)
  }

  /** The field: padded on the left with spaces or, after sign and prefix, zeros, or on the right. */
  function Format(num: S32, base: nat, size: int, precision: int, f: Flags): string
    requires 2 <= base <= 36
  {
    var pad, zeros := Room(num, base, size, precision, f), Zeros(num, base, precision, f);
    if f.left then Content(num, base, zeros, f) + Fill(pad, ' ')
    else if f.zeropad then Content(num, base, pad + zeros, f)
    else Fill(pad, ' ') + Content(num, base, zeros, f)
  }

  // ----- number

  lemma DigitsStep(n: nat, base: nat, upper: bool)
    requires 2 <= base <= 36 && n > 0
    ensures Digits(n, base, upper) == Digits(Rest(n, base), base, upper) + [DigitChar(LowDigit(n, base), upper)]
  {
  }

  lemma {:induction false} DigitsFit(n: nat, base: nat, upper: bool, k: nat)
    requires 2 <= base <= 36 && n < Pow2(k)
    ensures |Digits(n, base, upper)| <= k
    decreases n
  {
    if n > 0 {
      DigitsStep(n, base, upper);
      assert n / 2 < Pow2(k - 1);
      hide Digits, DigitChar, Pow2, Rest, LowDigit;
      DigitsFit(Rest(n, base), base, upper, k - 1);
    }
  }

  lemma Pow2Of32()
    ensures Pow2(32) == 0x1_0000_0000
  {
    assert Pow2(8) == 0x100;
    assert Pow2(16) == 0x1_0000;
    assert Pow2(24) == 0x100_0000;
  }

  /** The loop that fills tmp, least significant digit first. */
  method FillDigits(n: nat, base: nat, upper: bool, tmp: array<char>) returns (i: nat)
    requires 2 <= base <= 36 && n < 0x1_0000_0000 && tmp.Length == 66
    modifies tmp
    ensures i <= tmp.Length && Reversed(tmp[..i]) == Printed(n, base, upper)
  {
    hide Digits, DigitChar, Pow2, Reversed, Printed, Rest, LowDigit;
    PrintedDigits(n, base, upper);
    ReversedNothing<char>();
    var num: nat := n;
    i := 0;
    assert tmp[..0] == "";
    if num == 0 {
      tmp[0] := '0';
      i := 1;
      assert tmp[..1] == "" + ['0'];
      ReversedMore("", '0');
      assert ['0'] + "" == "0";
      return;
    }
    while num != 0
      invariant i <= 32
      invariant Digits(num, base, upper) + Reversed(tmp[..i]) == Digits(n, base, upper)
    {
      DigitsStep(num, base, upper);
      assert |Digits(num, base, upper) + Reversed(tmp[..i])| <= 32;
      ghost var before := tmp[..i];
      tmp[i] := DigitChar(LowDigit(num, base), upper);
      assert tmp[..i + 1] == before + [tmp[i]];
      ReversedMore(before, tmp[i]);
      num := Rest(num, base);
      assert Digits(num, base, upper) + [tmp[i]] + Reversed(before) ==
        Digits(num, base, upper) + ([tmp[i]] + Reversed(before));
      i := i + 1;
    }
    assert "" + Reversed(tmp[..i]) == Reversed(tmp[..i]);
  }

  lemma PrintedDigits(n: nat, base: nat, upper: bool)
    requires 2 <= base <= 36 && n < 0x1_0000_0000
    ensures Printed(n, base, upper) == (if n == 0 then "0" else Digits(n, base, upper))
    ensures |Digits(n, base, upper)| <= 32
    ensures Digits(0, base, upper) == ""
  {
    Pow2Of32();
    DigitsFit(n, base, upper, 32);
  }

  /** while (size-- > 0) *str++ = c: the test decrements once more when it fails. */
  method Pad(str: string, size: int, c: char) returns (str': string, size': int)
    ensures str' == str + Fill(size, c) && size' == if size > 0 then -1 else size - 1
  {
    str', size' := str, size;
    while size' > 0
      invariant str' + Fill(size', c) == str + Fill(size, c)
      invariant size' == size || 0 <= size' < size
    {
      assert [c] + Fill(size' - 1, c) == Fill(size', c);
      str', size' := str' + [c], size' - 1;
    }
    assert str' + Fill(size', c) == str';
    size' := size' - 1;
  }

  /** while (i-- > 0) *str++ = tmp[i] */
  method Copy(str: string, tmp: array<char>, i: nat) returns (str': string)
    requires i <= tmp.Length
    ensures str' == str + Reversed(tmp[..i])
  {
    str' := str;
    var k: nat := i;
    ReversedNothing<char>();
    while k > 0
      invariant k <= i
      invariant str' + Reversed(tmp[..k]) == str + Reversed(tmp[..i])
    {
      k := k - 1;
      assert tmp[..k + 1] == tmp[..k] + [tmp[k]];
      ReversedMore(tmp[..k], tmp[k]);
      assert str' + ([tmp[k]] + Reversed(tmp[..k])) == (str' + [tmp[k]]) + Reversed(tmp[..k]);
      str' := str' + [tmp[k]];
    }
    assert tmp[..0] == "" && str' + "" == str';
  }

  /** The second half of number: the field is written piece by piece. */
  method WriteField(str: string, size: int, precision: int, zeropad: bool, left: bool, sign: string, prefix: string,
                    tmp: array<char>, i: nat)
    returns (str': string)
    requires i <= tmp.Length && !(zeropad && left)
    ensures var digits, pad := Reversed(tmp[..i]), size - Max(precision, i);
      var tail := Fill(precision - i, '0') + digits;
      str' == if left then str + (sign + prefix) + tail + Fill(pad, ' ')
              else if zeropad then str + (sign + prefix) + Fill(pad, '0') + tail
              else str + Fill(pad, ' ') + (sign + prefix) + tail
  {
    hide Reversed, Fill;
    var c := if zeropad then '0' else ' ';
    var precision' := if i > precision then i else precision;
    var size' := size - precision';
    ghost var pad := size';
    str' := str;
    if !(zeropad || left) {
      str', size' := Pad(str', size', ' ');
    }
    assert str' == if zeropad || left then str else str + Fill(pad, ' ');
    ghost var str1 := str';
    str' := str' + sign;
    str' := str' + prefix;
    assert str' == str1 + (sign + prefix);
    if !left {
      NothingLeft(str', size', c);
      str', size' := Pad(str', size', c);
    }
    ghost var str2 := str';
    NothingLeft("", precision - i, '0');
    NothingLeft("", precision' - i, '0');
    str', precision' := Pad(str', precision' - i, '0');
    str' := Copy(str', tmp, i);
    assert str' == str2 + (Fill(precision - i, '0') + Reversed(tmp[..i]));
    NothingLeft(str', size', ' ');
    str', size' := Pad(str', size', ' ');
  }

  lemma NothingLeft(str: string, n: int, c: char)
    ensures n <= 0 ==> str + Fill(n, c) == str && Fill(n, c) == ""
  {
  }

  /** number; str is what has been written. A base that it does not accept gives a null pointer. */
  method Number(str: string, num: S32, base: int, size: int, precision: int, f: Flags) returns (ok: bool, str': string)
    ensures ok <==> 2 <= base <= 36
    ensures ok ==> str' == str + Format(num, base, size, precision, f)
  {
    hide Printed, Reversed, Format, Max, Fill;
    if base < 2 || base > 36 {
      return false, str;
    }
    ok := true;
    var sign, num': S32, size' := "", num, size;
    if f.sign {
      if num < 0 {
        sign, num', size' := "-", ToS32(-(num as int)), size' - 1;
      } else if f.plus {
        sign, size' := "+", size' - 1;
      } else if f.space {
        sign, size' := " ", size' - 1;
      }
    }
    var prefix := "";
    if f.hexPrep {
      if base == 16 {
        prefix, size' := "0x", size' - 2;
      } else if base == 8 {
        prefix, size' := "0", size' - 1;
      }
    }
    var tmp := new char[66](_ => '0');
    var i := FillDigits(if num' < 0 then num' as int + 0x1_0000_0000 else num', base, f.uppercase, tmp);
    str' := WriteField(str, size', precision, f.zeropad && !f.left, f.left, sign, prefix, tmp, i);
    FieldIs(str, num, base, size, precision, f, Reversed(tmp[..i]), str');
  }

  /** The pieces of the field in the order they are written. */
  lemma FieldIs(str: string, num: S32, base: nat, size: int, precision: int, f: Flags, digits: string, str': string)
    requires 2 <= base <= 36
    requires digits == Printed(Magnitude(num, f), base, f.uppercase)
    requires var pad := size - |SignText(num, f)| - |Prefix(base, f)| - Max(precision, |digits|);
      var head := SignText(num, f) + Prefix(base, f);
      var tail := Fill(precision - |digits|, '0') + digits;
      str' == if f.left then str + head + tail + Fill(pad, ' ')
              else if f.zeropad then str + head + Fill(pad, '0') + tail
              else str + Fill(pad, ' ') + head + tail
    ensures str' == str + Format(num, base, size, precision, f)
  {
    hide Printed, SignText, Prefix, Magnitude, Fill, Max, Room, Zeros;
    var sign, prefix, zeros := SignText(num, f), Prefix(base, f), Zeros(num, base, precision, f);
    var room := Room(num, base, size, precision, f);
    RoomIs(num, base, size, precision, f, digits);
    FillSame(precision - |digits|, '0');
    FillSame(size - |sign| - |prefix| - Max(precision, |digits|), ' ');
    FillSame(size - |sign| - |prefix| - Max(precision, |digits|), '0');
    if f.left {
      LeftField(str, sign, prefix, Fill(zeros, '0') + digits, Fill(room, ' '));
    } else if f.zeropad {
      FillMore(room, zeros, '0');
      ZeroField(str, sign, prefix, Fill(room, '0'), Fill(zeros, '0'), digits);
    } else {
      Regroup(str, Fill(room, ' '), sign, prefix, Fill(zeros, '0') + digits);
    }
  }

  lemma RoomIs(num: S32, base: nat, size: int, precision: int, f: Flags, digits: string)
    requires 2 <= base <= 36
    requires digits == Printed(Magnitude(num, f), base, f.uppercase)
    ensures Zeros(num, base, precision, f) == Max(precision - |digits|, 0)
    ensures Room(num, base, size, precision, f) ==
      Max(size - |SignText(num, f)| - |Prefix(base, f)| - Max(precision, |digits|), 0)
  {
    hide Printed, SignText, Prefix, Magnitude, Fill;
  }

  lemma LeftField(a: string, c: string, d: string, e: string, g: string)
    ensures a + (c + d) + e + g == a + (c + (d + e) + g)
  {
  }

  lemma ZeroField(a: string, c: string, d: string, x: string, y: string, z: string)
    ensures a + (c + d) + x + (y + z) == a + (c + (d + (x + y + z)))
  {
  }

  lemma FillSame(n: int, c: char)
    ensures Fill(n, c) == Fill(Max(n, 0), c)
  {
  }

  lemma FillMore(m: nat, n: nat, c: char)
    ensures Fill(m, c) + Fill(n, c) == Fill(m + n, c)
  {
  }

  lemma Regroup(a: string, b: string, c: string, d: string, e: string)
    ensures a + b + (c + d) + e == a + (b + (c + (d + e)))
  {
  }

  /** The field is as wide as asked for, or as its content needs. */
  lemma FormatLength(num: S32, base: nat, size: int, precision: int, f: Flags)
    requires 2 <= base <= 36
    ensures |Format(num, base, size, precision, f)| ==
      Max(size, |SignText(num, f)| + |Prefix(base, f)|
        + Max(|Printed(Magnitude(num, f), base, f.uppercase)|, precision))
  {
    hide Printed, SignText, Prefix, Magnitude;
  }

  // ----- parseval

  predicate IsDigit(c: char, hex: bool) {
    '0' <= c <= '9' || (hex && 'a' <= c <= 'f')
  }

  function DigitValue(c: char): nat
    requires IsDigit(c, true)
  {
    if c <= '9' then (c - '0') as int else 10 + (c - 'a') as int
  }

  function BaseOf(hex: bool): nat {
    if hex then 16 else 10
  }

  /** The value of a run of digits. */
  function Value(s: string, hex: bool): nat
    requires forall i :: 0 <= i < |s| ==> IsDigit(s[i], hex)
  {
    if s == "" then 0
    else
      assert IsDigit(s[|s| - 1], hex);
      Value(s[..|s| - 1], hex) * BaseOf(hex) + DigitValue(s[|s| - 1])
  }

  predicate AllDigits(s: string, hex: bool) {
    forall i :: 0 <= i < |s| ==> IsDigit(s[i], hex)
  }

  lemma ValueOfNothing(hex: bool)
    ensures Value("", hex) == 0
  {
  }

  lemma ValueMore(s: string, c: char, hex: bool)
    requires AllDigits(s, hex) && IsDigit(c, hex)
    ensures AllDigits(s + [c], hex) && Value(s + [c], hex) == Value(s, hex) * BaseOf(hex) + DigitValue(c)
  {
    assert (s + [c])[..|s|] == s;
  }

  /** Where the digits that begin at i end; a NUL ends them at the latest. */
  function DigitsEnd(s: string, i: nat, hex: bool): (j: nat)
    requires i <= |s|
    ensures i <= j <= |s| && (forall k :: i <= k < j ==> IsDigit(s[k], hex)) && (j < |s| ==> !IsDigit(s[j], hex))
    decreases |s| - i
  {
    if i < |s| && IsDigit(s[i], hex) then DigitsEnd(s, i + 1, hex) else i
  }

  /** The string ends with its only NUL. */
  predicate IsCString(s: string) {
    |s| > 0 && s[|s| - 1] == '\0' && forall i :: 0 <= i < |s| - 1 ==> s[i] != '\0'
  }

  /** The sign, the prefix, the digits, the qualifier. */
  function SignEnd(s: string): (i: nat)
    requires IsCString(s)
    ensures i < |s|
  {
    if s[0] == '-' then 1 else 0
  }

  predicate IsHex(s: string)
    requires IsCString(s)
  {
    var i := SignEnd(s);
    i + 1 < |s| && s[i] == '0' && s[i + 1] == 'x'
  }

  function DigitsStart(s: string): (i: nat)
    requires IsCString(s)
    ensures i < |s|
  {
    SignEnd(s) + if IsHex(s) then 2 else 0
  }

  /** The size of the number that a string stands for, and the number. */
  function Size(s: string): nat
    requires IsCString(s)
  {
    var i, hex := DigitsStart(s), IsHex(s);
    var j := DigitsEnd(s, i, hex);
    Value(s[i..j], hex) * if j < |s| && s[j] == 'K' then 1024 else if j < |s| && s[j] == 'M' then 1024 * 1024 else 1
  }

  function Parse(s: string): int
    requires IsCString(s)
  {
    if SignEnd(s) == 1 then -(Size(s) as int) else Size(s)
  }

  /** parseval, in two's complement: the number itself if its size fits 31 bits. */
  method ParseVal(valstring: string) returns (retval: S32)
    requires IsCString(valstring)
    ensures retval == ToS32(Parse(valstring))
    ensures Size(valstring) < 0x8000_0000 ==> retval == Parse(valstring)
  {
    hide Value, ToS32;
    var neg, at, hexmode := 1, 0, false;
    if valstring[at] == '-' {
      neg, at := -1, at + 1;
    }
    if valstring[at] == '0' && valstring[at + 1] == 'x' {
      hexmode, at := true, at + 2;
    }
    ghost var start := at;
    retval, at := ReadDigits(valstring, at, hexmode);
    ghost var v := Value(valstring[start..at], hexmode);
    ghost var size := Size(valstring);
    Scaled(v);
    if valstring[at] == 'K' {
      retval := ToS32(retval as int * 1024);
    }
    if valstring[at] == 'M' {
      retval := ToS32(retval as int * (1024 * 1024));
    }
    Negated(size);
    retval := ToS32(retval as int * neg);
  }

  lemma WrapShift(x: int, k: int)
    ensures ToS32(x + 0x1_0000_0000 * k) == ToS32(x)
  {
  }

  lemma Wrapped(v: int) returns (k: int)
    ensures ToS32(v) == v - 0x1_0000_0000 * k
  {
    k := (v + 0x8000_0000) / 0x1_0000_0000;
  }

  lemma Scaled(v: int)
    ensures ToS32(ToS32(v) as int * 1024) == ToS32(v * 1024)
    ensures ToS32(ToS32(v) as int * (1024 * 1024)) == ToS32(v * (1024 * 1024))
  {
    var k := Wrapped(v);
    WrapShift(v * 1024, -k * 1024);
    WrapShift(v * (1024 * 1024), -k * (1024 * 1024));
    hide ToS32;
  }

  lemma Negated(v: int)
    ensures ToS32(ToS32(v) as int * -1) == ToS32(-v) && ToS32(ToS32(v) as int * 1) == ToS32(v)
    ensures -0x8000_0000 < v < 0x8000_0000 ==> ToS32(v) == v && ToS32(-v) == -v
  {
  }

  lemma OneMoreDigit(v: int, hex: bool, digit: int)
    ensures ToS32(ToS32(ToS32(v) as int * BaseOf(hex)) as int + digit) == ToS32(v * BaseOf(hex) + digit)
  {
    hide ToS32;
    var k := Wrapped(v);
    var x: int := ToS32(v) as int * BaseOf(hex);
    var j := Wrapped(x);
    WrapShift(v * BaseOf(hex) + digit, if hex then -k * 16 - j else -k * 10 - j);
  }

  lemma ReadOne(s: string, start: nat, at: nat, hex: bool)
    requires start <= at < |s| && IsDigit(s[at], hex) && forall k :: start <= k < at ==> IsDigit(s[k], hex)
    ensures IsDigit(s[at], true) && forall k :: start <= k < at + 1 ==> IsDigit(s[k], hex)
    ensures Value(s[start..at + 1], hex) == Value(s[start..at], hex) * BaseOf(hex) + DigitValue(s[at])
    ensures var x := ToS32(ToS32(Value(s[start..at], hex)) as int * BaseOf(hex));
      ToS32(x as int + DigitValue(s[at])) == ToS32(Value(s[start..at + 1], hex))
  {
    hide Value, BaseOf, DigitValue, ToS32;
    ValueMore(s[start..at], s[at], hex);
    assert s[start..at + 1] == s[start..at] + [s[at]];
    OneMoreDigit(Value(s[start..at], hex), hex, DigitValue(s[at]));
  }

  /** The two digit loops of parseval. */
  method ReadDigits(valstring: string, start: nat, hex: bool) returns (retval: S32, at: nat)
    requires IsCString(valstring) && start < |valstring|
    ensures at == DigitsEnd(valstring, start, hex) < |valstring| && retval == ToS32(Value(valstring[start..at], hex))
  {
    Negated(0);
    retval, at := 0, start;
    ValueOfNothing(hex);
    assert valstring[start..start] == "";
    hide Value, BaseOf, DigitValue, ToS32;
    while IsDigit(valstring[at], hex)
      invariant start <= at < |valstring|
      invariant DigitsEnd(valstring, at, hex) == DigitsEnd(valstring, start, hex)
      invariant forall k :: start <= k < at ==> IsDigit(valstring[k], hex)
      invariant retval == ToS32(Value(valstring[start..at], hex))
      decreases |valstring| - at
    {
      var digit := DigitValue(valstring[at]);
      ReadOne(valstring, start, at, hex);
      retval := ToS32(retval as int * BaseOf(hex));
      retval := ToS32(retval as int + digit);
      at := at + 1;
    }
  }

  /** The value only grows as digits are read: when the whole fits 31 bits, so does every step. */
  lemma {:induction false} ValueGrows(s: string, hex: bool, k: nat)
    requires AllDigits(s, hex) && k <= |s|
    ensures Value(s[..k], hex) <= Value(s, hex)
    ensures k < |s| ==> Value(s[..k], hex) * BaseOf(hex) <= Value(s, hex)
    decreases |s|
  {
    if k < |s| {
      var before := s[..|s| - 1];
      ValueGrows(before, hex, k);
      assert before[..k] == s[..k];
    } else {
      assert s[..k] == s;
    }
  }
}
