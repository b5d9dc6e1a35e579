/** The fields that number writes, place by place, in every base. */
module NumberLayout {
  import opened MachineTypes
  import opened NumberText

  /** What a digit character counts. */
  function Worth(c: char): nat {
    if '0' <= c <= '9' then (c - '0') as int
    else if 'a' <= c <= 'z' then 10 + (c - 'a') as int
    else if 'A' <= c <= 'Z' then 10 + (c - 'A') as int
    else 36
  }

  /** The value of a run of digits in this base. */
  function ValueIn(s: string, base: nat): nat {
    if s == "" then 0 else ValueIn(s[..|s| - 1], base) * base + Worth(s[|s| - 1])
  }

  predicate InCase(c: char, upper: bool) {
    if upper then !('a' <= c <= 'z') else !('A' <= c <= 'Z')
  }

  /** Digits of this base in this case. */
  predicate AllIn(s: string, base: nat, upper: bool) {
    forall i :: 0 <= i < |s| ==> Worth(s[i]) < base && InCase(s[i], upper)
  }

  lemma WorthOfDigit(d: nat, upper: bool)
    requires d < 36
    ensures Worth(DigitChar(d, upper)) == d && InCase(DigitChar(d, upper), upper)
    ensures DigitChar(d, upper) == '0' ==> d == 0
  {
  }

  lemma OneMore(s: string, c: char, base: nat, upper: bool)
    ensures ValueIn(s + [c], base) == ValueIn(s, base) * base + Worth(c)
    ensures AllIn(s + [c], base, upper) <==> AllIn(s, base, upper) && Worth(c) < base && InCase(c, upper)
    ensures ValueIn("", base) == 0 && AllIn("", base, upper)
  {
    hide Worth, InCase;
    var more := s + [c];
    assert more[..|s|] == s && more[|s|] == c;
    assert forall i :: 0 <= i < |s| ==> more[i] == s[i];
  }

  lemma Quotients(n: nat, base: nat)
    requires base > 0
    ensures n == Rest(n, base) * base + LowDigit(n, base)
  {
  }

  lemma {:induction false} DigitsInBase(n: nat, base: nat, upper: bool)
    requires 2 <= base <= 36
    ensures var s := Digits(n, base, upper);
      ValueIn(s, base) == n && AllIn(s, base, upper) && (n > 0 ==> s != "" && s[0] != '0')
    decreases n
  {
    hide DigitChar, Worth, InCase, Rest, LowDigit, ValueIn, AllIn;
    if n == 0 {
      OneMore("", '0', base, upper);
    } else {
      var q, d := Rest(n, base), LowDigit(n, base);
      DigitsStep(n, base, upper);
      Quotients(n, base);
      DigitsInBase(q, base, upper);
      WorthOfDigit(d, upper);
      OneMore(Digits(q, base, upper), DigitChar(d, upper), base, upper);
      if q == 0 {
        assert d == n;
      }
    }
  }

  lemma PrintedInBase(n: nat, base: nat, upper: bool)
    requires 2 <= base <= 36
    ensures var s := Printed(n, base, upper);
      ValueIn(s, base) == n && AllIn(s, base, upper) && (|s| > 1 ==> s[0] != '0')
  {
    DigitsInBase(n, base, upper);
    WorthOfDigit(0, upper);
    OneMore("", '0', base, upper);
    assert "" + ['0'] == "0";
    hide ValueIn, AllIn, Digits;
  }

  /** The one sign that a number gets. */
  predicate SignFor(sign: string, num: S32, f: Flags) {
    && |sign| <= 1
    && (sign == "-" <==> f.sign && num < 0)
    && (sign == "+" <==> f.sign && num >= 0 && f.plus)
    && (sign == " " <==> f.sign && num >= 0 && !f.plus && f.space)
    && (sign != "" ==> sign in {"-", "+", " "})
  }

  predicate PrefixFor(prefix: string, base: nat, f: Flags) {
    && (prefix == "0x" <==> f.hexPrep && base == 16)
    && (prefix == "0" <==> f.hexPrep && base == 8)
    && (prefix != "" ==> prefix in {"0x", "0"})
  }

  /** The digits are those of the magnitude, or without SIGN of the 32-bit pattern, with no zero in front. */
  predicate DigitsFor(digits: string, num: S32, base: nat, f: Flags) {
    && AllIn(digits, base, f.uppercase) && |digits| >= 1 && (|digits| > 1 ==> digits[0] != '0')
    && (f.sign ==> ValueIn(digits, base) == if num < 0 then -(num as int) else num)
    && (!f.sign ==> ValueIn(digits, base) < 0x1_0000_0000 && ToS32(ValueIn(digits, base)) == num)
  }

  lemma SignIs(num: S32, f: Flags)
    ensures SignFor(SignText(num, f), num, f)
  {
    assert "-"[0] == '-' && "+"[0] == '+' && " "[0] == ' ';
  }

  lemma PrefixIs(base: nat, f: Flags)
    ensures PrefixFor(Prefix(base, f), base, f)
  {
    assert |"0x"| == 2 && |"0"| == 1;
  }

  lemma DigitsAre(num: S32, base: nat, f: Flags)
    requires 2 <= base <= 36
    ensures DigitsFor(Printed(Magnitude(num, f), base, f.uppercase), num, base, f)
  {
    hide Printed, AllIn, ValueIn;
    PrintedInBase(Magnitude(num, f), base, f.uppercase);
  }

  lemma Emptied(c: char)
    ensures Fill(0, c) == ""
  {
  }

  /** The field without padding, and the padding on one of its sides or in front of its digits. */
  lemma Padded(num: S32, base: nat, size: int, precision: int, f: Flags)
    requires 2 <= base <= 36
    ensures var pad, zeros := Room(num, base, size, precision, f), Zeros(num, base, precision, f);
      var inner := if f.zeropad && !f.left then zeros + pad else zeros;
      Format(num, base, size, precision, f) == Fill(if f.zeropad || f.left then 0 else pad, ' ')
        + Content(num, base, inner, f) + Fill(if f.left then pad else 0, ' ')
  {
    hide Content, Room, Zeros, Fill;
    Emptied(' ');
    var pad, zeros := Room(num, base, size, precision, f), Zeros(num, base, precision, f);
    if f.left {
      assert "" + Content(num, base, zeros, f) == Content(num, base, zeros, f);
    } else if f.zeropad {
      assert "" + Content(num, base, pad + zeros, f) + "" == Content(num, base, pad + zeros, f);
    } else {
      var field := Fill(pad, ' ') + Content(num, base, zeros, f);
      assert field + "" == field;
    }
  }

  /** What a field holds besides its digits. */
  lemma Widths(num: S32, base: nat, size: int, precision: int, f: Flags)
    requires 2 <= base <= 36
    ensures var pad, zeros := Room(num, base, size, precision, f), Zeros(num, base, precision, f);
      var digits, width := Printed(Magnitude(num, f), base, f.uppercase), |Format(num, base, size, precision, f)|;
      && zeros + |digits| >= precision && (zeros > 0 ==> zeros + |digits| == precision)
      && width >= size && (pad > 0 ==> width == size)
  {
    hide Printed, SignText, Prefix, Magnitude, Fill;
    FormatLength(num, base, size, precision, f);
    hide Format;
  }

  /** A field is spaces, sign, prefix, zeros, digits, spaces. Spaces and zeros fill no more than the width asks for:
      zeros beyond the precision under ZEROPAD, else spaces, behind the digits under LEFT. */
  lemma FieldLayout(num: S32, base: nat, size: int, precision: int, f: Flags)
    returns (lead: nat, sign: string, prefix: string, zeros: nat, digits: string, trail: nat)
    requires 2 <= base <= 36
    ensures Format(num, base, size, precision, f) ==
      Fill(lead, ' ') + (sign + (prefix + (Fill(zeros, '0') + digits))) + Fill(trail, ' ')
    ensures SignFor(sign, num, f) && PrefixFor(prefix, base, f) && DigitsFor(digits, num, base, f)
    ensures zeros + |digits| >= precision && |Format(num, base, size, precision, f)| >= size
    ensures zeros > 0 && zeros + |digits| > precision ==>
      f.zeropad && !f.left && |Format(num, base, size, precision, f)| == size
    ensures lead > 0 ==> !f.zeropad && !f.left && |Format(num, base, size, precision, f)| == size
    ensures trail > 0 ==> f.left && |Format(num, base, size, precision, f)| == size
  {
    digits := Printed(Magnitude(num, f), base, f.uppercase);
    sign, prefix := SignText(num, f), Prefix(base, f);
    var pad := Room(num, base, size, precision, f);
    zeros := Zeros(num, base, precision, f) + if f.zeropad && !f.left then pad else 0;
    lead, trail := if f.zeropad || f.left then 0 else pad, if f.left then pad else 0;
    hide SignText, Prefix, Magnitude, Printed, Format, Fill, Room, Zeros, SignFor, PrefixFor, DigitsFor;
    SignIs(num, f);
    PrefixIs(base, f);
    DigitsAre(num, base, f);
    Padded(num, base, size, precision, f);
    Widths(num, base, size, precision, f);
  }
}
