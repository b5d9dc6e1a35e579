/** When parseval reads back what number has written. */
module NumberRoundTrip {
  import opened MachineTypes
  import opened NumberText

  // ----- digits and their value

  lemma DigitOf(d: nat, hex: bool)
    requires d < BaseOf(hex)
    ensures IsDigit(DigitChar(d, false), hex) && DigitValue(DigitChar(d, false)) == d
  {
  }

  /** Reading the digits of a number gives the number. */
  lemma {:induction false} DigitsValue(n: nat, hex: bool)
    ensures var s := Digits(n, BaseOf(hex), false); AllDigits(s, hex) && Value(s, hex) == n
    decreases n
  {
    if n > 0 {
      var base := BaseOf(hex);
      DigitsStep(n, base, false);
      DigitsValue(Rest(n, base), hex);
      DigitOf(LowDigit(n, base), hex);
      ValueMore(Digits(Rest(n, base), base, false), DigitChar(LowDigit(n, base), false), hex);
      assert n == base * (n / base) + n % base;
    }
  }

  /** Leading zeros do not change a value. */
  lemma {:induction false} ZerosValue(z: int, s: string, hex: bool)
    requires AllDigits(s, hex)
    ensures AllDigits(Fill(z, '0') + s, hex) && Value(Fill(z, '0') + s, hex) == Value(s, hex)
    decreases |s|, z
  {
    if s != "" {
      var before := s[..|s| - 1];
      ZerosValue(z, before, hex);
      assert Fill(z, '0') + s == (Fill(z, '0') + before) + [s[|s| - 1]];
      ValueMore(Fill(z, '0') + before, s[|s| - 1], hex);
    } else if z > 0 {
      ZerosValue(z - 1, s, hex);
      assert Fill(z, '0') + s == (Fill(z - 1, '0') + s) + ['0'];
      ValueMore(Fill(z - 1, '0') + s, '0', hex);
    } else {
      assert Fill(z, '0') + s == s;
    }
  }

  /** No digit of n in base 16 is a letter. */
  predicate NoLetters(n: nat)
    decreases n
  {
    n == 0 || (LowDigit(n, 16) < 10 && NoLetters(Rest(n, 16)))
  }

  /** The digits printed for n in one base, read in the other or the same, give n: letters of either case
      end a decimal number, and capital ones a hexadecimal one. */
  predicate Legible(n: nat, hex: bool, hexRead: bool, upper: bool) {
    !hex || if hexRead then !upper || NoLetters(n) else n < 10
  }

  /** What may follow the digits that are read. */
  predicate Stops(rest: string, hexRead: bool) {
    rest != "" && !IsDigit(rest[0], hexRead)
    && (rest[0] == ' ' || rest[0] == '\0' || 'a' <= rest[0] <= 'f' || 'A' <= rest[0] <= 'F')
  }

  /** What can stand behind the last digit. */
  predicate Ends(rest: string, hexRead: bool) {
    rest != "" && !IsDigit(rest[0], hexRead) && rest[0] != 'x' && rest[0] != '-'
  }

  predicate NoNul(s: string) {
    forall i :: 0 <= i < |s| ==> s[i] != '\0'
  }

  /** The digits of n are a run that is read and a rest that is not; the value read is n or less. */
  lemma {:induction false} DigitsRead(n: nat, hex: bool, hexRead: bool, upper: bool) returns (run: string, rest: string)
    requires hexRead ==> hex
    ensures Digits(n, BaseOf(hex), upper) == run + rest && AllDigits(run, hexRead) && NoNul(rest)
    ensures rest != "" ==> Stops(rest, hexRead)
    ensures Value(run, hexRead) <= n && (rest != "" ==> Value(run, hexRead) < n)
    ensures Value(run, hexRead) == n <==> Legible(n, hex, hexRead, upper)
    decreases n
  {
    hide Digits, DigitChar, LowDigit, Rest, Value, Legible, IsDigit, DigitValue;
    run, rest := "", "";
    NoDigits(hex, hexRead, upper);
    if n > 0 {
      var d, q := LowDigit(n, BaseOf(hex)), Rest(n, BaseOf(hex));
      var c := DigitChar(d, upper);
      DigitsStep(n, BaseOf(hex), upper);
      OneDigit(d, hexRead, upper);
      Recombined(n, BaseOf(hex));
      run, rest := DigitsRead(q, hex, hexRead, upper);
      var seen, v := run, Value(run, hexRead);
      if rest == "" && IsDigit(c, hexRead) {
        ValueMore(run, c, hexRead);
        run := run + [c];
        assert seen + "" + [c] == run + rest;
        LastDigit(n, q, d, hex, hexRead, upper, v);
      } else {
        assert run + rest + [c] == run + (rest + [c]);
        StillIllegible(n, q, d, hex, hexRead, upper);
        assert rest == "" ==> rest + [c] == [c];
        rest := rest + [c];
      }
    }
  }

  lemma NoDigits(hex: bool, hexRead: bool, upper: bool)
    ensures Digits(0, BaseOf(hex), upper) == "" + "" && Value("", hexRead) == 0 && Legible(0, hex, hexRead, upper)
  {
  }

  lemma Recombined(n: nat, base: nat)
    requires base > 0
    ensures n == base * Rest(n, base) + LowDigit(n, base)
  {
  }

  /** A digit that is not read, or one before it, stays in the way. */
  lemma StillIllegible(n: nat, q: nat, d: nat, hex: bool, hexRead: bool, upper: bool)
    requires (hexRead ==> hex) && n == BaseOf(hex) * q + d && n > 0
    requires d == LowDigit(n, BaseOf(hex)) && q == Rest(n, BaseOf(hex))
    requires !Legible(q, hex, hexRead, upper) || (d >= 10 && !(hexRead && !upper))
    ensures !Legible(n, hex, hexRead, upper) && q < n
  {
    hide LowDigit, Rest;
  }

  /** One more digit that is read, after q was read as v. */
  lemma LastDigit(n: nat, q: nat, d: nat, hex: bool, hexRead: bool, upper: bool, v: nat)
    requires (hexRead ==> hex) && d < BaseOf(hex) && n == BaseOf(hex) * q + d && n > 0
    requires (d < 10 || (hexRead && !upper))
    requires d == LowDigit(n, BaseOf(hex)) && q == Rest(n, BaseOf(hex))
    requires v <= q && (v == q <==> Legible(q, hex, hexRead, upper))
    ensures v * BaseOf(hexRead) + d <= n && (v * BaseOf(hexRead) + d == n <==> Legible(n, hex, hexRead, upper))
  {
    hide LowDigit, Rest;
  }

  lemma OneDigit(d: nat, hexRead: bool, upper: bool)
    requires d < 16
    ensures var c := DigitChar(d, upper);
      && c != '\0' && (IsDigit(c, hexRead) <==> d < 10 || (hexRead && !upper))
      && (IsDigit(c, hexRead) ==> DigitValue(c) == d) && (!IsDigit(c, hexRead) ==> Stops([c], hexRead))
  {
  }

  // ----- parsing a field

  lemma {:induction false} RunEnds(s: string, i: nat, j: nat, hex: bool)
    requires i <= j < |s| && !IsDigit(s[j], hex) && forall k :: i <= k < j ==> IsDigit(s[k], hex)
    ensures DigitsEnd(s, i, hex) == j
    decreases j - i
  {
    if i < j { RunEnds(s, i + 1, j, hex); }
  }

  function Head(neg: bool, hex: bool): string {
    (if neg then "-" else "") + if hex then "0x" else ""
  }

  function Field(neg: bool, hex: bool, run: string, rest: string): string {
    Head(neg, hex) + (run + rest)
  }

  lemma TextBefore(a: string, rest: string)
    requires NoNul(a) && IsCString(rest)
    ensures IsCString(a + rest)
  {
  }

  lemma Slice(a: string, b: string, c: string)
    requires c != ""
    ensures var s, j := a + (b + c), |a| + |b|; s[|a|..j] == b && s[j] == c[0]
  {
  }

  /** Where sign, prefix and digits begin and end. */
  lemma FieldShape(neg: bool, hex: bool, run: string, rest: string)
    requires AllDigits(run, hex) && IsCString(rest) && Ends(rest, hex)
    ensures var s, i := Field(neg, hex, run, rest), |Head(neg, hex)|;
      && IsCString(s) && (SignEnd(s) == 1 <==> neg) && IsHex(s) == hex && DigitsStart(s) == i
      && i + |run| < |s| && s[i..i + |run|] == run && s[i + |run|] == rest[0]
  {
    TextBefore(run, rest);
    TextBefore(Head(neg, hex), run + rest);
    Slice(Head(neg, hex), run, rest);
    FieldBegins(neg, hex, run, rest);
  }

  lemma FieldBegins(neg: bool, hex: bool, run: string, rest: string)
    requires AllDigits(run, hex) && IsCString(rest) && Ends(rest, hex) && IsCString(Field(neg, hex, run, rest))
    ensures SignEnd(Field(neg, hex, run, rest)) == (if neg then 1 else 0) && IsHex(Field(neg, hex, run, rest)) == hex
  {
    hide IsCString;
    var s, text := Field(neg, hex, run, rest), run + rest;
    assert neg ==> s[0] == '-';
    if hex {
      assert neg ==> s[1] == '0' && s[2] == 'x';
    } else {
      var k := if neg then 1 else 0;
      assert s[k] == text[0] && text[0] != '-';
      assert k + 1 < |s| ==> s[k + 1] == text[1];
      assert text[0] == '0' ==> run != "" && text[1] == if |run| > 1 then run[1] else rest[0];
    }
  }

  /** A qualifier behind the digits multiplies the number: K by 2^10, M by 2^20. */
  lemma QualifierScales(neg: bool, hex: bool, run: string, rest: string)
    requires AllDigits(run, hex) && IsCString(rest)
    ensures var plain, kilo := Field(neg, hex, run, "\0"), Field(neg, hex, run, "K" + rest);
      var mega := Field(neg, hex, run, "M" + rest);
      && IsCString(plain) && IsCString(kilo) && IsCString(mega)
      && Parse(kilo) == 1024 * Parse(plain) && Parse(mega) == 1024 * 1024 * Parse(plain)
  {
    hide Value, Field, IsCString, Parse, AllDigits, Ends;
    Endings(hex, rest);
    ReadField(neg, hex, run, "\0");
    ReadField(neg, hex, run, "K" + rest);
    ReadField(neg, hex, run, "M" + rest);
  }

  lemma Endings(hex: bool, rest: string)
    requires IsCString(rest)
    ensures IsCString("\0") && IsCString("K" + rest) && IsCString("M" + rest)
    ensures Ends("\0", hex) && Ends("K" + rest, hex) && Ends("M" + rest, hex)
  {
    TextBefore("K", rest);
    TextBefore("M", rest);
  }

  lemma ReadField(neg: bool, hex: bool, run: string, rest: string)
    requires AllDigits(run, hex) && IsCString(rest) && Ends(rest, hex)
    ensures var s := Field(neg, hex, run, rest);
      var x := Value(run, hex) * if neg then -1 else 1;
      && IsCString(s)
      && Parse(s) == if rest[0] == 'K' then 1024 * x else if rest[0] == 'M' then 1024 * 1024 * x else x
  {
    hide Value, Field, IsCString, SignEnd, IsHex, DigitsStart, Head;
    FieldShape(neg, hex, run, rest);
    var s, i := Field(neg, hex, run, rest), |Head(neg, hex)|;
    forall k | i <= k < i + |run| ensures IsDigit(s[k], hex) {
      assert s[k] == s[i..i + |run|][k - i];
    }
    RunEnds(s, i, i + |run|, hex);
  }

  lemma ParseField(neg: bool, hex: bool, run: string, rest: string)
    requires AllDigits(run, hex) && IsCString(rest) && Stops(rest, hex)
    ensures var s := Field(neg, hex, run, rest);
      IsCString(s) && Parse(s) == Value(run, hex) * if neg then -1 else 1
  {
    hide Value, Field, IsCString, Parse;
    ReadField(neg, hex, run, rest);
  }

  /** Anything but a sign or a digit in front stops the reading at once. */
  lemma ParseJunk(s: string)
    requires IsCString(s) && (s[0] == ' ' || s[0] == '+')
    ensures Parse(s) == 0
  {
  }

  // ----- the round trip

  /** The field begins with a space or a plus sign. */
  predicate JunkInFront(num: S32, hex: bool, size: int, precision: int, f: Flags) {
    || (!f.left && !f.zeropad && Room(num, BaseOf(hex), size, precision, f) > 0)
    || PlusOrSpace(num, f)
  }

  predicate PlusOrSpace(num: S32, f: Flags) {
    num >= 0 && f.sign && (f.plus || f.space)
  }

  /** Zeros and digits: the run that is read, and the rest. */
  lemma PrintedRead(zeros: int, n: nat, hex: bool, hexRead: bool, upper: bool) returns (run: string, rest: string)
    requires hexRead ==> hex
    ensures Fill(zeros, '0') + Printed(n, BaseOf(hex), upper) == run + rest && AllDigits(run, hexRead) && NoNul(rest)
    ensures rest != "" ==> Stops(rest, hexRead)
    ensures Value(run, hexRead) <= n && (Value(run, hexRead) == n <==> Legible(n, hex, hexRead, upper))
  {
    if n == 0 {
      run, rest := "0", "";
      assert "0" == "" + ['0'];
      ValueMore("", '0', hexRead);
    } else {
      run, rest := DigitsRead(n, hex, hexRead, upper);
    }
    hide Digits, Value, Fill;
    ZerosValue(zeros, run, hexRead);
    Associative(Fill(zeros, '0'), run, rest);
    run := Fill(zeros, '0') + run;
  }

  lemma Associative(a: string, b: string, c: string)
    ensures (a + b) + c == a + (b + c)
  {
  }

  /** The value is a 32-bit pattern: what is read is the number exactly when all of it is read. */
  lemma SamePattern(num: S32, f: Flags, v: nat)
    requires v <= Magnitude(num, f)
    ensures ToS32(v * if f.sign && num < 0 then -1 else 1) == num <==> v == Magnitude(num, f)
  {
  }

  /** A content without a printed plus or space, and whatever spaces follow. */
  lemma ParseContent(num: S32, hex: bool, zeros: int, trail: int, f: Flags)
    requires !PlusOrSpace(num, f)
    ensures var s := Content(num, BaseOf(hex), zeros, f) + (Fill(trail, ' ') + "\0");
      && IsCString(s)
      && (ToS32(Parse(s)) == num <==> Legible(Magnitude(num, f), hex, hex && f.hexPrep, f.uppercase))
  {
    var n, hexRead, neg := Magnitude(num, f), hex && f.hexPrep, f.sign && num < 0;
    var run, rest := PrintedRead(zeros, n, hex, hexRead, f.uppercase);
    var spaces := Fill(trail, ' ') + "\0";
    assert IsCString(spaces) && Stops(spaces, hexRead);
    assert IsCString(rest + spaces) && Stops(rest + spaces, hexRead);
    ContentText(num, hex, zeros, f);
    hide Printed, Fill, Value, Parse, Content, AllDigits, IsCString, IsDigit, Magnitude, Legible, ToS32, Stops;
    ParseField(neg, hexRead, run, rest + spaces);
    SamePattern(num, f, Value(run, hexRead));
    Regrouped(if neg then "-" else "", if hexRead then "0x" else "", run, rest, spaces);
  }

  lemma Regrouped(a: string, b: string, c: string, d: string, e: string)
    ensures a + (b + (c + d)) + e == (a + b) + (c + (d + e))
  {
  }

  lemma ContentText(num: S32, hex: bool, zeros: int, f: Flags)
    requires !PlusOrSpace(num, f)
    ensures Content(num, BaseOf(hex), zeros, f) == (if f.sign && num < 0 then "-" else "")
      + ((if hex && f.hexPrep then "0x" else "")
         + (Fill(zeros, '0') + Printed(Magnitude(num, f), BaseOf(hex), f.uppercase)))
  {
    hide Printed, Fill, Magnitude;
  }

  /** Without junk in front the field is a content and spaces. */
  lemma CleanField(num: S32, hex: bool, size: int, precision: int, f: Flags) returns (zeros: int, trail: int)
    requires !JunkInFront(num, hex, size, precision, f)
    ensures Format(num, BaseOf(hex), size, precision, f) + "\0" ==
      Content(num, BaseOf(hex), zeros, f) + (Fill(trail, ' ') + "\0")
  {
    hide Content, Room, Zeros, Fill;
    var base := BaseOf(hex);
    var pad, z := Room(num, base, size, precision, f), Zeros(num, base, precision, f);
    zeros, trail := if f.zeropad && !f.left then pad + z else z, if f.left then pad else 0;
    var body := Content(num, base, zeros, f);
    NothingLeft("", 0, ' ');
    Associative(body, Fill(trail, ' '), "\0");
    if !f.left && !f.zeropad { assert pad == 0 && "" + body == body; }
    if !f.left { assert body + "" == body; }
  }

  /** parseval reads back what number has printed, with any flags, exactly when the number is 0, or nothing
      but its own sign stands in front of it and the reader knows all the digits: padding with spaces on the
      left, a plus sign or a space for it all read as 0; of a number of two digits or a letter in base 16
      the prefix must be printed, and letters in lower case. */
  lemma RoundTrip(num: S32, hex: bool, size: int, precision: int, f: Flags)
    ensures var s := Format(num, BaseOf(hex), size, precision, f) + "\0";
      && IsCString(s)
      && (ToS32(Parse(s)) == num <==>
          num == 0
          || (!JunkInFront(num, hex, size, precision, f)
              && Legible(Magnitude(num, f), hex, hex && f.hexPrep, f.uppercase)))
  {
    FormatIsText(num, hex, size, precision, f);
    hide Parse, Format, IsCString, Content, Room, Zeros, Fill;
    if JunkInFront(num, hex, size, precision, f) {
      JunkIsFirst(num, hex, size, precision, f);
      ParseJunk(Format(num, BaseOf(hex), size, precision, f) + "\0");
    } else {
      var zeros, trail := CleanField(num, hex, size, precision, f);
      ParseContent(num, hex, zeros, trail, f);
    }
  }

  lemma ContentIsText(num: S32, hex: bool, zeros: int, f: Flags)
    ensures NoNul(Content(num, BaseOf(hex), zeros, f))
  {
    var run, rest := PrintedRead(zeros, Magnitude(num, f), hex, hex && f.hexPrep, f.uppercase);
    assert NoNul(run + rest);
    hide Printed, Magnitude, Fill, Value;
  }

  lemma FormatIsText(num: S32, hex: bool, size: int, precision: int, f: Flags)
    ensures IsCString(Format(num, BaseOf(hex), size, precision, f) + "\0")
  {
    var pad, zeros := Room(num, BaseOf(hex), size, precision, f), Zeros(num, BaseOf(hex), precision, f);
    ContentIsText(num, hex, zeros, f);
    ContentIsText(num, hex, pad + zeros, f);
    hide Content, Room, Zeros;
  }

  lemma JunkIsFirst(num: S32, hex: bool, size: int, precision: int, f: Flags)
    requires JunkInFront(num, hex, size, precision, f)
    ensures var s := Format(num, BaseOf(hex), size, precision, f); |s| > 0 && (s[0] == ' ' || s[0] == '+')
  {
    hide Printed, Magnitude;
    var pad := Room(num, BaseOf(hex), size, precision, f);
    if !f.left && !f.zeropad && pad > 0 {
      assert Fill(pad, ' ')[0] == ' ';
    }
  }
}
