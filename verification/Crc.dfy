/** The running 16-bit CRC of core_util.c. Machine words are bit sequences, least significant bit first. */
module Crc {
  import opened MachineTypes

  type Word = s: seq<bool> | |s| == 16 witness seq(16, _ => false)

  /** The low n bits of a number, least significant first. */
  function LowBits(x: nat, n: nat): (bits: seq<bool>)
    ensures |bits| == n
    decreases n
  {
    if n == 0 then [] else [x % 2 == 1] + LowBits(x / 2, n - 1)
  }

  /** The number whose low bits these are. */
  function AsNumber(bits: seq<bool>): nat {
    if bits == [] then 0 else (if bits[0] then 1 else 0) + 2 * AsNumber(bits[1..])
  }

  lemma {:induction false} LowBitsOfNumber(bits: seq<bool>)
    ensures LowBits(AsNumber(bits), |bits|) == bits
  {
    if bits != [] {
      LowBitsOfNumber(bits[1..]);
      assert bits == [bits[0]] + bits[1..];
    }
  }

  function Xor(a: Word, b: Word): Word {
    seq(16, i requires 0 <= i < 16 => a[i] != b[i])
  }

  function ShiftRight(a: Word): Word {
    a[1..] + [false]
  }

  /** 0x4002. */
  const FEEDBACK: Word :=
    [false, true, false, false, false, false, false, false,
     false, false, false, false, false, false, true, false]

  /** One message bit shifted through the register: a feedback of 1 flips bits 0, 13 and 15. */
  function Shift(bit: bool, crc: Word): Word {
    var feedback := bit != crc[0];
    seq(16, i requires 0 <= i < 16 => (i < 15 && crc[i + 1]) != (feedback && (i == 0 || i == 13 || i == 15)))
  }

  function Feed(bits: seq<bool>, crc: Word): Word {
    if bits == [] then crc else Feed(bits[1..], Shift(bits[0], crc))
  }

  function CrcByte(data: Byte, crc: Word): Word {
    Feed(LowBits(data, 8), crc)
  }

  function CrcWord(newval: nat, crc: Word): Word {
    CrcByte(newval / 0x100 % 0x100, CrcByte(newval % 0x100, crc))
  }

  function CrcLong(newval: nat, crc: Word): Word {
    CrcWord(newval / 0x1_0000 % 0x1_0000, CrcWord(newval % 0x1_0000, crc))
  }

  /** The body of the loop of crcu8 on the current low bit of data. */
  method ShiftOnce(bit: bool, crc: Word) returns (r: Word)
    ensures r == Shift(bit, crc)
  {
    r := crc;
    var x16 := bit != r[0];
    var carry;
    if x16 {
      r := Xor(r, FEEDBACK);
      carry := true;
    } else {
      carry := false;
    }
    r := ShiftRight(r);
    if carry {
      r := r[15 := true];
    } else {
      r := r[15 := false];
    }
  }

  /** crcu8. */
  method Crcu8(data: Byte, crc: Word) returns (r: Word)
    ensures r == CrcByte(data, crc)
  {
    var rest: nat := data;
    r := crc;
    for i := 0 to 8
      invariant Feed(LowBits(rest, 8 - i), r) == CrcByte(data, crc)
    {
      ghost var bits := LowBits(rest, 8 - i);
      r := ShiftOnce(rest % 2 == 1, r);
      rest := rest / 2;
      assert bits[1..] == LowBits(rest, 7 - i);
    }
  }

  /** crcu16. */
  method Crcu16(newval: nat, crc: Word) returns (r: Word)
    ensures r == CrcWord(newval, crc)
  {
    r := Crcu8(newval % 0x100, crc);
    r := Crcu8(newval / 0x100 % 0x100, r);
  }

  /** crcu32, through crc16. */
  method Crcu32(newval: nat, crc: Word) returns (r: Word)
    ensures r == CrcLong(newval, crc)
  {
    r := Crcu16(newval % 0x1_0000, crc);
    r := Crcu16(newval / 0x1_0000 % 0x1_0000, r);
  }
}
