/** Words in 256-bit lines: the line adapter of the caches, the shadow memory of the test bench, and the
    byte memory both stand for. Words and lines are bytes, least significant first. */
module LineMemory {
  import opened MachineTypes

  type Word = w: seq<Byte> | |w| == 4 witness seq(4, _ => 0)
  type Line = l: seq<Byte> | |l| == 32 witness seq(32, _ => 0)
  type WordMask = m: seq<bool> | |m| == 4 witness seq(4, _ => false)
  type LineMask = m: seq<bool> | |m| == 32 witness seq(32, _ => false)

  function ZeroLine(): Line {
    seq(32, _ => 0)
  }

  // ----- line_adapter

  /** address[4:2]. */
  function WordIndex(address: U32): (w: nat)
    ensures w < 8
  {
    address / 4 % 8
  }

  /** {8{mem_wdata}} */
  function Replicated(wdata: Word): Line {
    seq(32, j requires 0 <= j < 32 => wdata[j % 4])
  }

  /** {28'h0, mem_byte_enable} << (address[4:2]*4) */
  function Shifted(enable: WordMask, address: U32): LineMask {
    var places := WordIndex(address) * 4;
    seq(32, j requires 0 <= j < 32 => j >= places && j - places < 4 && enable[j - places])
  }

  /** mem_rdata_line[(32*address[4:2]) +: 32] */
  function WordAt(line: Line, address: U32): Word {
    line[4 * WordIndex(address)..4 * WordIndex(address) + 4]
  }

  /** A line written under a byte mask, as the data arrays of the caches do it. */
  function Masked(line: Line, data: Line, enable: LineMask): (r: Line)
    ensures forall j :: 0 <= j < 32 ==> r[j] == if enable[j] then data[j] else line[j]
  {
    seq(32, j requires 0 <= j < 32 => if enable[j] then data[j] else line[j])
  }

  /** A masked word write, as it reaches a line through the adapter. */
  function Stored(line: Line, address: U32, wdata: Word, enable: WordMask): Line {
    Masked(line, Replicated(wdata), Shifted(enable, address))
  }

  // ----- the byte memory

  /** Which byte is where in memory. */
  type Bytes = int -> Byte

  /** A masked word write on bytes: those of the addressed word that are enabled. */
  function ByteWrite(bytes: Bytes, address: U32, wdata: Word, enable: WordMask): Bytes {
    b => if b / 4 == address / 4 && enable[b % 4] then wdata[b % 4] else bytes(b)
  }

  function ByteRead(bytes: Bytes, address: U32): Word {
    seq(4, i requires 0 <= i < 4 => bytes(address / 4 * 4 + i))
  }

  /** The bytes a memory of lines holds. */
  ghost predicate Holds(lines: nat -> Line, bytes: Bytes) {
    forall b: nat :: lines(b / 32)[b % 32] == bytes(b)
  }

  function WriteLine(lines: nat -> Line, a: nat, line: Line): nat -> Line {
    x => if x == a then line else lines(x)
  }

  lemma SplitAddress(address: U32)
    ensures address / 4 * 4 == address / 32 * 32 + 4 * WordIndex(address)
  {
  }

  /** Reading a word out of its line is reading its bytes. */
  lemma ReadAgrees(lines: nat -> Line, bytes: Bytes, address: U32)
    requires Holds(lines, bytes)
    ensures WordAt(lines(address / 32), address) == ByteRead(bytes, address)
  {
    var w := WordIndex(address);
    SplitAddress(address);
    hide WordIndex;
    forall i | 0 <= i < 4
      ensures WordAt(lines(address / 32), address)[i] == ByteRead(bytes, address)[i]
    {
      var b := address / 32 * 32 + 4 * w + i;
      assert b / 32 == address / 32 && b % 32 == 4 * w + i;
      assert lines(b / 32)[b % 32] == bytes(b);
    }
  }

  lemma WordOf(x: nat)
    ensures x / 32 == x / 4 / 8 && x % 32 == 4 * (x / 4 % 8) + x % 4
  {
  }

  lemma SameWord(x: nat, y: nat)
    ensures x == y <==> x / 8 == y / 8 && x % 8 == y % 8
  {
  }

  /** Byte b belongs to the addressed word just when it is in its line at one of the word's four places. */
  lemma InWord(b: nat, address: U32)
    ensures b / 4 == address / 4 <==>
      b / 32 == address / 32 && 4 * WordIndex(address) <= b % 32 < 4 * WordIndex(address) + 4
    ensures b / 4 == address / 4 ==> b % 32 - 4 * WordIndex(address) == b % 4
    ensures b % 32 % 4 == b % 4
  {
    WordOf(b);
    WordOf(address);
    SameWord(b / 4, address / 4);
  }

  /** Writing a word through its line is writing its bytes. */
  lemma WriteAgrees(lines: nat -> Line, bytes: Bytes, address: U32, wdata: Word, enable: WordMask)
    requires Holds(lines, bytes)
    ensures Holds(WriteLine(lines, address / 32, Stored(lines(address / 32), address, wdata, enable)),
              ByteWrite(bytes, address, wdata, enable))
  {
    var line := Stored(lines(address / 32), address, wdata, enable);
    forall b: nat
      ensures WriteLine(lines, address / 32, line)(b / 32)[b % 32] == ByteWrite(bytes, address, wdata, enable)(b)
    {
      InWord(b, address);
      assert lines(b / 32)[b % 32] == bytes(b);
      hide WordIndex;
    }
  }

  // ----- shadow_memory

  function Lookup(mem: map<nat, Line>, unset: Line, a: nat): Line {
    if a in mem then mem[a] else unset
  }

  /** The data side of shadow_memory; a line never written reads as unset. */
  class ShadowMemory {
    var mem: map<nat, Line>
    const unset: Line

    constructor (mem: map<nat, Line>, unset: Line)
      ensures this.mem == mem && this.unset == unset
    {
      this.mem, this.unset := mem, unset;
    }

    function Lines(): nat -> Line
      reads this
    {
      var m, u := mem, unset;
      a => Lookup(m, u, a)
    }

    method Read(addr: U32) returns (rv: Word)
      ensures forall bytes: Bytes :: Holds(Lines(), bytes) ==> rv == ByteRead(bytes, addr)
    {
      var line := Lookup(mem, unset, addr / 32);
      var from := addr / 4 % 8 * 4;
      rv := line[from..from + 4];
      forall bytes: Bytes | Holds(Lines(), bytes) ensures rv == ByteRead(bytes, addr) {
        ReadAgrees(Lines(), bytes, addr);
      }
    }

    method Write(addr: U32, wdata: Word, enable: WordMask)
      modifies this`mem
      ensures forall a: nat ::
        Lines()(a) == WriteLine(old(Lines()), addr / 32, Stored(old(Lines())(addr / 32), addr, wdata, enable))(a)
      ensures forall bytes: Bytes :: old(Holds(Lines(), bytes)) ==>
        Holds(Lines(), ByteWrite(bytes, addr, wdata, enable))
    {
      var line := Lookup(mem, unset, addr / 32);
      ghost var lines := Lines();
      hide Stored, Holds;
      var line' := WriteWord(line, addr, wdata, enable);
      mem := mem[addr / 32 := line'];
      forall bytes: Bytes | Holds(lines, bytes)
        ensures Holds(Lines(), ByteWrite(bytes, addr, wdata, enable))
      {
        WriteAgrees(lines, bytes, addr, wdata, enable);
        SameLinesHold(WriteLine(lines, addr / 32, line'), Lines(), ByteWrite(bytes, addr, wdata, enable));
      }
    }
  }

  /** The loop of write over the enabled bytes of the addressed word. */
  method WriteWord(before: Line, addr: U32, wdata: Word, enable: WordMask) returns (line: Line)
    ensures line == Stored(before, addr, wdata, enable)
  {
    line := before;
    var from := addr / 4 % 8 * 4;
    for i := 0 to 4
      invariant forall j :: 0 <= j < 32 ==>
        line[j] == if from <= j < from + i && enable[j - from] then wdata[j - from] else before[j]
    {
      if enable[i] {
        line := line[from + i := wdata[i]];
      }
    }
    forall j | from <= j < from + 4 ensures j % 4 == j - from { }
  }

  lemma SameLinesHold(lines: nat -> Line, lines': nat -> Line, bytes: Bytes)
    requires Holds(lines, bytes) && forall a: nat :: lines(a) == lines'(a)
    ensures Holds(lines', bytes)
  {
    forall b: nat ensures lines'(b / 32)[b % 32] == bytes(b) {
      assert lines(b / 32)[b % 32] == bytes(b);
    }
  }
}
