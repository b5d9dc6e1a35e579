/** The memory accesses that the RVFI monitor specifies for sb, sh, sw, lb, lbu, lh, lhu and lw, on the
    word that holds the address. */
module StoreLoad {
  import opened MachineTypes
  import opened LineMemory

  /** How many bytes an access moves. */
  predicate IsSize(n: nat) {
    n == 1 || n == 2 || n == 4
  }

  /** spec_mem_addr: the address of the word. */
  function SpecAddr(addr: U32): U32 {
    addr - addr % 4
  }

  /** spec_trap */
  predicate SpecTrap(addr: U32, n: nat)
    requires IsSize(n)
  {
    addr % n != 0
  }

  /** spec_mem_wmask and spec_mem_rmask: ((1 << n)-1) << (addr-spec_mem_addr), four bits of it. */
  function SpecMask(addr: U32, n: nat): WordMask {
    var offset := addr - SpecAddr(addr);
    seq(4, i requires 0 <= i < 4 => i >= offset && i - offset < n)
  }

  /** spec_mem_wdata: rs2 << (8*(addr-spec_mem_addr)) */
  function SpecStoreData(addr: U32, rs2: Word): Word {
    var offset := addr - SpecAddr(addr);
    seq(4, i requires 0 <= i < 4 => if i >= offset then rs2[i - offset] else 0)
  }

  /** The low n bytes of rdata >> (8*(addr-spec_mem_addr)). */
  function SpecLoaded(addr: U32, n: nat, rdata: Word): (r: seq<Byte>)
    requires IsSize(n)
    ensures |r| == n
  {
    var offset := addr - SpecAddr(addr);
    seq(n, i requires 0 <= i < n => if i + offset < 4 then rdata[i + offset] else 0)
  }

  /** n bytes widened to a word, with their sign or with zeros. */
  function Extend(x: seq<Byte>, signed: bool): Word
    requires IsSize(|x|)
  {
    var fill: Byte := if signed && x[|x| - 1] >= 0x80 then 0xFF else 0;
    seq(4, i requires 0 <= i < 4 => if i < |x| then x[i] else fill)
  }

  /** spec_rd_wdata of a load. */
  function SpecLoadResult(addr: U32, n: nat, rdata: Word, signed: bool, rd: nat): Word
    requires IsSize(n)
  {
    if rd == 0 then seq(4, _ => 0) else Extend(SpecLoaded(addr, n, rdata), signed)
  }

  lemma Offsets(addr: U32, n: nat)
    requires IsSize(n) && !SpecTrap(addr, n)
    ensures addr % 4 + n <= 4
  {
  }

  lemma PlaceOf(b: int, addr: U32)
    ensures SpecAddr(addr) / 4 == addr / 4
    ensures b / 4 == addr / 4 ==> b % 4 - addr % 4 == b - addr
    ensures addr <= b < addr + (4 - addr % 4) ==> b / 4 == addr / 4
  {
  }

  /** A store that does not trap sets exactly the n bytes at its address, to the low bytes of rs2. */
  lemma StoreSetsBytes(bytes: Bytes, addr: U32, n: nat, rs2: Word, b: int)
    requires IsSize(n) && !SpecTrap(addr, n)
    ensures ByteWrite(bytes, SpecAddr(addr), SpecStoreData(addr, rs2), SpecMask(addr, n))(b) ==
      if addr <= b < addr + n then rs2[b - addr] else bytes(b)
  {
    Offsets(addr, n);
    PlaceOf(b, addr);
  }

  /** A load that does not trap delivers exactly the n bytes at its address. */
  lemma LoadSeesBytes(bytes: Bytes, addr: U32, n: nat, signed: bool, rd: nat)
    requires IsSize(n) && !SpecTrap(addr, n) && rd != 0
    ensures SpecLoadResult(addr, n, ByteRead(bytes, SpecAddr(addr)), signed, rd) ==
      Extend(seq(n, i requires 0 <= i < n => bytes(addr + i)), signed)
  {
    Offsets(addr, n);
    var loaded := SpecLoaded(addr, n, ByteRead(bytes, SpecAddr(addr)));
    forall i | 0 <= i < n ensures loaded[i] == bytes(addr + i) {
      PlaceOf(addr + i, addr);
    }
    assert loaded == seq(n, i requires 0 <= i < n => bytes(addr + i));
  }

  /** What a store wrote, a load of the same size at the same address returns, extended. */
  lemma StoreThenLoadBytes(bytes: Bytes, addr: U32, n: nat, rs2: Word, signed: bool, rd: nat)
    requires IsSize(n) && !SpecTrap(addr, n) && rd != 0
    ensures var bytes' := ByteWrite(bytes, SpecAddr(addr), SpecStoreData(addr, rs2), SpecMask(addr, n));
      SpecLoadResult(addr, n, ByteRead(bytes', SpecAddr(addr)), signed, rd) == Extend(rs2[..n], signed)
  {
    var bytes' := ByteWrite(bytes, SpecAddr(addr), SpecStoreData(addr, rs2), SpecMask(addr, n));
    LoadSeesBytes(bytes', addr, n, signed, rd);
    var seen := seq(n, i requires 0 <= i < n => bytes'(addr + i));
    hide SpecLoadResult, ByteRead, Extend;
    forall i | 0 <= i < n ensures seen[i] == rs2[i] {
      StoreSetsBytes(bytes, addr, n, rs2, addr + i);
    }
    assert seen == rs2[..n];
  }

  /** It does so through the lines of a cache, too. */
  lemma StoreThenLoad(lines: nat -> Line, bytes: Bytes, addr: U32, n: nat, rs2: Word, signed: bool, rd: nat)
    requires Holds(lines, bytes) && IsSize(n) && !SpecTrap(addr, n) && rd != 0
    ensures var a := SpecAddr(addr);
      var after := WriteLine(lines, a / 32, Stored(lines(a / 32), a, SpecStoreData(addr, rs2), SpecMask(addr, n)));
      SpecLoadResult(addr, n, WordAt(after(a / 32), a), signed, rd) == Extend(rs2[..n], signed)
  {
    hide SpecAddr, SpecLoadResult, SpecStoreData, SpecMask, SpecTrap, IsSize, Extend, Stored, ByteRead, ByteWrite,
      WordAt, Holds;
    var a, data, mask := SpecAddr(addr), SpecStoreData(addr, rs2), SpecMask(addr, n);
    WriteAgrees(lines, bytes, a, data, mask);
    ReadAgrees(WriteLine(lines, a / 32, Stored(lines(a / 32), a, data, mask)), ByteWrite(bytes, a, data, mask), a);
    StoreThenLoadBytes(bytes, addr, n, rs2, signed, rd);
  }
}
