/** The records of the RISC-V Formal Interface, as the monitor receives them. */
module Rvfi {
  import opened MachineTypes

  type Reg = r: int | 0 <= r < 32
  type Mask = m: int | 0 <= m < 16

  datatype Option<+T> = None | Some(value: T)

  /** One retired instruction. */
  datatype Record = Record(insn: U32, trap: bool, intr: bool, rs1Addr: Reg, rs2Addr: Reg, rs1Data: U32, rs2Data: U32,
                           rdAddr: Reg, rdData: U32, pcRdata: U32, pcWdata: U32,
                           memAddr: U32, memRmask: Mask, memWmask: Mask, memRdata: U32, memWdata: U32)

  /** What the specification of the ISA reads of a record. */
  datatype Operands = Operands(insn: U32, pc: U32, rs1: U32, rs2: U32, mem: U32)

  /** What it says of it. */
  datatype Spec = Spec(valid: bool, trap: bool, rs1Addr: Reg, rs2Addr: Reg, rdAddr: Reg, rdData: U32, pcWdata: U32,
                       memAddr: U32, memRmask: Mask, memWmask: Mask, memWdata: U32)
}
