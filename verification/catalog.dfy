/** The fixed constants of the W25Q64 driver: the instruction catalog, the
    status codes the driver returns and the identity bytes it expects. */
module Catalog {

  /** An eight-bit value as it travels on the bus. */
  type Byte = x: int | 0 <= x < 0x100

  /** The conventional Some/None datatype, used here for partial decodings. */
  datatype Option<T> = None | Some(value: T)

  /** One constructor per instruction the driver knows. */
  datatype Opcode =
    | WriteEnable | VolatileWriteEnable | WriteDisable | ReleasePowerDown
    | ManufacturerId | JedecId | ReadUniqueId
    | ReadData | FastRead | PageProgram
    | SectorErase | Block32Erase | Block64Erase | ChipErase
    | ReadStatusRegister1 | WriteStatusRegister1
    | ReadStatusRegister2 | WriteStatusRegister2
    | ReadStatusRegister3 | WriteStatusRegister3
    | ReadSfdpRegister
    | EraseSecurityRegister | ProgramSecurityRegister | ReadSecurityRegister
    | EraseProgramSuspend | EraseProgramResume | PowerDown
    | EnableReset | ResetDevice

  /** The byte that goes on the wire for an instruction. */
  function Code(op: Opcode): Byte
  {
    match op
    case WriteEnable => 0x06
    case VolatileWriteEnable => 0x50
    case WriteDisable => 0x04
    case ReleasePowerDown => 0xAB
    case ManufacturerId => 0x90
    case JedecId => 0x9F
    case ReadUniqueId => 0x4B
    case ReadData => 0x03
    case FastRead => 0x0B
    case PageProgram => 0x02
    case SectorErase => 0x20
    case Block32Erase => 0x52
    case Block64Erase => 0xD8
    case ChipErase => 0xC7
    case ReadStatusRegister1 => 0x05
    case WriteStatusRegister1 => 0x01
    case ReadStatusRegister2 => 0x35
    case WriteStatusRegister2 => 0x31
    case ReadStatusRegister3 => 0x15
    case WriteStatusRegister3 => 0x11
    case ReadSfdpRegister => 0x5A
    case EraseSecurityRegister => 0x44
    case ProgramSecurityRegister => 0x42
    case ReadSecurityRegister => 0x48
    case EraseProgramSuspend => 0x75
    case EraseProgramResume => 0x7A
    case PowerDown => 0xB9
    case EnableReset => 0x66
    case ResetDevice => 0x99
  }

  /** The instruction a byte stands for, if any: an independent reading of the catalog, byte first. */
  function OpcodeOf(b: Byte): Option<Opcode>
  {
    if b == 0x01 then Some(WriteStatusRegister1)
    else if b == 0x02 then Some(PageProgram)
    else if b == 0x03 then Some(ReadData)
    else if b == 0x04 then Some(WriteDisable)
    else if b == 0x05 then Some(ReadStatusRegister1)
    else if b == 0x06 then Some(WriteEnable)
    else if b == 0x0B then Some(FastRead)
    else if b == 0x11 then Some(WriteStatusRegister3)
    else if b == 0x15 then Some(ReadStatusRegister3)
    else if b == 0x20 then Some(SectorErase)
    else if b == 0x31 then Some(WriteStatusRegister2)
    else if b == 0x35 then Some(ReadStatusRegister2)
    else if b == 0x42 then Some(ProgramSecurityRegister)
    else if b == 0x44 then Some(EraseSecurityRegister)
    else if b == 0x48 then Some(ReadSecurityRegister)
    else if b == 0x4B then Some(ReadUniqueId)
    else if b == 0x50 then Some(VolatileWriteEnable)
    else if b == 0x52 then Some(Block32Erase)
    else if b == 0x5A then Some(ReadSfdpRegister)
    else if b == 0x66 then Some(EnableReset)
    else if b == 0x75 then Some(EraseProgramSuspend)
    else if b == 0x7A then Some(EraseProgramResume)
    else if b == 0x90 then Some(ManufacturerId)
    else if b == 0x99 then Some(ResetDevice)
    else if b == 0x9F then Some(JedecId)
    else if b == 0xAB then Some(ReleasePowerDown)
    else if b == 0xB9 then Some(PowerDown)
    else if b == 0xC7 then Some(ChipErase)
    else if b == 0xD8 then Some(Block64Erase)
    else None
  }

  /** Every instruction of the catalog, in the order the header declares them. */
  const AllOpcodes: seq<Opcode> := [
    WriteEnable, VolatileWriteEnable, WriteDisable, ReleasePowerDown,
    ManufacturerId, JedecId, ReadUniqueId, ReadData, FastRead, PageProgram,
    SectorErase, Block32Erase, Block64Erase, ChipErase,
    ReadStatusRegister1, WriteStatusRegister1, ReadStatusRegister2,
    WriteStatusRegister2, ReadStatusRegister3, WriteStatusRegister3,
    ReadSfdpRegister, EraseSecurityRegister, ProgramSecurityRegister,
    ReadSecurityRegister, EraseProgramSuspend, EraseProgramResume, PowerDown,
    EnableReset, ResetDevice]

  /** The catalog lists 29 instructions and misses none. */
  lemma CatalogComplete(op: Opcode)
    ensures |AllOpcodes| == 29
    ensures op in AllOpcodes
  {
  }

  /** Reading an instruction's byte back gives the instruction. */
  lemma CodeRoundTrip(op: Opcode)
    ensures OpcodeOf(Code(op)) == Some(op)
  {
  }

  /** A byte decodes to an instruction only if it is that instruction's byte. */
  lemma OpcodeOfSound(b: Byte)
    ensures OpcodeOf(b).Some? ==> Code(OpcodeOf(b).value) == b
  {
  }

  /** No two instructions share a byte. */
  lemma CodesDistinct(a: Opcode, b: Opcode)
    ensures Code(a) == Code(b) <==> a == b
  {
    CodeRoundTrip(a);
    CodeRoundTrip(b);
  }

  /** The three status registers of the chip. */
  datatype StatusRegister = Register1 | Register2 | Register3

  /** The instruction that reads a status register. */
  function ReadOp(reg: StatusRegister): Opcode
  {
    match reg
    case Register1 => ReadStatusRegister1
    case Register2 => ReadStatusRegister2
    case Register3 => ReadStatusRegister3
  }

  /** The instruction that writes a status register. */
  function WriteOp(reg: StatusRegister): Opcode
  {
    match reg
    case Register1 => WriteStatusRegister1
    case Register2 => WriteStatusRegister2
    case Register3 => WriteStatusRegister3
  }

  /** The register a read-status-register byte addresses, if it is one. */
  function RegisterReadBy(b: Byte): (r: Option<StatusRegister>)
    ensures forall reg :: Code(ReadOp(reg)) == b ==> r == Some(reg)
    ensures r.Some? ==> Code(ReadOp(r.value)) == b
  {
    if b == 0x05 then Some(Register1)
    else if b == 0x35 then Some(Register2)
    else if b == 0x15 then Some(Register3)
    else None
  }

  /** The read/write pairs are 0x05/0x01, 0x35/0x31 and 0x15/0x11: six
      different bytes, so no read of one register is a write of any, and
      each instruction belongs to exactly one register. */
  lemma StatusRegisterPairs(r1: StatusRegister, r2: StatusRegister)
    ensures Code(ReadOp(r1)) != Code(WriteOp(r2))
    ensures Code(ReadOp(r1)) == Code(ReadOp(r2)) <==> r1 == r2
    ensures Code(WriteOp(r1)) == Code(WriteOp(r2)) <==> r1 == r2
    ensures Code(ReadOp(r1)) % 0x10 == 0x05 && Code(WriteOp(r1)) % 0x10 == 0x01
    ensures Code(ReadOp(r1)) / 0x10 == Code(WriteOp(r1)) / 0x10
  {
  }

  /** The values a driver call returns. */
  datatype Status = Ok | Busy | UnknownManufacturerId | UnknownDeviceId

  /** The numeric value of each status, in the order the enumeration lists them. */
  function StatusValue(s: Status): (v: nat)
    ensures v < 4
    ensures v == 0 <==> s == Ok
  {
    match s
    case Ok => 0
    case Busy => 1
    case UnknownManufacturerId => 2
    case UnknownDeviceId => 3
  }

  /** The four statuses have four different values. */
  lemma StatusValuesDistinct(a: Status, b: Status)
    ensures StatusValue(a) == StatusValue(b) <==> a == b
  {
  }

  /** Manufacturer byte of Winbond parts. */
  const ExpectedManufacturerId: Byte := 0xEF

  /** Device byte of the W25Q64. */
  const ExpectedDeviceId: Byte := 0x16
}
