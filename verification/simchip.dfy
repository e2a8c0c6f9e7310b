/** Two simulated chips to state the driver's promises against: one that
    holds only its three status registers, one that only answers the
    identity read. */
module SimChip {

  import opened Catalog
  import opened Bus
  import opened Driver

  /** The values the three status registers hold at power-on. */
  datatype Registers = Registers(sr1: Byte, sr2: Byte, sr3: Byte)

  function PowerOnValue(power: Registers, reg: StatusRegister): Byte
  {
    match reg
    case Register1 => power.sr1
    case Register2 => power.sr2
    case Register3 => power.sr3
  }

  /** Whether a closed transaction writes `reg`: its opcode, then the value. */
  predicate WritesRegister(frame: seq<Byte>, reg: StatusRegister)
  {
    |frame| == 2 && frame[0] == Code(WriteOp(reg))
  }

  /** The value `reg` holds once the transactions `closed` have run: that of
      the last transaction writing it, or its power-on value. */
  function Latest(closed: seq<seq<Byte>>, reg: StatusRegister, power: Registers): Byte
    decreases |closed|
  {
    if closed == [] then PowerOnValue(power, reg)
    else if WritesRegister(closed[|closed| - 1], reg) then closed[|closed| - 1][1]
    else Latest(closed[..|closed| - 1], reg, power)
  }

  /** What the register chip shifts out: the current value of a status
      register while the byte after its read opcode is clocked, 0xFF (the
      line idling high) at every other moment. */
  function RegisterAnswer(power: Registers, history: seq<Event>): Byte
  {
    match Frames(history)
    case Open(closed, current) =>
      if |current| == 1 && RegisterReadBy(current[0]).Some?
      then Latest(closed, RegisterReadBy(current[0]).value, power)
      else 0xFF
    case _ => 0xFF
  }

  function RegisterChip(power: Registers): Chip
  {
    (history, mosi) => RegisterAnswer(power, history)
  }

  /** On the register chip, a read of a status register returns the value
      the transactions so far leave in it. */
  lemma ReadReturnsLatest(power: Registers, history: seq<Event>, reg: StatusRegister)
    requires WellFormed(history)
    ensures ReadStatusRegister(RegisterChip(power), history, reg).value == Latest(Frames(history).closed, reg, power)
  {
    var chip := RegisterChip(power);
    var bytes := [Code(ReadOp(reg)), 0x00];
    assert ReadStatusRegister(chip, history, reg).events == Transaction(chip, history, bytes);
    TransactionAnswers(chip, history, bytes, 1);
    assert bytes[..1] == [Code(ReadOp(reg))];
    assert RegisterReadBy(Code(ReadOp(reg))) == Some(reg);
  }

  /** `busy()` on the register chip is exactly bit 0 of status register 1,
      whatever value it holds. */
  lemma BusyIsBit0(power: Registers, history: seq<Event>)
    requires WellFormed(history)
    ensures IsBusy(RegisterChip(power), history).busy <==> Latest(Frames(history).closed, Register1, power) % 2 == 1
  {
    ReadReturnsLatest(power, history, Register1);
  }

  /** A write transaction (after the busy check) leaves its value in the
      register it writes and every other register as it was. */
  lemma LatestAfterWrite(before: seq<seq<Byte>>, reg: StatusRegister, value: Byte, other: StatusRegister, power: Registers)
    ensures Latest(before + [Sr1Read, [Code(WriteOp(reg)), value]], reg, power) == value
    ensures other != reg ==>
      Latest(before + [Sr1Read, [Code(WriteOp(reg)), value]], other, power) == Latest(before, other, power)
  {
    var closed := before + [Sr1Read, [Code(WriteOp(reg)), value]];
    assert closed[|closed| - 1] == [Code(WriteOp(reg)), value];
    if other != reg {
      StatusRegisterPairs(reg, other);
      StatusRegisterPairs(other, other);
      assert !WritesRegister(closed[|closed| - 1], other);
      assert closed[..|closed| - 1] == before + [Sr1Read];
      assert !WritesRegister(Sr1Read, other);
      assert (before + [Sr1Read])[..|before|] == before;
    }
  }

  /** The transactions on the bus once a write the driver reports as done
      has run. */
  lemma WriteFrames(chip: Chip, history: seq<Event>, reg: StatusRegister, value: Byte)
    requires WellFormed(history)
    requires WriteStatusRegister(chip, history, reg, value).status == Ok
    ensures var after := history + WriteStatusRegister(chip, history, reg, value).events;
      && WellFormed(after)
      && Frames(after).closed == Frames(history).closed + [Sr1Read, [Code(WriteOp(reg)), value]]
  {
    WellFormedAppend(history, WriteStatusRegister(chip, history, reg, value).events);
  }

  /** On the register chip, a status register write is reported as done
      exactly when bit 0 of status register 1 is clear. */
  lemma WriteReportsBusy(power: Registers, history: seq<Event>, reg: StatusRegister, value: Byte)
    requires WellFormed(history)
    ensures WriteStatusRegister(RegisterChip(power), history, reg, value).status ==
      if Latest(Frames(history).closed, Register1, power) % 2 == 1 then Busy else Ok
  {
    BusyIsBit0(power, history);
  }

  /** While the chip is not busy, a status register write is reported as
      done, the next read of that register returns the written value, and no
      other register changes. */
  lemma WriteThenRead(power: Registers, history: seq<Event>, reg: StatusRegister, value: Byte, other: StatusRegister)
    requires WellFormed(history)
    requires Latest(Frames(history).closed, Register1, power) % 2 == 0
    ensures WriteStatusRegister(RegisterChip(power), history, reg, value).status == Ok
    ensures var after := history + WriteStatusRegister(RegisterChip(power), history, reg, value).events;
      && ReadStatusRegister(RegisterChip(power), after, reg).value == value
      && (other != reg ==>
            ReadStatusRegister(RegisterChip(power), after, other).value
            == ReadStatusRegister(RegisterChip(power), history, other).value)
  {
    var chip := RegisterChip(power);
    WriteReportsBusy(power, history, reg, value);
    var after := history + WriteStatusRegister(chip, history, reg, value).events;
    WriteFrames(chip, history, reg, value);
    ReadReturnsLatest(power, after, reg);
    ReadReturnsLatest(power, after, other);
    ReadReturnsLatest(power, history, other);
    LatestAfterWrite(Frames(history).closed, reg, value, other, power);
  }

  /** A status register read changes no register. */
  lemma LatestAfterRead(before: seq<seq<Byte>>, reg: StatusRegister, power: Registers)
    ensures Latest(before + [Sr1Read], reg, power) == Latest(before, reg, power)
  {
    var closed := before + [Sr1Read];
    assert closed[..|closed| - 1] == before;
    StatusRegisterPairs(reg, reg);
    assert !WritesRegister(Sr1Read, reg);
  }

  /** The transactions on the bus once a write the driver reports as busy
      has run: the status read alone. */
  lemma BusyWriteFrames(chip: Chip, history: seq<Event>, reg: StatusRegister, value: Byte)
    requires WellFormed(history)
    requires WriteStatusRegister(chip, history, reg, value).status == Busy
    ensures var after := history + WriteStatusRegister(chip, history, reg, value).events;
      && WellFormed(after)
      && Frames(after).closed == Frames(history).closed + [Sr1Read]
  {
    WellFormedAppend(history, WriteStatusRegister(chip, history, reg, value).events);
  }

  /** While the chip is busy, a status register write changes no register:
      every register reads back as it did before. */
  lemma WriteWhileBusy(power: Registers, history: seq<Event>, reg: StatusRegister, value: Byte, any: StatusRegister)
    requires WellFormed(history)
    requires Latest(Frames(history).closed, Register1, power) % 2 == 1
    ensures WriteStatusRegister(RegisterChip(power), history, reg, value).status == Busy
    ensures var after := history + WriteStatusRegister(RegisterChip(power), history, reg, value).events;
      ReadStatusRegister(RegisterChip(power), after, any).value
      == ReadStatusRegister(RegisterChip(power), history, any).value
  {
    var chip := RegisterChip(power);
    WriteReportsBusy(power, history, reg, value);
    var after := history + WriteStatusRegister(chip, history, reg, value).events;
    BusyWriteFrames(chip, history, reg, value);
    ReadReturnsLatest(power, after, any);
    ReadReturnsLatest(power, history, any);
    LatestAfterRead(Frames(history).closed, any, power);
  }

  /** A chip that answers the identity read with `manufacturer` and
      `device` as the fourth and fifth bytes after the opcode, and 0xFF at
      every other moment. */
  function IdentityChip(manufacturer: Byte, device: Byte): Chip
  {
    (history, mosi) =>
      match Frames(history)
      case Open(_, current) =>
        if |current| == 4 then manufacturer else if |current| == 5 then device else 0xFF
      case _ => 0xFF
  }

  /** `init` against a chip answering (m, d): Ok only for (0xEF, 0x16); a
      wrong manufacturer is reported whatever the device byte; a right
      manufacturer with a wrong device is reported as an unknown device. */
  lemma InitAgainstIdentity(manufacturer: Byte, device: Byte, history: seq<Event>)
    requires WellFormed(history)
    ensures Init(IdentityChip(manufacturer, device), history).status ==
      if manufacturer != 0xEF then UnknownManufacturerId
      else if device != 0x16 then UnknownDeviceId
      else Ok
  {
    var chip := IdentityChip(manufacturer, device);
    var bytes: seq<Byte> := [0x90, 0, 0, 0, 0, 0];
    var setup := history + [Deselect];
    DeselectIdle(history);
    assert [Code(ManufacturerId)] + Zeros(5) == bytes;
    var t := Transaction(chip, setup, bytes);
    assert Init(chip, history).events == [Deselect] + t;
    ReceivedAppend([Deselect], t);
    assert Received([Deselect]) == [] by { assert [Deselect][1..] == []; }
    TransactionAnswers(chip, setup, bytes, 4);
    TransactionAnswers(chip, setup, bytes, 5);
  }

  /** The three identity cases: the expected pair, a wrong device byte and
      a wrong manufacturer byte. */
  lemma InitExamples(history: seq<Event>)
    requires WellFormed(history)
    ensures Init(IdentityChip(0xEF, 0x16), history).status == Ok
    ensures Init(IdentityChip(0xEF, 0x15), history).status == UnknownDeviceId
    ensures Init(IdentityChip(0x01, 0x16), history).status == UnknownManufacturerId
  {
    InitAgainstIdentity(0xEF, 0x16, history);
    InitAgainstIdentity(0xEF, 0x15, history);
    InitAgainstIdentity(0x01, 0x16, history);
  }
}
