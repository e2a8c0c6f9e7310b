/** The W25Q64 driver: one function per public method. Each call takes the
    chip and the bus history so far and returns the status it reports, the
    bus events it causes and whatever it hands back to the caller. */
module Driver {

  import opened Catalog
  import opened Address
  import opened Bus

  /** What a driver call leaves behind. */
  datatype Reply<T> = Reply(status: Status, events: seq<Event>, value: T)

  /** What `busy()` leaves behind: it reports a flag, not a status. */
  datatype Probe = Probe(events: seq<Event>, busy: bool)

  /** The bytes of the status-register-1 read every guarded call starts with. */
  const Sr1Read: seq<Byte> := [0x05, 0x00]

  /** `n` zero bytes, shifted out to clock bytes in. */
  function Zeros(n: nat): (z: seq<Byte>)
    ensures |z| == n
    ensures forall i :: 0 <= i < n ==> z[i] == 0
  {
    seq(n, _ => 0)
  }

  /** The busy discipline of a guarded call. It first reads status register 1
      in a transaction of its own. If bit 0 of the byte the chip returned is
      set, it reports Busy and the bus carried nothing else; otherwise it
      reports Ok and the bus carried exactly the transactions `frames` after
      the read. Whatever the call does, its events alternate. */
  ghost predicate Guarded<T>(r: Reply<T>, frames: seq<seq<Byte>>)
  {
    && Alternates(r.events)
    && |Received(r.events)| >= 2
    && (r.status == Busy <==> Received(r.events)[1] % 2 == 1)
    && (r.status == Busy ==> Frames(r.events) == Idle([Sr1Read]))
    && (r.status != Busy ==> r.status == Ok && Frames(r.events) == Idle([Sr1Read] + frames))
  }

  /** Whether a reply is guarded does not depend on the value it carries. */
  lemma GuardedValue<T, U>(g: Reply<T>, v: U, frames: seq<seq<Byte>>)
    requires Guarded(g, frames)
    ensures Guarded(Reply(g.status, g.events, v), frames)
  {
  }

  /** The caller's buffer after a streaming read of `len` bytes whose first
      data byte is `Received(r.events)[offset]`: on success its first `len`
      bytes are the data bytes in order; the rest of it, and all of it on
      failure, is as the caller left it. */
  ghost predicate Filled(r: Reply<seq<Byte>>, buff: seq<Byte>, len: nat, offset: nat)
    requires len <= |buff|
  {
    && |r.value| == |buff|
    && r.value[len..] == buff[len..]
    && (r.status != Ok ==> r.value == buff)
    && (r.status == Ok ==>
          && offset + len <= |Received(r.events)|
          && forall i :: 0 <= i < len ==> r.value[i] == Received(r.events)[offset + i])
  }

  // ---------------------------------------------------------------------
  // Status registers and the busy flag

  /** `readStatusRegister1/2/3`: the opcode, then one zero byte that clocks
      the register in. */
  function ReadStatusRegister(chip: Chip, history: seq<Event>, reg: StatusRegister): (r: Reply<Byte>)
    ensures r.status == Ok
    ensures Alternates(r.events)
    ensures Answered(chip, history, r.events)
    ensures Frames(r.events) == Idle([[Code(ReadOp(reg)), 0x00]])
    ensures |Received(r.events)| == 2 && r.value == Received(r.events)[1]
  {
    var t := Transaction(chip, history, [Code(ReadOp(reg)), 0x00]);
    Reply(Ok, t, Received(t)[1])
  }

  /** `busy()`: a read of status register 1 and its bit 0. */
  function IsBusy(chip: Chip, history: seq<Event>): (p: Probe)
    ensures p.events != [] && p.events[0] == Select
    ensures Alternates(p.events)
    ensures Answered(chip, history, p.events)
    ensures Frames(p.events) == Idle([Sr1Read])
    ensures |Received(p.events)| == 2
    ensures p.busy <==> Received(p.events)[1] % 2 == 1
  {
    var sr := ReadStatusRegister(chip, history, Register1);
    Probe(sr.events, sr.value % 2 == 1)
  }

  /** The shape shared by every guarded method: the busy check, then, only if
      the chip is not busy, one transaction of `frame`; the value is what the
      chip returned during that transaction. */
  function GuardedTransaction(chip: Chip, history: seq<Event>, frame: seq<Byte>): (r: Reply<seq<Byte>>)
    ensures r.events != [] && r.events[0] == Select
    ensures Answered(chip, history, r.events)
    ensures Guarded(r, [frame])
    ensures r.status == Ok ==> |Received(r.events)| == 2 + |frame| && r.value == Received(r.events)[2..]
  {
    var p := IsBusy(chip, history);
    if p.busy then Reply(Busy, p.events, [])
    else
      var t := Transaction(chip, history + p.events, frame);
      AnsweredAppend(chip, history, p.events, t);
      FramesAppend(p.events, t);
      ReceivedAppend(p.events, t);
      AlternatesAppend(p.events, t);
      Reply(Ok, p.events + t, Received(t))
  }

  /** `writeStatusRegister1/2/3`: guarded; the opcode, then the new value. */
  function WriteStatusRegister(chip: Chip, history: seq<Event>, reg: StatusRegister, value: Byte): (r: Reply<()>)
    ensures Answered(chip, history, r.events)
    ensures Guarded(r, [[Code(WriteOp(reg)), value]])
  {
    var g := GuardedTransaction(chip, history, [Code(WriteOp(reg)), value]);
    GuardedValue(g, (), [[Code(WriteOp(reg)), value]]);
    Reply(g.status, g.events, ())
  }

  // ---------------------------------------------------------------------
  // Instructions without a busy check

  /** A transaction of one opcode byte; the driver reports Ok whatever the chip does. */
  function Command(chip: Chip, history: seq<Event>, op: Opcode): (r: Reply<()>)
    ensures r.events != [] && r.events[0] == Select
    ensures r.status == Ok
    ensures Alternates(r.events)
    ensures Answered(chip, history, r.events)
    ensures Frames(r.events) == Idle([[Code(op)]])
  {
    Reply(Ok, Transaction(chip, history, [Code(op)]), ())
  }

  function WriteEnable(chip: Chip, history: seq<Event>): (r: Reply<()>)
    ensures r.status == Ok && Answered(chip, history, r.events)
    ensures Frames(r.events) == Idle([[0x06]])
    ensures Alternates(r.events)
  {
    Command(chip, history, Opcode.WriteEnable)
  }

  function VolatileWriteEnable(chip: Chip, history: seq<Event>): (r: Reply<()>)
    ensures r.status == Ok && Answered(chip, history, r.events)
    ensures Frames(r.events) == Idle([[0x50]])
    ensures Alternates(r.events)
  {
    Command(chip, history, Opcode.VolatileWriteEnable)
  }

  function WriteDisable(chip: Chip, history: seq<Event>): (r: Reply<()>)
    ensures r.status == Ok && Answered(chip, history, r.events)
    ensures Frames(r.events) == Idle([[0x04]])
    ensures Alternates(r.events)
  {
    Command(chip, history, Opcode.WriteDisable)
  }

  function ReleasePowerDown(chip: Chip, history: seq<Event>): (r: Reply<()>)
    ensures r.status == Ok && Answered(chip, history, r.events)
    ensures Frames(r.events) == Idle([[0xAB]])
    ensures Alternates(r.events)
  {
    Command(chip, history, Opcode.ReleasePowerDown)
  }

  function EraseProgramSuspend(chip: Chip, history: seq<Event>): (r: Reply<()>)
    ensures r.status == Ok && Answered(chip, history, r.events)
    ensures Frames(r.events) == Idle([[0x75]])
    ensures Alternates(r.events)
  {
    Command(chip, history, Opcode.EraseProgramSuspend)
  }

  function EraseProgramResume(chip: Chip, history: seq<Event>): (r: Reply<()>)
    ensures r.status == Ok && Answered(chip, history, r.events)
    ensures Frames(r.events) == Idle([[0x7A]])
    ensures Alternates(r.events)
  {
    Command(chip, history, Opcode.EraseProgramResume)
  }

  function PowerDown(chip: Chip, history: seq<Event>): (r: Reply<()>)
    ensures r.status == Ok && Answered(chip, history, r.events)
    ensures Frames(r.events) == Idle([[0xB9]])
    ensures Alternates(r.events)
  {
    Command(chip, history, Opcode.PowerDown)
  }

  function EnableReset(chip: Chip, history: seq<Event>): (r: Reply<()>)
    ensures r.status == Ok && Answered(chip, history, r.events)
    ensures Frames(r.events) == Idle([[0x66]])
    ensures Alternates(r.events)
  {
    Command(chip, history, Opcode.EnableReset)
  }

  function ResetDevice(chip: Chip, history: seq<Event>): (r: Reply<()>)
    ensures r.status == Ok && Answered(chip, history, r.events)
    ensures Frames(r.events) == Idle([[0x99]])
    ensures Alternates(r.events)
  {
    Command(chip, history, Opcode.ResetDevice)
  }

  // ---------------------------------------------------------------------
  // Reset and initialisation

  /** `reset()`: the busy check, then enable-reset and reset-device back to
      back, with no transaction between them. */
  function Reset(chip: Chip, history: seq<Event>): (r: Reply<()>)
    ensures Answered(chip, history, r.events)
    ensures Guarded(r, [[0x66], [0x99]])
  {
    var p := IsBusy(chip, history);
    if p.busy then Reply(Busy, p.events, ())
    else
      var enable := EnableReset(chip, history + p.events);
      var reset := ResetDevice(chip, history + p.events + enable.events);
      Chain(chip, history, p.events, enable.events, reset.events);
      ChainAlternates(p.events, enable.events, reset.events);
      Reply(Ok, p.events + enable.events + reset.events, ())
  }

  /** Three calls one after the other: answered as a whole, their
      transactions in order, their received bytes in order. */
  lemma Chain(chip: Chip, history: seq<Event>, a: seq<Event>, b: seq<Event>, c: seq<Event>)
    requires Answered(chip, history, a) && WellFormed(a)
    requires Answered(chip, history + a, b) && WellFormed(b)
    requires Answered(chip, history + a + b, c) && WellFormed(c)
    ensures Answered(chip, history, a + b + c)
    ensures Frames(a + b + c) == Idle(Frames(a).closed + Frames(b).closed + Frames(c).closed)
    ensures Received(a + b + c) == Received(a) + Received(b) + Received(c)
  {
    AnsweredAppend(chip, history, a, b);
    assert history + a + b == history + (a + b);
    AnsweredAppend(chip, history, a + b, c);
    WellFormedAppend(a, b);
    WellFormedAppend(a + b, c);
    ReceivedAppend(a, b);
    ReceivedAppend(a + b, c);
  }

  /** Three alternating calls, the first two well formed, alternate together. */
  lemma ChainAlternates(a: seq<Event>, b: seq<Event>, c: seq<Event>)
    requires WellFormed(a) && WellFormed(b)
    requires Alternates(a) && Alternates(b) && Alternates(c)
    ensures Alternates(a + b + c)
  {
    AlternatesAppend(a, b);
    WellFormedAppend(a, b);
    AlternatesAppend(a + b, c);
  }

  /** On the wire, `reset()` is the status-register-1 read and then, unless
      the chip is busy, the two reset opcodes with no byte between them. */
  lemma ResetSends(chip: Chip, history: seq<Event>)
    ensures var r := Reset(chip, history);
      Sent(r.events) == if r.status == Busy then [0x05, 0x00] else [0x05, 0x00, 0x66, 0x99]
  {
    var r := Reset(chip, history);
    SentIsFrames(r.events);
    ResetBytes();
    if r.status != Busy {
      assert Frames(r.events).closed == [Sr1Read] + [[0x66], [0x99]];
    }
  }

  /** The bytes of the transactions `reset()` may leave, laid end to end. */
  lemma ResetBytes()
    ensures Flatten([Sr1Read]) == [0x05, 0x00]
    ensures Flatten([Sr1Read] + [[0x66], [0x99]]) == [0x05, 0x00, 0x66, 0x99]
  {
    var frames: seq<seq<Byte>> := [Sr1Read] + [[0x66], [0x99]];
    assert frames[..2] == [Sr1Read, [0x66]];
    assert frames[..2][..1] == [Sr1Read];
    assert [Sr1Read][..0] == [];
    assert Flatten([Sr1Read]) == [0x05, 0x00];
    assert Flatten(frames[..2]) == [0x05, 0x00, 0x66];
  }

  /** `readManufacturerId`: the opcode, then five zero bytes; the
      manufacturer byte is the fourth and the device byte the fifth of the
      bytes received after the opcode. */
  function ReadManufacturerId(chip: Chip, history: seq<Event>): (r: Reply<(Byte, Byte)>)
    ensures r.status == Ok && Answered(chip, history, r.events)
    ensures Alternates(r.events)
    ensures Frames(r.events) == Idle([[0x90, 0, 0, 0, 0, 0]])
    ensures |Received(r.events)| == 6
    ensures r.value == (Received(r.events)[4], Received(r.events)[5])
  {
    assert [Code(ManufacturerId)] + Zeros(5) == [0x90, 0, 0, 0, 0, 0];
    var t := Transaction(chip, history, [Code(ManufacturerId)] + Zeros(5));
    var buff := Received(t)[1..6];
    Reply(Ok, t, (buff[3], buff[4]))
  }

  /** `init`: drives chip select high, then reads the identity and compares
      the manufacturer byte first, then the device byte. */
  function Init(chip: Chip, history: seq<Event>): (r: Reply<()>)
    ensures Answered(chip, history, r.events)
    ensures r.events != [] && r.events[0] == Deselect
    ensures Alternates(r.events)
    ensures Frames(r.events) == Idle([[0x90, 0, 0, 0, 0, 0]])
    ensures |Received(r.events)| == 6
    ensures var manufacturer, device := Received(r.events)[4], Received(r.events)[5];
      && (r.status == Ok <==> manufacturer == 0xEF && device == 0x16)
      && (manufacturer != 0xEF ==> r.status == UnknownManufacturerId)
      && (manufacturer == 0xEF && device != 0x16 ==> r.status == UnknownDeviceId)
  {
    var setup := [Deselect];
    var id := ReadManufacturerId(chip, history + setup);
    assert Answered(chip, history, setup);
    AnsweredAppend(chip, history, setup, id.events);
    ReceivedAppend(setup, id.events);
    assert Received(setup) == [] by { assert setup[1..] == []; }
    assert Frames(setup) == Idle([]) by { assert setup[1..] == []; }
    FramesAppend(setup, id.events);
    assert Alternates(setup);
    AlternatesAppend(setup, id.events);
    var (manufacturer, device) := id.value;
    var status :=
      if manufacturer != ExpectedManufacturerId then UnknownManufacturerId
      else if device != ExpectedDeviceId then UnknownDeviceId
      else Ok;
    Reply(status, setup + id.events, ())
  }

  /** `init` ends a transaction an earlier call left open: its chip-select
      drive closes it before the identity read opens its own. */
  lemma InitClosesOpen(chip: Chip, history: seq<Event>, before: seq<Event>)
    requires Frames(before).Open?
    ensures Frames(before + Init(chip, history).events)
      == Idle(Frames(before).closed + [Frames(before).current, [0x90, 0, 0, 0, 0, 0]])
  {
    var evs := Init(chip, history).events;
    var f := Frames(before);
    assert evs == [Deselect] + evs[1..];
    ReplayAppend(Idle([]), before, evs);
    assert Step(f, Deselect) == Behind(f.closed + [f.current], Idle([]));
    assert Frames([Deselect] + evs[1..]) == Replay(Idle([]), evs[1..]) by {
      assert ([Deselect] + evs[1..])[1..] == evs[1..];
    }
    ReplayBehind(f.closed + [f.current], Idle([]), evs[1..]);
    assert f.closed + [f.current] + [[0x90, 0, 0, 0, 0, 0]]
      == f.closed + [f.current, [0x90, 0, 0, 0, 0, 0]];
  }

  /** `readJedecId`: the opcode, then three zero bytes clocking in the
      manufacturer, memory-type and capacity bytes. */
  function ReadJedecId(chip: Chip, history: seq<Event>): (r: Reply<(Byte, Byte, Byte)>)
    ensures r.status == Ok && Answered(chip, history, r.events)
    ensures Alternates(r.events)
    ensures Frames(r.events) == Idle([[0x9F, 0, 0, 0]])
    ensures |Received(r.events)| == 4
    ensures r.value == (Received(r.events)[1], Received(r.events)[2], Received(r.events)[3])
  {
    assert [Code(JedecId)] + Zeros(3) == [0x9F, 0, 0, 0];
    var t := Transaction(chip, history, [Code(JedecId)] + Zeros(3));
    Reply(Ok, t, (Received(t)[1], Received(t)[2], Received(t)[3]))
  }

  // ---------------------------------------------------------------------
  // The unique ID

  /** The bytes of a unique-ID read: opcode, four dummy bytes, eight ID bytes. */
  const UniqueIdFrame: seq<Byte> := [0x4B] + Zeros(12)

  /** The unique-ID buffer after the read: its first eight bytes are the
      bytes received after the dummies, the rest is untouched. */
  ghost predicate UniqueIdFilled(r: Reply<seq<Byte>>, buff: seq<Byte>)
    requires |buff| >= 8
  {
    && |Received(r.events)| == 13
    && |r.value| == |buff|
    && r.value[8..] == buff[8..]
    && forall i :: 0 <= i < 8 ==> r.value[i] == Received(r.events)[5 + i]
  }

  /** `readUniqueId` as the driver has it: the transaction is never
      released, so chip select stays low when the call returns. */
  function ReadUniqueIdAsWritten(chip: Chip, history: seq<Event>, buff: seq<Byte>): (r: Reply<seq<Byte>>)
    requires |buff| >= 8
    ensures r.status == Ok && Answered(chip, history, r.events)
    ensures Frames(r.events) == Open([], UniqueIdFrame)
    ensures UniqueIdFilled(r, buff)
  {
    var body := Stream(chip, history + [Select], UniqueIdFrame);
    assert Answered(chip, history, [Select]);
    AnsweredAppend(chip, history, [Select], body);
    OpenedThenStreamed(chip, history, UniqueIdFrame, |UniqueIdFrame|);
    assert body[..|UniqueIdFrame|] == body;
    ReceivedAppend([Select], body);
    assert Received([Select]) == [] by { assert [Select][1..] == []; }
    var received := Received(body);
    Reply(Ok, [Select] + body, received[5..13] + buff[8..])
  }

  /** `readUniqueId` with the release the other methods have. */
  function ReadUniqueId(chip: Chip, history: seq<Event>, buff: seq<Byte>): (r: Reply<seq<Byte>>)
    requires |buff| >= 8
    ensures r.status == Ok && Answered(chip, history, r.events)
    ensures Alternates(r.events)
    ensures Frames(r.events) == Idle([UniqueIdFrame])
    ensures UniqueIdFilled(r, buff)
  {
    var t := Transaction(chip, history, UniqueIdFrame);
    var received := Received(t);
    Reply(Ok, t, received[5..13] + buff[8..])
  }

  /** After the unique-ID read as written, the next call that opens with
      `_select()`, which is every call but `init`, selects a chip that is
      still selected: the log no longer alternates, and no continuation
      restores the alternation. */
  lemma UniqueIdLeavesChipSelected(chip: Chip, history: seq<Event>, buff: seq<Byte>, next: seq<Event>)
    requires |buff| >= 8
    requires next != [] && next[0] == Select
    ensures !WellFormed(ReadUniqueIdAsWritten(chip, history, buff).events)
    ensures forall c :: !Alternates(ReadUniqueIdAsWritten(chip, history, buff).events + next + c)
  {
    SelectWhileOpen(ReadUniqueIdAsWritten(chip, history, buff).events, next);
  }

  /** After the unique-ID read as written, a one-opcode instruction is not
      an instruction to the chip: its select finds chip select low, its
      opcode extends the unique-ID transaction, and its release closes the
      two as one transaction. */
  lemma UniqueIdSwallowsCommand(chip: Chip, history: seq<Event>, buff: seq<Byte>, op: Opcode)
    requires |buff| >= 8
    ensures var u := ReadUniqueIdAsWritten(chip, history, buff).events;
      var n := Command(chip, history + u, op).events;
      && Frames(u + n) == Idle([UniqueIdFrame + [Code(op)]])
      && !Alternates(u + n)
  {
    var u := ReadUniqueIdAsWritten(chip, history, buff).events;
    var n := Command(chip, history + u, op).events;
    ReplayAppend(Idle([]), u, n);
    TransactionOnOpen(chip, history + u, [Code(op)], [], UniqueIdFrame);
    assert [] + [UniqueIdFrame + [Code(op)]] == [UniqueIdFrame + [Code(op)]];
    UniqueIdLeavesChipSelected(chip, history, buff, n);
    assert u + n + [] == u + n;
  }

  /** The case of `writeEnable`: the chip sees a single transaction, the
      unique-ID read followed by a stray 0x06, and never 0x06 as an opcode. */
  lemma UniqueIdThenWriteEnable(chip: Chip, history: seq<Event>, buff: seq<Byte>)
    requires |buff| >= 8
    ensures var u := ReadUniqueIdAsWritten(chip, history, buff).events;
      var w := WriteEnable(chip, history + u).events;
      && Frames(u + w) == Idle([[0x4B] + Zeros(12) + [0x06]])
      && forall k :: 0 <= k < |Frames(u + w).closed| ==> Frames(u + w).closed[k][0] != 0x06
  {
    UniqueIdSwallowsCommand(chip, history, buff, Opcode.WriteEnable);
  }

  /** After the unique-ID read as written, the busy check of a guarded call
      is swallowed as well: its status-read bytes extend the unique-ID
      transaction, so the byte taken for status register 1 is whatever the
      chip shifts out in the middle of that transaction. */
  lemma UniqueIdSwallowsBusyCheck(chip: Chip, history: seq<Event>, buff: seq<Byte>)
    requires |buff| >= 8
    ensures var u := ReadUniqueIdAsWritten(chip, history, buff).events;
      Frames(u + IsBusy(chip, history + u).events) == Idle([UniqueIdFrame + Sr1Read])
  {
    var u := ReadUniqueIdAsWritten(chip, history, buff).events;
    var n := IsBusy(chip, history + u).events;
    assert [Code(ReadOp(Register1)), 0x00] == Sr1Read;
    assert n == Transaction(chip, history + u, Sr1Read);
    ReplayAppend(Idle([]), u, n);
    TransactionOnOpen(chip, history + u, Sr1Read, [], UniqueIdFrame);
    assert [] + [UniqueIdFrame + Sr1Read] == [UniqueIdFrame + Sr1Read];
  }

  /** `init` after the unique-ID read as written closes the transaction that
      read left open: the unique-ID bytes, then the identity read. */
  lemma UniqueIdThenInit(chip: Chip, history: seq<Event>, buff: seq<Byte>)
    requires |buff| >= 8
    ensures var u := ReadUniqueIdAsWritten(chip, history, buff).events;
      Frames(u + Init(chip, history + u).events) == Idle([UniqueIdFrame, [0x90, 0, 0, 0, 0, 0]])
  {
    var u := ReadUniqueIdAsWritten(chip, history, buff).events;
    InitClosesOpen(chip, history + u, u);
    assert [] + [UniqueIdFrame, [0x90, 0, 0, 0, 0, 0]] == [UniqueIdFrame, [0x90, 0, 0, 0, 0, 0]];
  }

  /** With the release in place, the unique-ID read composes with whatever
      call follows: one closed transaction, then the next call's. */
  lemma UniqueIdComposes(chip: Chip, history: seq<Event>, buff: seq<Byte>, next: seq<Event>)
    requires |buff| >= 8
    requires WellFormed(next)
    ensures WellFormed(ReadUniqueId(chip, history, buff).events + next)
    ensures Frames(ReadUniqueId(chip, history, buff).events + next).closed == [UniqueIdFrame] + Frames(next).closed
    ensures Alternates(next) ==> Alternates(ReadUniqueId(chip, history, buff).events + next)
  {
    var t := ReadUniqueId(chip, history, buff).events;
    WellFormedAppend(t, next);
    if Alternates(next) {
      AlternatesAppend(t, next);
    }
  }

  // ---------------------------------------------------------------------
  // Addressed instructions

  /** A guarded streaming read: `header`, then `len` zero bytes whose answers
      fill the caller's buffer in order. */
  function StreamRead(chip: Chip, history: seq<Event>, header: seq<Byte>, buff: seq<Byte>, len: nat): (r: Reply<seq<Byte>>)
    requires len <= |buff|
    ensures Answered(chip, history, r.events)
    ensures Guarded(r, [header + Zeros(len)])
    ensures Filled(r, buff, len, 2 + |header|)
  {
    var g := GuardedTransaction(chip, history, header + Zeros(len));
    var filled := if g.status == Ok then g.value[|header|..|header| + len] + buff[len..] else buff;
    GuardedValue(g, filled, [header + Zeros(len)]);
    Reply(g.status, g.events, filled)
  }

  /** A guarded streaming write: `header`, then the first `len` bytes of the
      caller's buffer in order. */
  function StreamWrite(chip: Chip, history: seq<Event>, header: seq<Byte>, buff: seq<Byte>, len: nat): (r: Reply<()>)
    requires len <= |buff|
    ensures Answered(chip, history, r.events)
    ensures Guarded(r, [header + buff[..len]])
  {
    var g := GuardedTransaction(chip, history, header + buff[..len]);
    GuardedValue(g, (), [header + buff[..len]]);
    Reply(g.status, g.events, ())
  }

  /** `readData`: opcode 0x03 and the address, no dummy byte. */
  function ReadData(chip: Chip, history: seq<Event>, addr: UInt32, buff: seq<Byte>, len: UInt32): (r: Reply<seq<Byte>>)
    requires len <= |buff|
    ensures Answered(chip, history, r.events)
    ensures Guarded(r, [[0x03] + AddressBytes(addr) + Zeros(len)])
    ensures Filled(r, buff, len, 6)
  {
    assert Code(Opcode.ReadData) == 0x03;
    StreamRead(chip, history, [Code(Opcode.ReadData)] + AddressBytes(addr), buff, len)
  }

  /** `fastRead`: opcode 0x0B, the address and one dummy byte. */
  function FastRead(chip: Chip, history: seq<Event>, addr: UInt32, buff: seq<Byte>, len: UInt32): (r: Reply<seq<Byte>>)
    requires len <= |buff|
    ensures Answered(chip, history, r.events)
    ensures Guarded(r, [[0x0B] + AddressBytes(addr) + [0x00] + Zeros(len)])
    ensures Filled(r, buff, len, 7)
  {
    assert Code(Opcode.FastRead) == 0x0B;
    StreamRead(chip, history, [Code(Opcode.FastRead)] + AddressBytes(addr) + [0x00], buff, len)
  }

  /** `readSFDPRegister`: opcode 0x5A, the address and one dummy byte. */
  function ReadSfdpRegister(chip: Chip, history: seq<Event>, addr: UInt32, buff: seq<Byte>, len: UInt32): (r: Reply<seq<Byte>>)
    requires len <= |buff|
    ensures Answered(chip, history, r.events)
    ensures Guarded(r, [[0x5A] + AddressBytes(addr) + [0x00] + Zeros(len)])
    ensures Filled(r, buff, len, 7)
  {
    assert Code(Opcode.ReadSfdpRegister) == 0x5A;
    StreamRead(chip, history, [Code(Opcode.ReadSfdpRegister)] + AddressBytes(addr) + [0x00], buff, len)
  }

  /** `readSecurityRegister`: opcode 0x48, the address and one dummy byte. */
  function ReadSecurityRegister(chip: Chip, history: seq<Event>, addr: UInt32, buff: seq<Byte>, len: UInt32): (r: Reply<seq<Byte>>)
    requires len <= |buff|
    ensures Answered(chip, history, r.events)
    ensures Guarded(r, [[0x48] + AddressBytes(addr) + [0x00] + Zeros(len)])
    ensures Filled(r, buff, len, 7)
  {
    assert Code(Opcode.ReadSecurityRegister) == 0x48;
    StreamRead(chip, history, [Code(Opcode.ReadSecurityRegister)] + AddressBytes(addr) + [0x00], buff, len)
  }

  /** `pageProgram`: opcode 0x02, the address, then the payload. */
  function PageProgram(chip: Chip, history: seq<Event>, addr: UInt32, buff: seq<Byte>, len: UInt32): (r: Reply<()>)
    requires len <= |buff|
    ensures Answered(chip, history, r.events)
    ensures Guarded(r, [[0x02] + AddressBytes(addr) + buff[..len]])
  {
    assert Code(Opcode.PageProgram) == 0x02;
    StreamWrite(chip, history, [Code(Opcode.PageProgram)] + AddressBytes(addr), buff, len)
  }

  /** `programSecurityRegister`: opcode 0x42, the address, then the payload. */
  function ProgramSecurityRegister(chip: Chip, history: seq<Event>, addr: UInt32, buff: seq<Byte>, len: UInt32): (r: Reply<()>)
    requires len <= |buff|
    ensures Answered(chip, history, r.events)
    ensures Guarded(r, [[0x42] + AddressBytes(addr) + buff[..len]])
  {
    assert Code(Opcode.ProgramSecurityRegister) == 0x42;
    StreamWrite(chip, history, [Code(Opcode.ProgramSecurityRegister)] + AddressBytes(addr), buff, len)
  }

  /** An erase of the unit at `addr`: guarded; the opcode and the address only. */
  function AddressedErase(chip: Chip, history: seq<Event>, op: Opcode, addr: UInt32): (r: Reply<()>)
    ensures Answered(chip, history, r.events)
    ensures Guarded(r, [[Code(op)] + AddressBytes(addr)])
  {
    var g := GuardedTransaction(chip, history, [Code(op)] + AddressBytes(addr));
    GuardedValue(g, (), [[Code(op)] + AddressBytes(addr)]);
    Reply(g.status, g.events, ())
  }

  /** `sectorErase`: opcode 0x20 and the address. */
  function SectorErase(chip: Chip, history: seq<Event>, addr: UInt32): (r: Reply<()>)
    ensures Answered(chip, history, r.events)
    ensures Guarded(r, [[0x20] + AddressBytes(addr)])
  {
    assert Code(Opcode.SectorErase) == 0x20;
    AddressedErase(chip, history, Opcode.SectorErase, addr)
  }

  /** `block32Erase`: opcode 0x52 and the address. */
  function Block32Erase(chip: Chip, history: seq<Event>, addr: UInt32): (r: Reply<()>)
    ensures Answered(chip, history, r.events)
    ensures Guarded(r, [[0x52] + AddressBytes(addr)])
  {
    assert Code(Opcode.Block32Erase) == 0x52;
    AddressedErase(chip, history, Opcode.Block32Erase, addr)
  }

  /** `block64Erase`: opcode 0xD8 and the address. */
  function Block64Erase(chip: Chip, history: seq<Event>, addr: UInt32): (r: Reply<()>)
    ensures Answered(chip, history, r.events)
    ensures Guarded(r, [[0xD8] + AddressBytes(addr)])
  {
    assert Code(Opcode.Block64Erase) == 0xD8;
    AddressedErase(chip, history, Opcode.Block64Erase, addr)
  }

  /** `eraseSecurityRegister`: opcode 0x44 and the address. */
  function EraseSecurityRegister(chip: Chip, history: seq<Event>, addr: UInt32): (r: Reply<()>)
    ensures Answered(chip, history, r.events)
    ensures Guarded(r, [[0x44] + AddressBytes(addr)])
  {
    assert Code(Opcode.EraseSecurityRegister) == 0x44;
    AddressedErase(chip, history, Opcode.EraseSecurityRegister, addr)
  }

  /** `chipErase`: guarded; the opcode 0xC7 alone. */
  function ChipErase(chip: Chip, history: seq<Event>): (r: Reply<()>)
    ensures Answered(chip, history, r.events)
    ensures Guarded(r, [[0xC7]])
  {
    assert Code(Opcode.ChipErase) == 0xC7;
    var g := GuardedTransaction(chip, history, [Code(Opcode.ChipErase)]);
    GuardedValue(g, (), [[Code(Opcode.ChipErase)]]);
    Reply(g.status, g.events, ())
  }
}
