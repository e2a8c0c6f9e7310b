# W25Q64 driver: command framing and busy discipline

This project models the Arduino driver for the Winbond W25Q64 serial NOR flash.
The driver turns a fixed catalog of one-byte opcodes into SPI transactions.

- A transaction is bracketed by `_select()` (chip select low) and `_release()` (chip select high).
- Inside a transaction, every `SPI.transfer` shifts one byte out and one byte in.
- Addressed instructions send a 24-bit address, most significant byte first.
- A guarded group of methods first reads status register 1: the status-register writes, `readData`, `fastRead`, `pageProgram`, the four erase instructions, `reset`, `readSfdpRegister` and the three security-register instructions. Each returns `W25Q64_BUSY` without sending its own opcode when bit 0 of that register is set. The write-enable family, power-down, suspend/resume, the identity reads and the status-register reads send their opcode at once.

## Shape of the model

- `Catalog` (catalog.dfy): the 29 opcodes, the status enumeration, the three status-register read/write pairs and the expected identity bytes.
- `Address` (address.dfy): the three address bytes, their decoding, and the alignment the erase instructions document.
- `Bus` (bus.dfy): the bus as an event log of `Select`, `Transfer(mosi, miso)`, `Release` and `Deselect`.
  - The chip is an oracle `Chip = (history, mosi) -> miso`. It may answer any byte based on everything the bus carried before.
  - `Frames` replays a log into the transactions the chip sees: `Idle`, `Open` or `Malformed`.
    - A select while chip select is already low changes nothing, because driving the pin low again leaves it low.
    - `Malformed` means a byte or a release came while chip select was high.
  - `Alternates` is the driver's own discipline: it selects the chip only while chip select is high. Every driver call in the model states that its own log alternates, except the unique-ID read as written.
  - `Answered` says every received byte is the oracle's answer at that moment.
- `Driver` (driver.dfy): one pure function per public method of the `W25Q64` class, except that `ReadStatusRegister` and `WriteStatusRegister` each cover the three `readStatusRegisterN` or `writeStatusRegisterN` methods through their `reg` argument. Each function takes the chip and the bus history and returns `Reply(status, events, value)`.
  - The value is what the method writes through its output parameters.
  - Streaming reads take the caller's buffer and return it updated, so the contract can say which bytes change.
- `SimChip` (simchip.dfy): two concrete oracles.
  - A chip holding only its three status registers, used for the write-then-read property and for `busy()`.
  - A chip answering the identity read, used for the `init` cases.

Contracts speak about exact byte sequences on the wire: `Frames(r.events) == Idle([...])`. They also speak about where each returned byte came from: `Received(r.events)[k]`.

The busy discipline is one predicate, `Driver.Guarded`. It says:

- The first transaction is `[0x05, 0x00]`.
- The status is Busy exactly when bit 0 of the byte received during it is set.
- When Busy, nothing else was sent.
- Otherwise the status is Ok and exactly the listed transactions followed.
- Either way, the call's log alternates.

Three consequences of the code are easy to miss:

- A call that finds the chip busy has still performed the status-register-1 read.
- Guarded calls are two transactions (the status read, then the command), and `reset()` is three.
- `*unique_id ++` parses as `*(unique_id++)`, so eight consecutive bytes are filled. The model fills `buff[0..8)` in order. The defect in that method is the missing `_release()`; see Findings.

`init` also drives chip select high before its identity read (W25Q64.cpp:18). The bus has a `Deselect` event for this drive. It closes a transaction left open and does nothing when chip select is already high.

## Model

| member | source | states |
|---|---|---|
| Catalog.CatalogComplete | W25Q64.hpp:23-51 | the catalog has 29 instructions and every instruction is in it |
| Catalog.CodeRoundTrip | W25Q64.hpp:23-51 | decoding an instruction's byte gives back that instruction |
| Catalog.OpcodeOfSound | W25Q64.hpp:23-51 | a byte decodes to an instruction only if it is that instruction's byte |
| Catalog.CodesDistinct | W25Q64.hpp:23-51 | two instructions have the same byte if and only if they are the same instruction |
| Catalog.StatusRegisterPairs | W25Q64.hpp:37-42 | the pairs are 0x05/0x01, 0x35/0x31 and 0x15/0x11; no read opcode is a write opcode; each opcode belongs to one register |
| Catalog.StatusValue | W25Q64.hpp:65-71 | every status value is below 4, and only `OK` has value 0 |
| Catalog.StatusValuesDistinct | W25Q64.hpp:65-71 | the four statuses have four different values |
| Address.AddressBytes | W25Q64.cpp:133-135 | an address goes out as three bytes, most significant first; they stand for the address modulo 2^24 |
| Address.AddressRoundTrip | W25Q64.hpp:60 | every address up to `W25Q64_MAX_ADDRESS` (0x7FFFFF) survives the encoding unchanged |
| Address.BytesRoundTrip | W25Q64.cpp:133-135 | any three bytes are the encoding of the address they stand for |
| Address.HighBitsDropped | W25Q64.cpp:133-135 | bits above bit 23 never reach the wire |
| Address.AddressExample | W25Q64.cpp:133-135 | address 0x010203 is sent as 0x01, 0x02, 0x03 |
| Address.AlignedOnWire | W25Q64.hpp:206-237 | the documented sector, 32 KiB and 64 KiB alignment holds exactly when the low address byte is zero and the middle byte has its low 4, 7 or 8 bits clear |
| Bus.Stream | W25Q64.cpp:137-141 | a run of transfers sends the given bytes in order, and each received byte is the chip's answer at that moment |
| Bus.Transaction | W25Q64.hpp:386-404 | select, bytes, release: the log starts with the select, alternates, and the chip sees exactly one closed transaction of those bytes |
| Bus.FramesAppend | W25Q64.hpp:386-404 | once chip select is high again, what follows is framed on its own |
| Bus.WellFormedAppend | W25Q64.hpp:386-404 | two well-formed logs make a well-formed log: the first log's transactions, then the second's |
| Bus.SelectWhileOpen | W25Q64.hpp:386-391 | a select while a transaction is open changes nothing the chip sees, and no continuation of the log alternates |
| Bus.BracketAlternates | W25Q64.hpp:386-404 | a select, transfers and a release select the chip only once, at the start, with chip select high |
| Bus.AlternatesAppend | W25Q64.hpp:386-404 | after a well-formed alternating log, an alternating log keeps the whole log alternating |
| Bus.TransactionOnOpen | W25Q64.hpp:386-404 | a transaction started while another is open extends it: the chip sees one transaction of the old bytes followed by the new |
| Bus.TransactionAnswers | W25Q64.cpp:247-253 | the i-th received byte of a transaction is the chip's answer when it has seen the transaction open with i bytes sent |
| Bus.DeselectIdle | W25Q64.cpp:18 | driving chip select high while it is already high changes nothing the chip sees |
| Bus.SentIsFrames | W25Q64.hpp:386-404 | on a well-formed log, the bytes sent are exactly the transactions laid end to end |
| Driver.ReadStatusRegister | W25Q64.cpp:247-291 | `readStatusRegisterN` sends [read opcode, 0x00] in one transaction, returns OK and yields the byte received during the 0x00 |
| Driver.IsBusy | W25Q64.cpp:37-43 | `busy()` is one transaction [0x05, 0x00] and is true if and only if bit 0 of the received byte is set |
| Driver.WriteStatusRegister | W25Q64.cpp:255-302 | `writeStatusRegisterN` is guarded; when not busy it sends [write opcode, value] |
| Driver.WriteEnable | W25Q64.cpp:57-62 | no busy check; one transaction [0x06]; returns OK |
| Driver.VolatileWriteEnable | W25Q64.cpp:64-69 | no busy check; one transaction [0x50]; returns OK |
| Driver.WriteDisable | W25Q64.cpp:71-76 | no busy check; one transaction [0x04]; returns OK |
| Driver.ReleasePowerDown | W25Q64.cpp:78-83 | no busy check; one transaction [0xAB]; returns OK |
| Driver.EraseProgramSuspend | W25Q64.cpp:386-391 | no busy check; one transaction [0x75]; returns OK |
| Driver.EraseProgramResume | W25Q64.cpp:393-398 | no busy check; one transaction [0x7A]; returns OK |
| Driver.PowerDown | W25Q64.cpp:400-405 | no busy check; one transaction [0xB9]; returns OK |
| Driver.EnableReset | W25Q64.cpp:407-412 | no busy check; one transaction [0x66]; returns OK |
| Driver.ResetDevice | W25Q64.cpp:414-419 | no busy check; one transaction [0x99]; returns OK |
| Driver.Reset | W25Q64.cpp:45-53 | busy: BUSY after the status read alone; otherwise OK after exactly [0x66] then [0x99] |
| Driver.ResetSends | W25Q64.cpp:45-53 | the bytes sent are 05 00 when busy and 05 00 66 99 otherwise; no byte sits between the two reset opcodes |
| Driver.ReadManufacturerId | W25Q64.cpp:85-97 | sends 0x90 and five zero bytes; the manufacturer byte is the 4th and the device byte the 5th received after the opcode |
| Driver.Init | W25Q64.cpp:14-35 | drives chip select high first, then sends the identity read; OK if and only if the bytes are 0xEF and 0x16; a wrong manufacturer byte gives UNKOWN_MANUFACTURER_ID whatever the device byte; a right manufacturer byte with a wrong device byte gives UNKOWN_DEVICE_ID |
| Driver.InitClosesOpen | W25Q64.cpp:14-35 | after any log that leaves a transaction open, `init` closes that transaction and then adds its identity read |
| Driver.ReadJedecId | W25Q64.cpp:99-107 | sends 0x9F and three zero bytes; yields the three bytes received after the opcode, in order |
| Driver.ReadUniqueIdAsWritten | W25Q64.cpp:109-122 | sends 0x4B, four dummy bytes and eight zero bytes without releasing; the first 8 buffer bytes are the bytes received after the dummies, the rest is untouched |
| Driver.UniqueIdLeavesChipSelected | W25Q64.cpp:109-122 | after the unique-ID read as written, the log is not well formed; after a next call that opens with a select (every call but `init`), no continuation alternates |
| Driver.UniqueIdSwallowsCommand | W25Q64.cpp:109-122 | after the unique-ID read as written, any one-opcode instruction is seen by the chip as one more byte of the unique-ID transaction, and the log stops alternating |
| Driver.UniqueIdThenWriteEnable | W25Q64.cpp:57-62 | after the unique-ID read as written, `writeEnable` leaves the single transaction 4B, twelve 00, 06: no transaction starts with 0x06 |
| Driver.UniqueIdSwallowsBusyCheck | W25Q64.cpp:37-43 | after the unique-ID read as written, a guarded call's status read 05 00 is appended to the unique-ID transaction, so its busy bit is not read from status register 1 |
| Driver.UniqueIdThenInit | W25Q64.cpp:14-35 | `init` after the unique-ID read as written closes the open transaction: the log is the unique-ID bytes, then the identity read |
| Driver.ReadUniqueId | W25Q64.cpp:109-122 | the same read closed by a release: one closed transaction, with the same buffer contents |
| Driver.UniqueIdComposes | W25Q64.cpp:109-122 | the released unique-ID read composes with any following well-formed log: its transaction, then the log's; and it keeps an alternating log alternating |
| Driver.ReadData | W25Q64.cpp:124-145 | guarded; sends [0x03] + address + len zero bytes, with no dummy byte; buff[i] is `Received(r.events)[6 + i]` for i < len; the rest of the buffer, and all of it when busy, is untouched |
| Driver.FastRead | W25Q64.cpp:147-168 | guarded; sends [0x0B] + address + one 0x00 dummy + len zero bytes; buff[i] is `Received(r.events)[7 + i]` for i < len; the rest is untouched |
| Driver.PageProgram | W25Q64.cpp:170-189 | guarded; sends [0x02] + address + buff[0..len) in order |
| Driver.SectorErase | W25Q64.cpp:191-204 | guarded; sends [0x20] + address only |
| Driver.Block32Erase | W25Q64.cpp:206-219 | guarded; sends [0x52] + address only |
| Driver.Block64Erase | W25Q64.cpp:221-234 | guarded; sends [0xD8] + address only |
| Driver.ChipErase | W25Q64.cpp:236-245 | guarded; sends [0xC7] only |
| Driver.ReadSfdpRegister | W25Q64.cpp:304-325 | guarded; sends [0x5A] + address + one dummy + len zero bytes; fills buff[0..len) from the bytes after the dummy |
| Driver.EraseSecurityRegister | W25Q64.cpp:327-339 | guarded; sends [0x44] + address only |
| Driver.ProgramSecurityRegister | W25Q64.cpp:341-361 | guarded; sends [0x42] + address + buff[0..len) in order |
| Driver.ReadSecurityRegister | W25Q64.cpp:363-384 | guarded; sends [0x48] + address + one dummy + len zero bytes; fills buff[0..len) from the bytes after the dummy |
| SimChip.ReadReturnsLatest | W25Q64.cpp:247-291 | on the register chip, a status-register read returns the value the earlier transactions left in that register |
| SimChip.BusyIsBit0 | W25Q64.cpp:37-43 | on the register chip, `busy()` is exactly bit 0 of status register 1, for every value it holds |
| SimChip.WriteReportsBusy | W25Q64.cpp:255-302 | on the register chip, a status-register write reports BUSY exactly when bit 0 of status register 1 is set, and OK otherwise |
| SimChip.WriteThenRead | W25Q64.cpp:255-302 | while the chip is not busy, a status-register write reports OK, the next read of that register returns the written value, and the other registers keep their values |
| SimChip.WriteWhileBusy | W25Q64.cpp:255-302 | while the chip is busy, a status-register write reports BUSY and every register reads back as before |
| SimChip.InitAgainstIdentity | W25Q64.cpp:14-35 | against a chip answering (m, d), `init` checks m against 0xEF first, then d against 0x16 |
| SimChip.InitExamples | W25Q64.cpp:14-35 | (0xEF, 0x16) gives OK, (0xEF, 0x15) gives UNKOWN_DEVICE_ID, (0x01, 0x16) gives UNKOWN_MANUFACTURER_ID |

## Findings

| source | as written | input that shows it | evidently intended | confidence | as-written member | corrected member |
|---|---|---|---|---|---|---|
| W25Q64.cpp:109-122 | `readUniqueId` selects the chip and returns without `_release()`, so chip select stays low and the SPI transaction stays open | any call to `readUniqueId` followed by any call other than `init`, e.g. `writeEnable()`: its select finds the chip already selected, so the chip sees 0x06 as a byte of the unique-ID transaction, never as an opcode | end the transaction with `_release()` before returning, as every other method does | high; not executed | Driver.ReadUniqueIdAsWritten, Driver.UniqueIdThenWriteEnable | Driver.ReadUniqueId, Driver.UniqueIdComposes |

## Left out

- Arduino and SPI library calls are not modelled: `pinMode`, the electrical effect of `digitalWrite`, `SPI.begin`, and the `SPISettings` clock, mode and bit order. They are foreign hardware calls. The model keeps their byte-level meaning: `Select`, `Transfer`, `Release` and `Deselect`.
- The chip-select pin number, `pinMode` and `SPI.begin` in `init` are left out. They send no byte. The chip-select-high drive in `init` is modelled as `Deselect`.
- The lower-clock `SPI.beginTransaction` inside `readData` (W25Q64.cpp:130) is left out. Both speed constants are equal, and it changes no byte.
- The unused `_status` field is not modelled. `init` stores the ignored return value of `readManufacturerId` in it, and that value is always OK.
- Flash-array behaviour is not modelled: erase to 0xFF, programming as bit-AND, page wrap-around, timing. The driver does not implement any of it; the chip is an opaque oracle. For that reason, writing a page and reading it back is not stated.
- Driver.PageProgram: the documented limit of 256 bytes per page program is not required. The driver does not check it, and the model sends any `len`, as the code does.
- Driver.SectorErase, Driver.Block32Erase, Driver.Block64Erase: the documented alignment is not required. The driver sends any address. `Address.AlignedOnWire` says what the documented alignment means for the bytes sent.
- The write-enable-before-mutation duty is not modelled. It is documented for callers only, and the driver neither issues nor checks it.
- Concurrency and the race between the busy check and the command are out of scope. The driver is single-threaded and blocking.
- `unsigned int` is taken as 32 bits wide. On a 16-bit target, `addr >> 16` would behave differently.
- Each buffer must hold at least `len` bytes (at least 8 for the unique ID), stated as `requires`. A `len` above the buffer is undefined behaviour in C, and the model does not describe it.
