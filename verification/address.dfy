/** The 24-bit big-endian address that every addressed instruction sends
    after its opcode, and the alignment the erase instructions document. */
module Address {

  import opened Catalog

  /** The driver's `unsigned int` address and length parameters, taken as
      32 bits wide. */
  type UInt32 = x: int | 0 <= x < 0x1_0000_0000

  /** Highest byte address of the 8 MiB array. */
  const MaxAddress: int := 0x7F_FFFF

  /** Number of values three address bytes can carry. */
  const AddressSpace: int := 0x100_0000

  /** `(byte)(addr >> 8 * k)`: the k-th byte of the address counted from the
      least significant one, truncated to eight bits. */
  function ShiftedByte(addr: UInt32, k: nat): Byte
    requires k < 3
  {
    var shifted := if k == 0 then addr else if k == 1 then addr / 0x100 else addr / 0x1_0000;
    shifted % 0x100
  }

  /** The three bytes sent for an address, most significant first. */
  function AddressBytes(addr: UInt32): (b: seq<Byte>)
    ensures |b| == 3
    ensures AddressOf(b) == addr % AddressSpace
  {
    var b := [ShiftedByte(addr, 2), ShiftedByte(addr, 1), ShiftedByte(addr, 0)];
    DivModSplit(addr);
    b
  }

  /** The address three bytes on the wire stand for. */
  function AddressOf(b: seq<Byte>): (a: int)
    requires |b| == 3
    ensures 0 <= a < AddressSpace
  {
    b[0] as int * 0x1_0000 + b[1] as int * 0x100 + b[2] as int
  }

  /** The arithmetic behind the encoding: an address is its three low bytes
      plus a multiple of 2^24. */
  lemma DivModSplit(addr: UInt32)
    ensures addr % AddressSpace
         == (addr / 0x1_0000) % 0x100 * 0x1_0000 + (addr / 0x100) % 0x100 * 0x100 + addr % 0x100
  {
    var q0 := addr / 0x100;
    var q1 := q0 / 0x100;
    var q2 := q1 / 0x100;
    assert addr == q0 * 0x100 + addr % 0x100;
    assert q0 == q1 * 0x100 + q0 % 0x100;
    assert q1 == q2 * 0x100 + q1 % 0x100;
    assert addr / 0x1_0000 == q1;
    assert addr == q2 * AddressSpace + (q1 % 0x100 * 0x1_0000 + q0 % 0x100 * 0x100 + addr % 0x100);
  }

  /** Every address up to the top of the array survives the encoding. */
  lemma AddressRoundTrip(addr: UInt32)
    requires addr <= MaxAddress
    ensures AddressOf(AddressBytes(addr)) == addr
  {
  }

  /** Any three bytes are the encoding of the address they stand for. */
  lemma BytesRoundTrip(b: seq<Byte>)
    requires |b| == 3
    ensures AddressBytes(AddressOf(b)) == b
  {
    var a := AddressOf(b);
    assert a / 0x100 == b[0] as int * 0x100 + b[1] as int;
    assert a / 0x1_0000 == b[0];
    assert ShiftedByte(a, 2) == b[0];
    assert ShiftedByte(a, 1) == b[1];
    assert ShiftedByte(a, 0) == b[2];
  }

  /** Address bits above bit 23 never reach the wire: two addresses that agree
      modulo 2^24 are sent as the same bytes. */
  lemma HighBitsDropped(addr: UInt32)
    ensures AddressBytes(addr) == AddressBytes(addr % AddressSpace)
  {
    BytesRoundTrip(AddressBytes(addr));
  }

  /** Address 0x010203 goes out as the bytes 0x01, 0x02, 0x03. */
  lemma AddressExample()
    ensures AddressBytes(0x01_0203) == [0x01, 0x02, 0x03]
  {
  }

  /** Sizes of the erase units, each a power of two. */
  const SectorSize: int := 0x1000
  const Block32Size: int := 0x8000
  const Block64Size: int := 0x1_0000

  /** The documented caller duty of the erase instructions: the address is
      the first byte of its unit. */
  predicate Aligned(addr: UInt32, size: int)
    requires size in {SectorSize, Block32Size, Block64Size}
  {
    addr % size == 0
  }

  /** The low 16 bits of an address are its two last bytes on the wire. */
  lemma LowBytes(addr: UInt32)
    ensures addr % 0x1_0000 == AddressBytes(addr)[1] as int * 0x100 + AddressBytes(addr)[2] as int
  {
    var low := addr % 0x1_0000;
    assert addr == (addr / 0x1_0000) * 0x1_0000 + low;
    assert addr / 0x100 == (addr / 0x1_0000) * 0x100 + low / 0x100;
    assert (addr / 0x100) % 0x100 == low / 0x100;
  }

  /** The alignment of an address depends only on its low 16 bits. */
  lemma AlignedLow(addr: UInt32, size: int)
    requires size in {SectorSize, Block32Size, Block64Size}
    ensures Aligned(addr, size) <==> (addr % 0x1_0000) % size == 0
  {
    var q := addr / 0x1_0000;
    var low := addr % 0x1_0000;
    if size == SectorSize {
      assert addr == (q * 0x10) * SectorSize + low;
    } else if size == Block32Size {
      assert addr == (q * 2) * Block32Size + low;
    }
  }

  /** On the wire, an aligned address is one whose low address byte is zero
      and whose middle byte has its low 4 (sector), 7 (32 KiB block) or all 8
      (64 KiB block) bits clear. */
  lemma AlignedOnWire(addr: UInt32)
    ensures Aligned(addr, SectorSize) <==> AddressBytes(addr)[2] == 0 && AddressBytes(addr)[1] % 0x10 == 0
    ensures Aligned(addr, Block32Size) <==> AddressBytes(addr)[2] == 0 && AddressBytes(addr)[1] % 0x80 == 0
    ensures Aligned(addr, Block64Size) <==> AddressBytes(addr)[2] == 0 && AddressBytes(addr)[1] == 0
  {
    LowBytes(addr);
    AlignedLow(addr, SectorSize);
    AlignedLow(addr, Block32Size);
    AlignedLow(addr, Block64Size);
    var m: int := AddressBytes(addr)[1];
    var l: int := AddressBytes(addr)[2];
    assert m * 0x100 + l == (m / 0x10) * SectorSize + ((m % 0x10) * 0x100 + l);
    assert m * 0x100 + l == (m / 0x80) * Block32Size + ((m % 0x80) * 0x100 + l);
  }
}
