/**
 * CRC-16/XMODEM (width 16, polynomial 0x1021, initial value 0, no reflection):
 * one bitwise definition, and the two loops that compute it, the settlement
 * contract's table look-up (strkey.rs) and the SDK's 32-bit shift register (stellar.ts).
 */
module Crc16 {
  import opened Prelude

  /** One clock of the 16-bit shift register. */
  function Shift(crc: bv16): bv16 {
    if crc & 0x8000 != 0 then (crc << 1) ^ 0x1021 else crc << 1
  }

  /** `n` clocks. */
  function Shifts(n: nat, crc: bv16): bv16 {
    if n == 0 then crc else Shifts(n - 1, Shift(crc))
  }

  function Shift8(crc: bv16): bv16 {
    Shift(Shift(Shift(Shift(Shift(Shift(Shift(Shift(crc))))))))
  }

  /** A byte enters at the top of the register. */
  function Feed(crc: bv16, b: bv8): bv16 {
    crc ^ ((b as bv16) << 8)
  }

  function Absorb(crc: bv16, b: bv8): bv16 {
    Shifts(8, Feed(crc, b))
  }

  /** The checksum of a byte string: absorb each byte, most significant bit first. */
  function Crc(data: seq<byte>): bv16 {
    if data == [] then 0 else Absorb(Crc(data[..|data| - 1]), data[|data| - 1] as bv8)
  }

  lemma CrcSnoc(data: seq<byte>, i: nat)
    requires i < |data|
    ensures Crc(data[..i + 1]) == Absorb(Crc(data[..i]), data[i] as bv8)
  {
    assert data[..i + 1][..i] == data[..i];
  }

  // --- The contract's table ---------------------------------------------------

  /** CRC16_TABLE, sixteen entries to a row. */
  function Table(i: bv16): bv16
    requires i < 0x100
  {
    if i < 0x10 then Row(i & 0xf, 0x0000, 0x1021, 0x2042, 0x3063, 0x4084, 0x50a5, 0x60c6, 0x70e7,
      0x8108, 0x9129, 0xa14a, 0xb16b, 0xc18c, 0xd1ad, 0xe1ce, 0xf1ef)
    else if i < 0x20 then Row(i & 0xf, 0x1231, 0x0210, 0x3273, 0x2252, 0x52b5, 0x4294, 0x72f7, 0x62d6,
      0x9339, 0x8318, 0xb37b, 0xa35a, 0xd3bd, 0xc39c, 0xf3ff, 0xe3de)
    else if i < 0x30 then Row(i & 0xf, 0x2462, 0x3443, 0x0420, 0x1401, 0x64e6, 0x74c7, 0x44a4, 0x5485,
      0xa56a, 0xb54b, 0x8528, 0x9509, 0xe5ee, 0xf5cf, 0xc5ac, 0xd58d)
    else if i < 0x40 then Row(i & 0xf, 0x3653, 0x2672, 0x1611, 0x0630, 0x76d7, 0x66f6, 0x5695, 0x46b4,
      0xb75b, 0xa77a, 0x9719, 0x8738, 0xf7df, 0xe7fe, 0xd79d, 0xc7bc)
    else if i < 0x50 then Row(i & 0xf, 0x48c4, 0x58e5, 0x6886, 0x78a7, 0x0840, 0x1861, 0x2802, 0x3823,
      0xc9cc, 0xd9ed, 0xe98e, 0xf9af, 0x8948, 0x9969, 0xa90a, 0xb92b)
    else if i < 0x60 then Row(i & 0xf, 0x5af5, 0x4ad4, 0x7ab7, 0x6a96, 0x1a71, 0x0a50, 0x3a33, 0x2a12,
      0xdbfd, 0xcbdc, 0xfbbf, 0xeb9e, 0x9b79, 0x8b58, 0xbb3b, 0xab1a)
    else if i < 0x70 then Row(i & 0xf, 0x6ca6, 0x7c87, 0x4ce4, 0x5cc5, 0x2c22, 0x3c03, 0x0c60, 0x1c41,
      0xedae, 0xfd8f, 0xcdec, 0xddcd, 0xad2a, 0xbd0b, 0x8d68, 0x9d49)
    else if i < 0x80 then Row(i & 0xf, 0x7e97, 0x6eb6, 0x5ed5, 0x4ef4, 0x3e13, 0x2e32, 0x1e51, 0x0e70,
      0xff9f, 0xefbe, 0xdfdd, 0xcffc, 0xbf1b, 0xaf3a, 0x9f59, 0x8f78)
    else if i < 0x90 then Row(i & 0xf, 0x9188, 0x81a9, 0xb1ca, 0xa1eb, 0xd10c, 0xc12d, 0xf14e, 0xe16f,
      0x1080, 0x00a1, 0x30c2, 0x20e3, 0x5004, 0x4025, 0x7046, 0x6067)
    else if i < 0xa0 then Row(i & 0xf, 0x83b9, 0x9398, 0xa3fb, 0xb3da, 0xc33d, 0xd31c, 0xe37f, 0xf35e,
      0x02b1, 0x1290, 0x22f3, 0x32d2, 0x4235, 0x5214, 0x6277, 0x7256)
    else if i < 0xb0 then Row(i & 0xf, 0xb5ea, 0xa5cb, 0x95a8, 0x8589, 0xf56e, 0xe54f, 0xd52c, 0xc50d,
      0x34e2, 0x24c3, 0x14a0, 0x0481, 0x7466, 0x6447, 0x5424, 0x4405)
    else if i < 0xc0 then Row(i & 0xf, 0xa7db, 0xb7fa, 0x8799, 0x97b8, 0xe75f, 0xf77e, 0xc71d, 0xd73c,
      0x26d3, 0x36f2, 0x0691, 0x16b0, 0x6657, 0x7676, 0x4615, 0x5634)
    else if i < 0xd0 then Row(i & 0xf, 0xd94c, 0xc96d, 0xf90e, 0xe92f, 0x99c8, 0x89e9, 0xb98a, 0xa9ab,
      0x5844, 0x4865, 0x7806, 0x6827, 0x18c0, 0x08e1, 0x3882, 0x28a3)
    else if i < 0xe0 then Row(i & 0xf, 0xcb7d, 0xdb5c, 0xeb3f, 0xfb1e, 0x8bf9, 0x9bd8, 0xabbb, 0xbb9a,
      0x4a75, 0x5a54, 0x6a37, 0x7a16, 0x0af1, 0x1ad0, 0x2ab3, 0x3a92)
    else if i < 0xf0 then Row(i & 0xf, 0xfd2e, 0xed0f, 0xdd6c, 0xcd4d, 0xbdaa, 0xad8b, 0x9de8, 0x8dc9,
      0x7c26, 0x6c07, 0x5c64, 0x4c45, 0x3ca2, 0x2c83, 0x1ce0, 0x0cc1)
    else Row(i & 0xf, 0xef1f, 0xff3e, 0xcf5d, 0xdf7c, 0xaf9b, 0xbfba, 0x8fd9, 0x9ff8,
      0x6e17, 0x7e36, 0x4e55, 0x5e74, 0x2e93, 0x3eb2, 0x0ed1, 0x1ef0)
  }

  function Row(k: bv16, a0: bv16, a1: bv16, a2: bv16, a3: bv16, a4: bv16, a5: bv16, a6: bv16, a7: bv16,
               a8: bv16, a9: bv16, a10: bv16, a11: bv16, a12: bv16, a13: bv16, a14: bv16, a15: bv16): bv16 {
    if k == 0 then a0 else if k == 1 then a1 else if k == 2 then a2 else if k == 3 then a3
    else if k == 4 then a4 else if k == 5 then a5 else if k == 6 then a6 else if k == 7 then a7
    else if k == 8 then a8 else if k == 9 then a9 else if k == 10 then a10 else if k == 11 then a11
    else if k == 12 then a12 else if k == 13 then a13 else if k == 14 then a14 else a15
  }

  // The register is linear over exclusive-or; one lemma per pair of top bits.

  lemma ShiftBothTop(x: bv16, y: bv16)
    requires x & 0x8000 != 0 && y & 0x8000 != 0
    ensures Shift(x ^ y) == Shift(x) ^ Shift(y)
  {
  }

  lemma ShiftLeftTop(x: bv16, y: bv16)
    requires x & 0x8000 != 0 && y & 0x8000 == 0
    ensures Shift(x ^ y) == Shift(x) ^ Shift(y)
  {
  }

  lemma ShiftRightTop(x: bv16, y: bv16)
    requires x & 0x8000 == 0 && y & 0x8000 != 0
    ensures Shift(x ^ y) == Shift(x) ^ Shift(y)
  {
  }

  lemma ShiftNoTop(x: bv16, y: bv16)
    requires x & 0x8000 == 0 && y & 0x8000 == 0
    ensures Shift(x ^ y) == Shift(x) ^ Shift(y)
  {
  }

  lemma ShiftLinear(x: bv16, y: bv16)
    ensures Shift(x ^ y) == Shift(x) ^ Shift(y)
  {
    if x & 0x8000 != 0 {
      if y & 0x8000 != 0 { ShiftBothTop(x, y); } else { ShiftLeftTop(x, y); }
    } else {
      if y & 0x8000 != 0 { ShiftRightTop(x, y); } else { ShiftNoTop(x, y); }
    }
  }

  ghost predicate IsXor(z: bv16, x: bv16, y: bv16) {
    z == x ^ y
  }

  lemma ShiftXor(z: bv16, x: bv16, y: bv16)
    requires IsXor(z, x, y)
    ensures IsXor(Shift(z), Shift(x), Shift(y))
  {
    ShiftLinear(x, y);
  }

  lemma {:induction false} ShiftsXor(n: nat, z: bv16, x: bv16, y: bv16)
    requires IsXor(z, x, y)
    ensures IsXor(Shifts(n, z), Shifts(n, x), Shifts(n, y))
  {
    hide Shift, IsXor;
    if n != 0 {
      ShiftXor(z, x, y);
      ShiftsXor(n - 1, Shift(z), Shift(x), Shift(y));
    }
  }

  /** Every one of the 256 table entries is what eight clocks make of its index. */
  lemma TableEntry(i: bv16)
    requires i < 0x100
    ensures Table(i) == Shifts(8, i << 8)
  {
    hide Table, Shift8, Shifts;
    EightShifts(i << 8);
    TableEntryUnrolled(i);
  }

  lemma TableEntryUnrolled(i: bv16)
    requires i < 0x100
    ensures Table(i) == Shift8(i << 8)
  {
  }

  lemma EightShifts(crc: bv16)
    ensures Shifts(8, crc) == Shift8(crc)
  {
    var s2 := Shift(Shift(crc));
    var s4 := Shift(Shift(s2));
    var s6 := Shift(Shift(s4));
    assert Shifts(8, crc) == Shifts(7, Shift(crc)) == Shifts(6, s2);
    assert Shifts(6, s2) == Shifts(5, Shift(s2)) == Shifts(4, s4);
    assert Shifts(4, s4) == Shifts(3, Shift(s4)) == Shifts(2, s6);
    assert Shifts(2, s6) == Shifts(1, Shift(s6)) == Shifts(0, Shift(Shift(s6)));
  }

  /** A register with an empty top byte only slides for eight clocks. */
  lemma LowByteSlides(x: bv16)
    requires x & 0xff00 == 0
    ensures Shifts(8, x) == x << 8
  {
    EightShifts(x);
    LowByteSlidesUnrolled(x);
  }

  lemma LowByteSlidesUnrolled(x: bv16)
    requires x & 0xff00 == 0
    ensures Shift8(x) == x << 8
  {
  }

  function Index(crc: bv16, b: bv8): (i: bv16)
    ensures i < 0x100
  {
    (crc >> 8) ^ (b as bv16)
  }

  lemma SplitRegister(crc: bv16, b: bv8)
    ensures IsXor(Feed(crc, b), crc & 0xff, Index(crc, b) << 8)
  {
  }

  lemma LowByte(crc: bv16)
    ensures (crc & 0xff) << 8 == crc << 8
    ensures (crc & 0xff) & 0xff00 == 0
  {
  }

  function TableAbsorb(crc: bv16, b: bv8): bv16 {
    (crc << 8) ^ Table(Index(crc, b))
  }

  /** One table step absorbs one byte exactly as eight bit steps do. */
  lemma TableStep(crc: bv16, b: bv8)
    ensures TableAbsorb(crc, b) == Absorb(crc, b)
  {
    hide Shift, Shifts, Table, Index, Feed;
    assert IsXor(Shifts(8, Feed(crc, b)), crc << 8, Table(Index(crc, b))) by {
      hide Shift, Shifts, Table, Index, Feed, IsXor;
      SplitRegister(crc, b);
      ShiftsXor(8, Feed(crc, b), crc & 0xff, Index(crc, b) << 8);
      LowByte(crc);
      LowByteSlides(crc & 0xff);
      TableEntry(Index(crc, b));
    }
  }

  method TableCrc(data: seq<byte>) returns (crc: bv16)
    ensures crc == Crc(data)
  {
    hide Absorb, TableAbsorb;
    crc := 0;
    for i := 0 to |data|
      invariant crc == Crc(data[..i])
    {
      TableStep(crc, data[i] as bv8);
      CrcSnoc(data, i);
      crc := TableAbsorb(crc, data[i] as bv8);
    }
    assert data[..|data|] == data;
  }

  /** The two trailing bytes of a strkey: low byte first. */
  function LittleEndian(crc: bv16): (out: seq<byte>)
    ensures |out| == 2
  {
    [(crc as int) % 0x100, (crc as int) / 0x100]
  }

  function ChecksumBytes(data: seq<byte>): (out: seq<byte>)
    ensures |out| == 2
  {
    LittleEndian(Crc(data))
  }

  /** The contract's `checksum`. */
  method Checksum(data: seq<byte>) returns (out: seq<byte>)
    ensures out == ChecksumBytes(data)
  {
    var crc := TableCrc(data);
    out := LittleEndian(crc);
  }

  // --- The SDK's register ---------------------------------------------------

  /** One turn of the SDK's inner loop. Nothing is masked: bits above 16 pile up. */
  function WideShift(crc: bv32): bv32 {
    if crc & 0x8000 != 0 then (crc << 1) ^ 0x1021 else crc << 1
  }

  /** The register's low half holds `crc`; what is above it does not matter. */
  ghost predicate Low16(x: bv32, crc: bv16) {
    x & 0xffff == crc as bv32
  }

  lemma WideShiftLow(x: bv32, crc: bv16)
    requires Low16(x, crc)
    ensures Low16(WideShift(x), Shift(crc))
  {
    if crc & 0x8000 != 0 { WideShiftLowTop(x, crc); } else { WideShiftLowNoTop(x, crc); }
  }

  lemma WideShiftLowTop(x: bv32, crc: bv16)
    requires Low16(x, crc) && crc & 0x8000 != 0
    ensures Low16(WideShift(x), Shift(crc))
  {
  }

  lemma WideShiftLowNoTop(x: bv32, crc: bv16)
    requires Low16(x, crc) && crc & 0x8000 == 0
    ensures Low16(WideShift(x), Shift(crc))
  {
  }

  lemma WideFeedLow(x: bv32, crc: bv16, b: bv8)
    requires Low16(x, crc)
    ensures Low16(x ^ ((b as bv32) << 8), Feed(crc, b))
  {
  }

  lemma ShiftsUnfold(n: nat, crc: bv16)
    ensures Shifts(n + 1, crc) == Shifts(n, Shift(crc))
  {
  }

  /** The inner loop of the SDK's `crc16`, with JavaScript's 32-bit bitwise operators. */
  method SdkAbsorb(x: bv32, b: bv8, ghost crc: bv16) returns (r: bv32)
    requires Low16(x, crc)
    ensures Low16(r, Absorb(crc, b))
  {
    hide Shift, WideShift, Shifts, Low16, Feed;
    WideFeedLow(x, crc, b);
    r := x ^ ((b as bv32) << 8);
    ghost var c := Feed(crc, b);
    for i := 0 to 8
      invariant Low16(r, c) && Shifts(8 - i, c) == Absorb(crc, b)
    {
      WideShiftLow(r, c);
      ShiftsUnfold(7 - i, c);
      r, c := WideShift(r), Shift(c);
    }
    NoShifts(c);
  }

  lemma NoShifts(crc: bv16)
    ensures Shifts(0, crc) == crc
  {
  }

  /**
   * The SDK's `crc16`: high bits pile up over the whole string but never reach
   * the low half, so the final mask yields the contract's CRC.
   */
  method SdkCrc16(data: seq<byte>) returns (r: nat)
    ensures r == Crc(data) as int
  {
    hide Absorb, Low16;
    var crc: bv32 := 0;
    assert Low16(crc, Crc(data[..0])) by { LowZero(); }
    for n := 0 to |data|
      invariant Low16(crc, Crc(data[..n]))
    {
      CrcSnoc(data, n);
      crc := SdkAbsorb(crc, data[n] as bv8, Crc(data[..n]));
    }
    assert data[..|data|] == data;
    LowMask(crc, Crc(data));
    r := ((crc & 0xffff) as bv16) as int;
  }

  lemma LowZero()
    ensures Low16(0, Crc([]))
  {
  }

  lemma LowMask(x: bv32, crc: bv16)
    requires Low16(x, crc)
    ensures (x & 0xffff) as bv16 == crc
  {
  }
}
