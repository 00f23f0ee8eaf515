/** The CRC-32 checksum of the UDP server (src/server_library/udp/crc32.h). */
module Crc32 {

  // ---------------------------------------------------------------- the table

  /** `crc32_tab[k]`, sixteen entries to a row. */
  function Table(k: bv8): bv32 {
    var column := k & 15;
    match k >> 4
    case 0x0 => Entry0(column)
    case 0x1 => Entry1(column)
    case 0x2 => Entry2(column)
    case 0x3 => Entry3(column)
    case 0x4 => Entry4(column)
    case 0x5 => Entry5(column)
    case 0x6 => Entry6(column)
    case 0x7 => Entry7(column)
    case 0x8 => Entry8(column)
    case 0x9 => Entry9(column)
    case 0xA => EntryA(column)
    case 0xB => EntryB(column)
    case 0xC => EntryC(column)
    case 0xD => EntryD(column)
    case 0xE => EntryE(column)
    case _ => EntryF(column)
  }

  function Entry0(column: bv8): bv32 {
    match column
    case 0 => 0x00000000 case 1 => 0x77073096 case 2 => 0xee0e612c case 3 => 0x990951ba
    case 4 => 0x076dc419 case 5 => 0x706af48f case 6 => 0xe963a535 case 7 => 0x9e6495a3
    case 8 => 0x0edb8832 case 9 => 0x79dcb8a4 case 10 => 0xe0d5e91e case 11 => 0x97d2d988
    case 12 => 0x09b64c2b case 13 => 0x7eb17cbd case 14 => 0xe7b82d07 case _ => 0x90bf1d91
  }

  function Entry1(column: bv8): bv32 {
    match column
    case 0 => 0x1db71064 case 1 => 0x6ab020f2 case 2 => 0xf3b97148 case 3 => 0x84be41de
    case 4 => 0x1adad47d case 5 => 0x6ddde4eb case 6 => 0xf4d4b551 case 7 => 0x83d385c7
    case 8 => 0x136c9856 case 9 => 0x646ba8c0 case 10 => 0xfd62f97a case 11 => 0x8a65c9ec
    case 12 => 0x14015c4f case 13 => 0x63066cd9 case 14 => 0xfa0f3d63 case _ => 0x8d080df5
  }

  function Entry2(column: bv8): bv32 {
    match column
    case 0 => 0x3b6e20c8 case 1 => 0x4c69105e case 2 => 0xd56041e4 case 3 => 0xa2677172
    case 4 => 0x3c03e4d1 case 5 => 0x4b04d447 case 6 => 0xd20d85fd case 7 => 0xa50ab56b
    case 8 => 0x35b5a8fa case 9 => 0x42b2986c case 10 => 0xdbbbc9d6 case 11 => 0xacbcf940
    case 12 => 0x32d86ce3 case 13 => 0x45df5c75 case 14 => 0xdcd60dcf case _ => 0xabd13d59
  }

  function Entry3(column: bv8): bv32 {
    match column
    case 0 => 0x26d930ac case 1 => 0x51de003a case 2 => 0xc8d75180 case 3 => 0xbfd06116
    case 4 => 0x21b4f4b5 case 5 => 0x56b3c423 case 6 => 0xcfba9599 case 7 => 0xb8bda50f
    case 8 => 0x2802b89e case 9 => 0x5f058808 case 10 => 0xc60cd9b2 case 11 => 0xb10be924
    case 12 => 0x2f6f7c87 case 13 => 0x58684c11 case 14 => 0xc1611dab case _ => 0xb6662d3d
  }

  function Entry4(column: bv8): bv32 {
    match column
    case 0 => 0x76dc4190 case 1 => 0x01db7106 case 2 => 0x98d220bc case 3 => 0xefd5102a
    case 4 => 0x71b18589 case 5 => 0x06b6b51f case 6 => 0x9fbfe4a5 case 7 => 0xe8b8d433
    case 8 => 0x7807c9a2 case 9 => 0x0f00f934 case 10 => 0x9609a88e case 11 => 0xe10e9818
    case 12 => 0x7f6a0dbb case 13 => 0x086d3d2d case 14 => 0x91646c97 case _ => 0xe6635c01
  }

  function Entry5(column: bv8): bv32 {
    match column
    case 0 => 0x6b6b51f4 case 1 => 0x1c6c6162 case 2 => 0x856530d8 case 3 => 0xf262004e
    case 4 => 0x6c0695ed case 5 => 0x1b01a57b case 6 => 0x8208f4c1 case 7 => 0xf50fc457
    case 8 => 0x65b0d9c6 case 9 => 0x12b7e950 case 10 => 0x8bbeb8ea case 11 => 0xfcb9887c
    case 12 => 0x62dd1ddf case 13 => 0x15da2d49 case 14 => 0x8cd37cf3 case _ => 0xfbd44c65
  }

  function Entry6(column: bv8): bv32 {
    match column
    case 0 => 0x4db26158 case 1 => 0x3ab551ce case 2 => 0xa3bc0074 case 3 => 0xd4bb30e2
    case 4 => 0x4adfa541 case 5 => 0x3dd895d7 case 6 => 0xa4d1c46d case 7 => 0xd3d6f4fb
    case 8 => 0x4369e96a case 9 => 0x346ed9fc case 10 => 0xad678846 case 11 => 0xda60b8d0
    case 12 => 0x44042d73 case 13 => 0x33031de5 case 14 => 0xaa0a4c5f case _ => 0xdd0d7cc9
  }

  function Entry7(column: bv8): bv32 {
    match column
    case 0 => 0x5005713c case 1 => 0x270241aa case 2 => 0xbe0b1010 case 3 => 0xc90c2086
    case 4 => 0x5768b525 case 5 => 0x206f85b3 case 6 => 0xb966d409 case 7 => 0xce61e49f
    case 8 => 0x5edef90e case 9 => 0x29d9c998 case 10 => 0xb0d09822 case 11 => 0xc7d7a8b4
    case 12 => 0x59b33d17 case 13 => 0x2eb40d81 case 14 => 0xb7bd5c3b case _ => 0xc0ba6cad
  }

  function Entry8(column: bv8): bv32 {
    match column
    case 0 => 0xedb88320 case 1 => 0x9abfb3b6 case 2 => 0x03b6e20c case 3 => 0x74b1d29a
    case 4 => 0xead54739 case 5 => 0x9dd277af case 6 => 0x04db2615 case 7 => 0x73dc1683
    case 8 => 0xe3630b12 case 9 => 0x94643b84 case 10 => 0x0d6d6a3e case 11 => 0x7a6a5aa8
    case 12 => 0xe40ecf0b case 13 => 0x9309ff9d case 14 => 0x0a00ae27 case _ => 0x7d079eb1
  }

  function Entry9(column: bv8): bv32 {
    match column
    case 0 => 0xf00f9344 case 1 => 0x8708a3d2 case 2 => 0x1e01f268 case 3 => 0x6906c2fe
    case 4 => 0xf762575d case 5 => 0x806567cb case 6 => 0x196c3671 case 7 => 0x6e6b06e7
    case 8 => 0xfed41b76 case 9 => 0x89d32be0 case 10 => 0x10da7a5a case 11 => 0x67dd4acc
    case 12 => 0xf9b9df6f case 13 => 0x8ebeeff9 case 14 => 0x17b7be43 case _ => 0x60b08ed5
  }

  function EntryA(column: bv8): bv32 {
    match column
    case 0 => 0xd6d6a3e8 case 1 => 0xa1d1937e case 2 => 0x38d8c2c4 case 3 => 0x4fdff252
    case 4 => 0xd1bb67f1 case 5 => 0xa6bc5767 case 6 => 0x3fb506dd case 7 => 0x48b2364b
    case 8 => 0xd80d2bda case 9 => 0xaf0a1b4c case 10 => 0x36034af6 case 11 => 0x41047a60
    case 12 => 0xdf60efc3 case 13 => 0xa867df55 case 14 => 0x316e8eef case _ => 0x4669be79
  }

  function EntryB(column: bv8): bv32 {
    match column
    case 0 => 0xcb61b38c case 1 => 0xbc66831a case 2 => 0x256fd2a0 case 3 => 0x5268e236
    case 4 => 0xcc0c7795 case 5 => 0xbb0b4703 case 6 => 0x220216b9 case 7 => 0x5505262f
    case 8 => 0xc5ba3bbe case 9 => 0xb2bd0b28 case 10 => 0x2bb45a92 case 11 => 0x5cb36a04
    case 12 => 0xc2d7ffa7 case 13 => 0xb5d0cf31 case 14 => 0x2cd99e8b case _ => 0x5bdeae1d
  }

  function EntryC(column: bv8): bv32 {
    match column
    case 0 => 0x9b64c2b0 case 1 => 0xec63f226 case 2 => 0x756aa39c case 3 => 0x026d930a
    case 4 => 0x9c0906a9 case 5 => 0xeb0e363f case 6 => 0x72076785 case 7 => 0x05005713
    case 8 => 0x95bf4a82 case 9 => 0xe2b87a14 case 10 => 0x7bb12bae case 11 => 0x0cb61b38
    case 12 => 0x92d28e9b case 13 => 0xe5d5be0d case 14 => 0x7cdcefb7 case _ => 0x0bdbdf21
  }

  function EntryD(column: bv8): bv32 {
    match column
    case 0 => 0x86d3d2d4 case 1 => 0xf1d4e242 case 2 => 0x68ddb3f8 case 3 => 0x1fda836e
    case 4 => 0x81be16cd case 5 => 0xf6b9265b case 6 => 0x6fb077e1 case 7 => 0x18b74777
    case 8 => 0x88085ae6 case 9 => 0xff0f6a70 case 10 => 0x66063bca case 11 => 0x11010b5c
    case 12 => 0x8f659eff case 13 => 0xf862ae69 case 14 => 0x616bffd3 case _ => 0x166ccf45
  }

  function EntryE(column: bv8): bv32 {
    match column
    case 0 => 0xa00ae278 case 1 => 0xd70dd2ee case 2 => 0x4e048354 case 3 => 0x3903b3c2
    case 4 => 0xa7672661 case 5 => 0xd06016f7 case 6 => 0x4969474d case 7 => 0x3e6e77db
    case 8 => 0xaed16a4a case 9 => 0xd9d65adc case 10 => 0x40df0b66 case 11 => 0x37d83bf0
    case 12 => 0xa9bcae53 case 13 => 0xdebb9ec5 case 14 => 0x47b2cf7f case _ => 0x30b5ffe9
  }

  function EntryF(column: bv8): bv32 {
    match column
    case 0 => 0xbdbdf21c case 1 => 0xcabac28a case 2 => 0x53b39330 case 3 => 0x24b4a3a6
    case 4 => 0xbad03605 case 5 => 0xcdd70693 case 6 => 0x54de5729 case 7 => 0x23d967bf
    case 8 => 0xb3667a2e case 9 => 0xc4614ab8 case 10 => 0x5d681b02 case 11 => 0x2a6f2b94
    case 12 => 0xb40bbe37 case 13 => 0xc30c8ea1 case 14 => 0x5a05df1b case _ => 0x2d02ef8d
  }

  // ------------------------------------------------- the bit-serial definition

  const POLY: bv32 := 0xEDB88320

  /** One shift of the reflected register (section 8 of RFC 1952). */
  function Shift(c: bv32): bv32 {
    if c & 1 == 1 then POLY ^ (c >> 1) else c >> 1
  }

  function Xor(x: bv32, y: bv32): bv32 {
    x ^ y
  }

  function BitValue(bit: bool): bv32 {
    if bit then 1 else 0
  }

  function FeedBit(c: bv32, bit: bool): bv32 {
    Shift(Xor(c, BitValue(bit)))
  }

  function FeedBits(c: bv32, bits: seq<bool>): bv32
    decreases |bits|
  {
    if bits == [] then c else FeedBits(FeedBit(c, bits[0]), bits[1..])
  }

  function Lowest(b: bv8): bool {
    b & 1 != 0
  }

  function Half(b: bv8): bv8 {
    b >> 1
  }

  function FourBits(b: bv8): seq<bool> {
    [Lowest(b), Lowest(Half(b)), Lowest(Half(Half(b))), Lowest(Half(Half(Half(b))))]
  }

  /** The bits of a byte in transmission order, least significant first. */
  function BitsOf(b: bv8): seq<bool> {
    FourBits(b) + FourBits(Half(Half(Half(Half(b)))))
  }

  function MessageBits(m: seq<bv8>): (bits: seq<bool>)
    ensures |bits| == 8 * |m|
  {
    if m == [] then [] else BitsOf(m[0]) + MessageBits(m[1..])
  }

  /** The CRC of a message, one bit at a time. */
  function BitSerialCrc(m: seq<bv8>): bv32 {
    FeedBits(0xFFFFFFFF, MessageBits(m)) ^ 0xFFFFFFFF
  }

  // ------------------------------------------------------- the table is right

  function Shift8(c: bv32): bv32 {
    Shift(Shift(Shift(Shift(Shift(Shift(Shift(Shift(c))))))))
  }

  /** The first column. */
  function Head(row: bv8): bv32 {
    match row
    case 0 => 0x00000000 case 1 => 0x1db71064 case 2 => 0x3b6e20c8 case 3 => 0x26d930ac
    case 4 => 0x76dc4190 case 5 => 0x6b6b51f4 case 6 => 0x4db26158 case 7 => 0x5005713c
    case 8 => 0xedb88320 case 9 => 0xf00f9344 case 10 => 0xd6d6a3e8 case 11 => 0xcb61b38c
    case 12 => 0x9b64c2b0 case 13 => 0x86d3d2d4 case 14 => 0xa00ae278 case _ => 0xbdbdf21c
  }

  lemma HeadsAreShifts(row: bv8)
    requires row < 16
    ensures Head(row) == Shift8(row as bv32 << 4)
  {
    hide Shift8;
    ShiftedHeads0();
    ShiftedHeads8();
  }

  lemma ShiftedHeads0()
    ensures Shift8(0x0) == 0x00000000 && Shift8(0x10) == 0x1db71064
    ensures Shift8(0x20) == 0x3b6e20c8 && Shift8(0x30) == 0x26d930ac
    ensures Shift8(0x40) == 0x76dc4190 && Shift8(0x50) == 0x6b6b51f4
    ensures Shift8(0x60) == 0x4db26158 && Shift8(0x70) == 0x5005713c
  {}

  lemma ShiftedHeads8()
    ensures Shift8(0x80) == 0xedb88320 && Shift8(0x90) == 0xf00f9344
    ensures Shift8(0xa0) == 0xd6d6a3e8 && Shift8(0xb0) == 0xcb61b38c
    ensures Shift8(0xc0) == 0x9b64c2b0 && Shift8(0xd0) == 0x86d3d2d4
    ensures Shift8(0xe0) == 0xa00ae278 && Shift8(0xf0) == 0xbdbdf21c
  {}

  lemma FirstRow(column: bv8)
    requires column < 16
    ensures Entry0(column) == Shift8(column as bv32)
  {
    hide Entry0, Shift8;
    if column < 8 { FirstHalfRow(column); } else { SecondHalfRow(column); }
  }

  lemma FirstHalfRow(column: bv8)
    requires column < 8
    ensures Entry0(column) == Shift8(column as bv32)
  {}

  lemma SecondHalfRow(column: bv8)
    requires 8 <= column < 16
    ensures Entry0(column) == Shift8(column as bv32)
  {}

  /** Each row is its first entry added to the first row. */
  lemma Rows(k: bv8)
    ensures Table(k) == Xor(Head(k >> 4), Entry0(k & 15))
  {
    hide Xor;
    hide Entry0, Entry1, Entry2, Entry3, Entry4, Entry5, Entry6, Entry7, Entry8, Entry9, EntryA, EntryB, EntryC, EntryD, EntryE, EntryF;
    var c := k & 15;
    match k >> 4
    case 0x0 => Row0(c);
    case 0x1 => Row1(c);
    case 0x2 => Row2(c);
    case 0x3 => Row3(c);
    case 0x4 => Row4(c);
    case 0x5 => Row5(c);
    case 0x6 => Row6(c);
    case 0x7 => Row7(c);
    case 0x8 => Row8(c);
    case 0x9 => Row9(c);
    case 0xA => RowA(c);
    case 0xB => RowB(c);
    case 0xC => RowC(c);
    case 0xD => RowD(c);
    case 0xE => RowE(c);
    case _ => RowF(c);
  }

  lemma Row0(column: bv8)
    requires column < 16
    ensures Entry0(column) == Xor(0x00000000, Entry0(column))
  {}

  lemma Row1(column: bv8)
    requires column < 16
    ensures Entry1(column) == Xor(0x1db71064, Entry0(column))
  {}

  lemma Row2(column: bv8)
    requires column < 16
    ensures Entry2(column) == Xor(0x3b6e20c8, Entry0(column))
  {}

  lemma Row3(column: bv8)
    requires column < 16
    ensures Entry3(column) == Xor(0x26d930ac, Entry0(column))
  {}

  lemma Row4(column: bv8)
    requires column < 16
    ensures Entry4(column) == Xor(0x76dc4190, Entry0(column))
  {}

  lemma Row5(column: bv8)
    requires column < 16
    ensures Entry5(column) == Xor(0x6b6b51f4, Entry0(column))
  {}

  lemma Row6(column: bv8)
    requires column < 16
    ensures Entry6(column) == Xor(0x4db26158, Entry0(column))
  {}

  lemma Row7(column: bv8)
    requires column < 16
    ensures Entry7(column) == Xor(0x5005713c, Entry0(column))
  {}

  lemma Row8(column: bv8)
    requires column < 16
    ensures Entry8(column) == Xor(0xedb88320, Entry0(column))
  {}

  lemma Row9(column: bv8)
    requires column < 16
    ensures Entry9(column) == Xor(0xf00f9344, Entry0(column))
  {}

  lemma RowA(column: bv8)
    requires column < 16
    ensures EntryA(column) == Xor(0xd6d6a3e8, Entry0(column))
  {}

  lemma RowB(column: bv8)
    requires column < 16
    ensures EntryB(column) == Xor(0xcb61b38c, Entry0(column))
  {}

  lemma RowC(column: bv8)
    requires column < 16
    ensures EntryC(column) == Xor(0x9b64c2b0, Entry0(column))
  {}

  lemma RowD(column: bv8)
    requires column < 16
    ensures EntryD(column) == Xor(0x86d3d2d4, Entry0(column))
  {}

  lemma RowE(column: bv8)
    requires column < 16
    ensures EntryE(column) == Xor(0xa00ae278, Entry0(column))
  {}

  lemma RowF(column: bv8)
    requires column < 16
    ensures EntryF(column) == Xor(0xbdbdf21c, Entry0(column))
  {}

  /** Every entry of the table is eight bit-serial shifts of its index. */
  lemma TableIsEightShifts(k: bv8)
    ensures Table(k) == Shift8(k as bv32)
  {
    hide Table, Shift8, Xor, Head, Entry0;
    var row, column := k >> 4, k & 15;
    Rows(k);
    HeadsAreShifts(row);
    FirstRow(column);
    Shift8IsLinear(row as bv32 << 4, column as bv32);
    SplitIndex(k);
  }

  lemma SplitIndex(k: bv8)
    ensures Xor((k >> 4) as bv32 << 4, (k & 15) as bv32) == k as bv32
  {}

  // ------------------------------------- the table-driven loop is bit-serial

  function FeedByte(c: bv32, b: bv8): bv32 {
    Shift8(Xor(c, b as bv32))
  }

  function FeedBytes(c: bv32, m: seq<bv8>): bv32
    decreases |m|
  {
    if m == [] then c else FeedBytes(FeedByte(c, m[0]), m[1..])
  }

  /** `str[i]` is a signed `char`: it is sign-extended before the exclusive or. */
  function SignExtend(b: bv8): bv32 {
    if b & 0x80 == 0 then b as bv32 else 0xFFFFFF00 | b as bv32
  }

  lemma ShiftIsLinear(x: bv32, y: bv32)
    ensures Shift(x ^ y) == Shift(x) ^ Shift(y)
  {
    assert (x ^ y) >> 1 == (x >> 1) ^ (y >> 1);
    assert (x ^ y) & 1 == (x & 1) ^ (y & 1);
    OddOrEven(x);
    OddOrEven(y);
    XorCancels(POLY, x >> 1, y >> 1);
  }

  lemma OddOrEven(x: bv32)
    ensures x & 1 == 1 || x & 1 == 0
  {}

  lemma XorCancels(p: bv32, x: bv32, y: bv32)
    ensures (p ^ x) ^ (p ^ y) == x ^ y
    ensures (p ^ x) ^ y == p ^ (x ^ y)
    ensures x ^ (p ^ y) == p ^ (x ^ y)
  {}

  lemma ShiftXor(x: bv32, y: bv32)
    ensures Shift(Xor(x, y)) == Xor(Shift(x), Shift(y))
  {
    ShiftIsLinear(x, y);
  }

  lemma Shift8IsLinear(x: bv32, y: bv32)
    ensures Shift8(Xor(x, y)) == Xor(Shift8(x), Shift8(y))
  {
    hide Shift, Xor;
    var x1, y1 := Shift(x), Shift(y);
    var x2, y2 := Shift(x1), Shift(y1);
    var x3, y3 := Shift(x2), Shift(y2);
    var x4, y4 := Shift(x3), Shift(y3);
    var x5, y5 := Shift(x4), Shift(y4);
    var x6, y6 := Shift(x5), Shift(y5);
    ShiftXor(x, y);
    ShiftXor(x1, y1);
    ShiftXor(x2, y2);
    ShiftXor(x3, y3);
    ShiftXor(x4, y4);
    ShiftXor(x5, y5);
    ShiftXor(x6, y6);
    ShiftXor(Shift(x6), Shift(y6));
  }

  /** Eight shifts of a register whose low byte is clear only move it down. */
  lemma Shift8OfHighPart(x: bv32)
    requires x & 0xFF == 0
    ensures Shift8(x) == x >> 8
  {}

  function LowByte(x: bv32): bv8 {
    (x & 0xFF) as bv8
  }

  function HighPart(x: bv32): bv32 {
    x & 0xFFFFFF00
  }

  /** The loop body: `crc32_tab[(crc ^ str[i]) & 0xFF] ^ ((crc >> 8) & 0x00FFFFFF)`. */
  function TableStep(c: bv32, b: bv8): bv32 {
    Xor(Table(LowByte(Xor(c, SignExtend(b)))), (c >> 8) & 0x00FFFFFF)
  }

  /** The shifts of a register split at its low byte: table entry and moved-down rest. */
  lemma Shift8Splits(x: bv32)
    ensures Shift8(x) == Xor(Table(LowByte(x)), HighPart(x) >> 8)
  {
    hide Shift8, Table, Xor;
    Shift8IsLinear(LowByte(x) as bv32, HighPart(x));
    TableIsEightShifts(LowByte(x));
    Shift8OfHighPart(HighPart(x));
    SplitRegister(x);
  }

  lemma SplitRegister(x: bv32)
    ensures x == Xor(LowByte(x) as bv32, HighPart(x))
  {}

  lemma SameParts(c: bv32, b: bv8)
    ensures LowByte(Xor(c, SignExtend(b))) == LowByte(Xor(c, b as bv32))
    ensures HighPart(Xor(c, b as bv32)) >> 8 == (c >> 8) & 0x00FFFFFF
  {}

  /** One pass of the loop body feeds one byte. */
  lemma TableStepFeedsByte(c: bv32, b: bv8)
    ensures TableStep(c, b) == FeedByte(c, b)
  {
    hide Shift8, Table, Xor, LowByte, HighPart, SignExtend;
    SameParts(c, b);
    Shift8Splits(Xor(c, b as bv32));
  }

  lemma {:induction false} FeedBitsAppend(c: bv32, u: seq<bool>, v: seq<bool>)
    ensures FeedBits(c, u + v) == FeedBits(FeedBits(c, u), v)
    decreases |u|
  {
    if u == [] {
      assert u + v == v;
    } else {
      assert (u + v)[1..] == u[1..] + v;
      FeedBitsAppend(FeedBit(c, u[0]), u[1..], v);
    }
  }

  /** Adding a byte and shifting once is feeding its lowest bit and adding the rest. */
  lemma PeelBit(c: bv32, b: bv8)
    ensures Shift(Xor(c, b as bv32)) == Xor(FeedBit(c, Lowest(b)), Half(b) as bv32)
  {
    hide Shift, Xor;
    ShiftXor(Xor(c, BitValue(Lowest(b))), b as bv32 & 0xFE);
    SplitLowestBit(c, b);
  }

  lemma SplitLowestBit(c: bv32, b: bv8)
    ensures Xor(c, b as bv32) == Xor(Xor(c, BitValue(Lowest(b))), b as bv32 & 0xFE)
    ensures Shift(b as bv32 & 0xFE) == Half(b) as bv32
  {}

  lemma PeelFour(c: bv32, b: bv8)
    ensures Shift(Shift(Shift(Shift(Xor(c, b as bv32)))))
         == Xor(FeedBits(c, FourBits(b)), Half(Half(Half(Half(b)))) as bv32)
  {
    hide Xor, Shift, FeedBit, Lowest, Half;
    var b1 := Half(b);
    var b2 := Half(b1);
    var b3 := Half(b2);
    var c1 := FeedBit(c, Lowest(b));
    var c2 := FeedBit(c1, Lowest(b1));
    var c3 := FeedBit(c2, Lowest(b2));
    PeelBit(c, b);
    PeelBit(c1, b1);
    PeelBit(c2, b2);
    PeelBit(c3, b3);
    FeedFour(c, Lowest(b), Lowest(b1), Lowest(b2), Lowest(b3));
  }

  lemma FeedFour(c: bv32, w: bool, x: bool, y: bool, z: bool)
    ensures FeedBits(c, [w, x, y, z]) == FeedBit(FeedBit(FeedBit(FeedBit(c, w), x), y), z)
  {
    hide FeedBit;
    FeedTwo(c, w, x);
    FeedTwo(FeedBits(c, [w, x]), y, z);
    assert [w, x, y, z] == [w, x] + [y, z];
    FeedBitsAppend(c, [w, x], [y, z]);
  }

  lemma FeedTwo(c: bv32, w: bool, x: bool)
    ensures FeedBits(c, [w, x]) == FeedBit(FeedBit(c, w), x)
  {
    hide FeedBit;
    assert [w, x][1..] == [x] && [x][1..] == [];
    assert FeedBits(FeedBit(c, w), [x]) == FeedBits(FeedBit(FeedBit(c, w), x), []);
  }

  lemma NothingLeft(c: bv32, b: bv8)
    ensures Xor(c, Half(Half(Half(Half(Half(Half(Half(Half(b)))))))) as bv32) == c
  {}

  lemma FeedBitsOfByte(c: bv32, b: bv8)
    ensures FeedBits(c, BitsOf(b)) == FeedByte(c, b)
  {
    hide Xor, Shift, FeedBits, FourBits, Half;
    var c4 := FeedBits(c, FourBits(b));
    var b4 := Half(Half(Half(Half(b))));
    PeelFour(c, b);
    PeelFour(c4, b4);
    NothingLeft(FeedBits(c4, FourBits(b4)), b);
    FeedBitsAppend(c, FourBits(b), FourBits(b4));
  }

  lemma {:induction false} FeedMessageBits(c: bv32, m: seq<bv8>)
    ensures FeedBits(c, MessageBits(m)) == FeedBytes(c, m)
    decreases |m|
  {
    hide BitsOf, FeedByte;
    if m != [] {
      FeedBitsAppend(c, BitsOf(m[0]), MessageBits(m[1..]));
      FeedBitsOfByte(c, m[0]);
      FeedMessageBits(FeedByte(c, m[0]), m[1..]);
    }
  }

  lemma {:induction false} FeedBytesAppend(c: bv32, m: seq<bv8>, n: seq<bv8>)
    ensures FeedBytes(c, m + n) == FeedBytes(FeedBytes(c, m), n)
    decreases |m|
  {
    hide FeedByte;
    if m == [] {
      assert m + n == n;
    } else {
      assert (m + n)[1..] == m[1..] + n;
      FeedBytesAppend(FeedByte(c, m[0]), m[1..], n);
    }
  }

  /** `crc32`: for every message the table-driven loop returns the bit-serial CRC.
      A negative `len` hashes nothing, as the loop condition is signed. */
  method Compute(str: seq<bv8>, len: int) returns (crc: bv32)
    requires len <= |str|
    ensures crc == BitSerialCrc(str[..if len < 0 then 0 else len])
  {
    hide FeedByte, FeedBits, Table;
    var crc32val: bv32 := 0;
    crc32val := crc32val ^ 0xFFFFFFFF;
    var i := 0;
    while i < len
      invariant 0 <= i && (i <= len || i == 0)
      invariant crc32val == FeedBytes(0xFFFFFFFF, str[..i])
    {
      TableStepFeedsByte(crc32val, str[i]);
      FeedBytesAppend(0xFFFFFFFF, str[..i], [str[i]]);
      assert str[..i + 1] == str[..i] + [str[i]];
      crc32val := TableStep(crc32val, str[i]);
      i := i + 1;
    }
    FeedMessageBits(0xFFFFFFFF, str[..i]);
    crc := crc32val ^ 0xFFFFFFFF;
  }

  // ------------------------------------------------------- the CRC is affine

  function XorBytes(m: seq<bv8>, n: seq<bv8>): (r: seq<bv8>)
    requires |m| == |n|
    ensures |r| == |m|
  {
    if m == [] then [] else [m[0] ^ n[0]] + XorBytes(m[1..], n[1..])
  }

  lemma FeedByteIsLinear(c: bv32, d: bv32, a: bv8, b: bv8)
    ensures FeedByte(Xor(c, d), a ^ b) == Xor(FeedByte(c, a), FeedByte(d, b))
  {
    hide Shift8, Xor;
    Shift8IsLinear(Xor(c, a as bv32), Xor(d, b as bv32));
    XorInterchange(c, d, a, b);
  }

  lemma XorInterchange(c: bv32, d: bv32, a: bv8, b: bv8)
    ensures Xor(Xor(c, d), (a ^ b) as bv32) == Xor(Xor(c, a as bv32), Xor(d, b as bv32))
  {}

  lemma {:induction false} FeedBytesIsLinear(c: bv32, d: bv32, m: seq<bv8>, n: seq<bv8>)
    requires |m| == |n|
    ensures FeedBytes(Xor(c, d), XorBytes(m, n)) == Xor(FeedBytes(c, m), FeedBytes(d, n))
    decreases |m|
  {
    hide FeedByte, Xor;
    if m != [] {
      FeedByteIsLinear(c, d, m[0], n[0]);
      FeedBytesIsLinear(FeedByte(c, m[0]), FeedByte(d, n[0]), m[1..], n[1..]);
      assert XorBytes(m, n)[1..] == XorBytes(m[1..], n[1..]);
    }
  }

  /** On equal lengths the CRC of a three-way exclusive or is the exclusive or of the CRCs. */
  lemma CrcOfThreeWayXor(a: seq<bv8>, b: seq<bv8>, c: seq<bv8>)
    requires |a| == |b| == |c|
    ensures BitSerialCrc(XorBytes(XorBytes(a, b), c)) == BitSerialCrc(a) ^ BitSerialCrc(b) ^ BitSerialCrc(c)
  {
    hide FeedBits, FeedBytes, MessageBits, Xor;
    var ones: bv32 := 0xFFFFFFFF;
    FeedMessageBits(ones, a);
    FeedMessageBits(ones, b);
    FeedMessageBits(ones, c);
    FeedMessageBits(ones, XorBytes(XorBytes(a, b), c));
    FeedBytesIsLinear(ones, ones, a, b);
    FeedBytesIsLinear(Xor(ones, ones), ones, XorBytes(a, b), c);
    OnesCancel(FeedBytes(ones, a), FeedBytes(ones, b), FeedBytes(ones, c));
  }

  lemma OnesCancel(x: bv32, y: bv32, z: bv32)
    ensures Xor(Xor(0xFFFFFFFF, 0xFFFFFFFF), 0xFFFFFFFF) == 0xFFFFFFFF
    ensures Xor(Xor(x, y), z) ^ 0xFFFFFFFF == (x ^ 0xFFFFFFFF) ^ (y ^ 0xFFFFFFFF) ^ (z ^ 0xFFFFFFFF)
  {}

  // ----------------------------------------------------------- burst errors

  /** Bit i of a register. */
  ghost function Bit(x: bv32, i: nat): bool
    decreases i
  {
    if i == 0 then x & 1 == 1 else Bit(x >> 1, i - 1)
  }

  lemma BitOfShifted(x: bv32, i: nat)
    ensures Bit(x, i + 1) == Bit(x >> 1, i)
    ensures Bit(x, i + 2) == Bit(x >> 2, i)
    ensures Bit(x, i + 4) == Bit(x >> 4, i)
  {
    assert (x >> 1) >> 1 == x >> 2 && (x >> 2) >> 1 == (x >> 1) >> 2 && ((x >> 2) >> 1) >> 1 == x >> 4;
    assert Bit(x, i + 4) == Bit(x >> 1, i + 3) == Bit((x >> 1) >> 1, i + 2);
    assert Bit(x >> 2, i + 2) == Bit((x >> 2) >> 1, i + 1) == Bit(((x >> 2) >> 1) >> 1, i);
  }

  lemma TopBit(x: bv32)
    ensures Bit(x, 31) <==> x & 0x80000000 != 0
  {
    BitOfShifted(x, 27);
    BitOfShifted(x >> 4, 23);
    BitOfShifted(x >> 8, 19);
    BitOfShifted(x >> 12, 15);
    BitOfShifted(x >> 16, 11);
    BitOfShifted(x >> 20, 7);
    BitOfShifted(x >> 24, 3);
    BitOfShifted(x >> 28, 1);
    BitOfShifted(x >> 30, 0);
    Shifts(x);
  }

  lemma Shifts(x: bv32)
    ensures (x >> 4) >> 4 == x >> 8 && (x >> 8) >> 4 == x >> 12 && (x >> 12) >> 4 == x >> 16
    ensures (x >> 16) >> 4 == x >> 20 && (x >> 20) >> 4 == x >> 24 && (x >> 24) >> 4 == x >> 28
    ensures (x >> 28) >> 2 == x >> 30 && (x >> 30) >> 1 == x >> 31
    ensures (x >> 31) & 1 == 1 <==> x & 0x80000000 != 0
  {}

  lemma {:induction false} ZeroBits(i: nat)
    ensures !Bit(0, i)
  {
    if i != 0 {
      assert (0 as bv32) >> 1 == 0;
      ZeroBits(i - 1);
    }
  }

  lemma {:induction false} FeedBitsKeepsDifference(c: bv32, d: bv32, u: seq<bool>)
    requires FeedBits(c, u) == FeedBits(d, u)
    ensures c == d
    decreases |u|
  {
    hide Shift;
    if u != [] {
      FeedBitsKeepsDifference(FeedBit(c, u[0]), FeedBit(d, u[0]), u[1..]);
      ShiftIsInjective(Xor(c, BitValue(u[0])), Xor(d, BitValue(u[0])));
      XorIsInjective(c, d, BitValue(u[0]));
    }
  }

  lemma XorIsInjective(x: bv32, y: bv32, z: bv32)
    requires Xor(x, z) == Xor(y, z)
    ensures x == y
  {}

  lemma ShiftIsInjective(x: bv32, y: bv32)
    requires Shift(x) == Shift(y)
    ensures x == y
  {}

  lemma AddLowestBit(x: bv32, bit: bool)
    requires Xor(x, BitValue(bit)) & 1 == 0
    ensures Xor(x, BitValue(bit)) >> 1 == x >> 1 && (x & 1 == 1 <==> bit)
  {}

  /** A shifted register with a clear top bit was even. */
  lemma UnshiftEven(x: bv32)
    requires Shift(x) & 0x80000000 == 0
    ensures x & 1 == 0 && Shift(x) == x >> 1
  {}

  lemma FeedBitDifference(c: bv32, d: bv32, s: bool, t: bool)
    ensures Xor(FeedBit(c, s), FeedBit(d, t)) == Shift(Xor(Xor(c, d), BitValue(s != t)))
  {
    hide Shift, Xor, BitValue;
    ShiftXor(Xor(c, BitValue(s)), Xor(d, BitValue(t)));
    XorExchange(c, BitValue(s), d, BitValue(t));
    assert Xor(BitValue(s), BitValue(t)) == BitValue(s != t) by { BitDifference(s, t); }
  }

  lemma XorExchange(w: bv32, x: bv32, y: bv32, z: bv32)
    ensures Xor(Xor(w, x), Xor(y, z)) == Xor(Xor(w, y), Xor(x, z))
  {
    hide Xor;
    XorLaws(w, x, Xor(y, z));
    XorLaws(x, y, z);
    XorLaws(y, x, z);
    XorLaws(w, y, Xor(x, z));
  }

  lemma XorLaws(x: bv32, y: bv32, z: bv32)
    ensures Xor(Xor(x, y), z) == Xor(x, Xor(y, z))
    ensures Xor(x, y) == Xor(y, x)
  {}

  lemma BitDifference(s: bool, t: bool)
    ensures Xor(BitValue(s), BitValue(t)) == BitValue(s != t)
  {}

  /** If two runs of at most 32 bits end in the same register, the registers they started
      from differ exactly in the positions where the bits differ. */
  lemma {:induction false} WindowDifference(c: bv32, d: bv32, u: seq<bool>, v: seq<bool>)
    requires |u| == |v| <= 32
    requires FeedBits(c, u) == FeedBits(d, v)
    ensures forall i: nat | i < 32 :: Bit(Xor(c, d), i) == (i < |u| && u[i] != v[i])
    decreases |u|
  {
    hide Bit, Xor, FeedBit;
    if u == [] {
      SelfXor(c);
      forall i: nat | i < 32 ensures !Bit(Xor(c, d), i) { ZeroBits(i); }
    } else {
      var e := Xor(FeedBit(c, u[0]), FeedBit(d, v[0]));
      WindowDifference(FeedBit(c, u[0]), FeedBit(d, v[0]), u[1..], v[1..]);
      FeedBitDifference(c, d, u[0], v[0]);
      BeforeTheBit(Xor(c, d), u[0] != v[0], e, 0);
      forall i: nat | i < 32 ensures Bit(Xor(c, d), i) == (i < |u| && u[i] != v[i]) {
        BeforeTheBit(Xor(c, d), u[0] != v[0], e, i);
      }
    }
  }

  lemma SelfXor(c: bv32)
    ensures Xor(c, c) == 0
  {}

  lemma BeforeTheBit(x: bv32, bit: bool, e: bv32, i: nat)
    requires e == Shift(Xor(x, BitValue(bit)))
    requires !Bit(e, 31)
    ensures Bit(x, i) == if i == 0 then bit else Bit(e, i - 1)
  {
    hide Shift, Xor, BitValue;
    TopBit(e);
    UnshiftEven(Xor(x, BitValue(bit)));
    AddLowestBit(x, bit);
  }

  /** The two bit strings agree outside a window of 32 positions starting at p. */
  ghost predicate BurstAt(u: seq<bool>, v: seq<bool>, p: nat) {
    |u| == |v| && forall i | 0 <= i < |u| :: i < p || p + 32 <= i ==> u[i] == v[i]
  }

  /** Error detection on bits: a burst of at most 32 consecutive bits, at any offset of a
      message of any length, changes the register. */
  lemma BurstChangesRegister(c: bv32, u: seq<bool>, v: seq<bool>, p: nat)
    requires BurstAt(u, v, p) && u != v
    ensures FeedBits(c, u) != FeedBits(c, v)
  {
    hide FeedBits;
    var from := if p < |u| then p else |u|;
    var till := if p + 32 < |u| then p + 32 else |u|;
    assert u == u[..from] + (u[from..till] + u[till..]);
    assert v == v[..from] + (v[from..till] + v[till..]);
    assert u[..from] == v[..from] && u[till..] == v[till..];
    var s := FeedBits(c, u[..from]);
    FeedBitsAppend(c, u[..from], u[from..till] + u[till..]);
    FeedBitsAppend(c, v[..from], v[from..till] + v[till..]);
    FeedBitsAppend(s, u[from..till], u[till..]);
    FeedBitsAppend(s, v[from..till], v[till..]);
    if FeedBits(c, u) == FeedBits(c, v) {
      FeedBitsKeepsDifference(FeedBits(s, u[from..till]), FeedBits(s, v[from..till]), u[till..]);
      WindowDetermined(s, u[from..till], v[from..till]);
    }
  }

  lemma WindowDetermined(s: bv32, u: seq<bool>, v: seq<bool>)
    requires |u| == |v| <= 32
    requires FeedBits(s, u) == FeedBits(s, v)
    ensures u == v
  {
    WindowDifference(s, s, u, v);
    SelfXor(s);
    forall i: nat | i < |u| ensures u[i] == v[i] { ZeroBits(i); }
  }

  lemma {:induction false} MessageBitsAt(m: seq<bv8>, i: nat)
    requires i < |m|
    ensures MessageBits(m)[8 * i..8 * i + 8] == BitsOf(m[i])
    decreases |m|
  {
    hide BitsOf;
    EightBits(m[0]);
    var rest := MessageBits(m[1..]);
    if i > 0 {
      MessageBitsAt(m[1..], i - 1);
      assert MessageBits(m)[8 * i..8 * i + 8] == rest[8 * (i - 1)..8 * (i - 1) + 8];
    }
  }

  lemma EightBits(b: bv8)
    ensures |BitsOf(b)| == 8
  {}

  lemma BitsDetermineByte(a: bv8, b: bv8)
    requires BitsOf(a) == BitsOf(b)
    ensures a == b
  {
    assert FourBits(a) == BitsOf(a)[..4] && FourBits(b) == BitsOf(b)[..4];
    var a4, b4 := Half(Half(Half(Half(a)))), Half(Half(Half(Half(b))));
    assert FourBits(a4) == BitsOf(a)[4..] && FourBits(b4) == BitsOf(b)[4..];
  }

  /** Two messages of equal length, of any size, that differ, but only inside four
      consecutive bytes, have different checksums. */
  lemma FourByteBurstDetected(m: seq<bv8>, n: seq<bv8>, p: nat)
    requires |m| == |n| && m != n
    requires forall i | 0 <= i < |m| :: i < p || p + 4 <= i ==> m[i] == n[i]
    ensures BitSerialCrc(m) != BitSerialCrc(n)
  {
    hide FeedBits, BitsOf;
    var u, v := MessageBits(m), MessageBits(n);
    forall k | 0 <= k < |u| && (k < 8 * p || 8 * p + 32 <= k) ensures u[k] == v[k] {
      SameBit(m, n, k);
    }
    var i :| 0 <= i < |m| && m[i] != n[i];
    DifferentBits(m, n, i);
    hide MessageBits;
    BurstChangesRegister(0xFFFFFFFF, u, v, 8 * p);
    OnesInjective(FeedBits(0xFFFFFFFF, u), FeedBits(0xFFFFFFFF, v));
  }

  lemma SameBit(m: seq<bv8>, n: seq<bv8>, k: nat)
    requires |m| == |n| && k < 8 * |m| && m[k / 8] == n[k / 8]
    ensures MessageBits(m)[k] == MessageBits(n)[k]
  {
    hide BitsOf;
    var i := k / 8;
    var u, v := MessageBits(m), MessageBits(n);
    MessageBitsAt(m, i);
    MessageBitsAt(n, i);
    hide MessageBits;
    assert u[k] == u[8 * i..8 * i + 8][k - 8 * i] && v[k] == v[8 * i..8 * i + 8][k - 8 * i];
  }

  lemma DifferentBits(m: seq<bv8>, n: seq<bv8>, i: nat)
    requires |m| == |n| && i < |m| && m[i] != n[i]
    ensures MessageBits(m) != MessageBits(n)
  {
    hide BitsOf, MessageBits;
    MessageBitsAt(m, i);
    MessageBitsAt(n, i);
    if MessageBits(m) == MessageBits(n) { BitsDetermineByte(m[i], n[i]); }
  }

  lemma OnesInjective(x: bv32, y: bv32)
    requires x != y
    ensures x ^ 0xFFFFFFFF != y ^ 0xFFFFFFFF
  {}

  // ------------------------------------------------------------ start and end values

  lemma EmptyMessage()
    ensures BitSerialCrc([]) == 0
  {}

  function Byte0(x: bv32): bv8 {
    (x & 0xFF) as bv8
  }

  function Byte1(x: bv32): bv8 {
    ((x >> 8) & 0xFF) as bv8
  }

  function Byte2(x: bv32): bv8 {
    ((x >> 16) & 0xFF) as bv8
  }

  function Byte3(x: bv32): bv8 {
    ((x >> 24) & 0xFF) as bv8
  }

  /** The four bytes of a register, least significant first. */
  function LittleEndian(x: bv32): seq<bv8> {
    [Byte0(x), Byte1(x), Byte2(x), Byte3(x)]
  }

  /** h is l, eight places higher. */
  predicate Above(h: bv32, l: bv32) {
    h & 0xFF == 0 && l == h >> 8
  }

  function Wide(b: bv8): bv32 {
    b as bv32
  }

  /** Adding something after eight shifts is adding it eight places higher before them. */
  lemma AddBefore(x: bv32, h: bv32, l: bv32)
    requires Above(h, l)
    ensures Xor(Shift8(x), l) == Shift8(Xor(x, h))
  {
    hide Shift8, Xor;
    Shift8OfHighPart(h);
    Shift8IsLinear(x, h);
  }

  function FeedWord(c: bv32, w: bv32): bv32 {
    Shift8(Xor(c, w))
  }

  lemma FeedWide(c: bv32, b: bv8)
    ensures FeedByte(c, b) == FeedWord(c, Wide(b))
  {
    hide Shift8, Xor;
  }

  /** Four bytes fed one after the other are four bytes added at their places and then shifted. */
  lemma FeedFourWords(c: bv32, w0: bv32, w1: bv32, w2: bv32, w3: bv32, h1: bv32, h2: bv32, h3: bv32,
                      h4: bv32, h5: bv32, h6: bv32)
    requires Above(h1, w1) && Above(h2, w2) && Above(h3, h2) && Above(h4, w3) && Above(h5, h4) && Above(h6, h5)
    ensures FeedWord(FeedWord(FeedWord(FeedWord(c, w0), w1), w2), w3)
         == Shift8(Shift8(Shift8(Shift8(Xor(Xor(Xor(Xor(c, w0), h1), h3), h6)))))
  {
    hide Shift8, Xor, Above;
    var u0 := Xor(c, w0);
    var u1 := Xor(u0, h1);
    var u2 := Xor(u1, h3);
    AddBefore(u0, h1, w1);
    AddBefore(Shift8(u1), h2, w2);
    AddBefore(u1, h3, h2);
    AddBefore(Shift8(Shift8(u2)), h4, w3);
    AddBefore(Shift8(u2), h5, h4);
    AddBefore(u2, h6, h5);
  }

  /** The upper three bytes of a register at the places they pass through. */
  function Part(x: bv32, k: nat): bv32 {
    match k
    case 1 => x & 0xFF00
    case 2 => (x >> 8) & 0xFF00 case 3 => x & 0xFF0000
    case 4 => (x >> 16) & 0xFF00 case 5 => (x >> 8) & 0xFF0000 case _ => x & 0xFF000000
  }

  lemma LowestPlaces(x: bv32)
    ensures Above(Part(x, 1), Wide(Byte1(x))) && Above(Part(x, 2), Wide(Byte2(x)))
  {}

  lemma MiddlePlaces(x: bv32)
    ensures Above(Part(x, 4), Wide(Byte3(x))) && Above(Part(x, 3), Part(x, 2))
  {}

  lemma HighestPlaces(x: bv32)
    ensures Above(Part(x, 5), Part(x, 4)) && Above(Part(x, 6), Part(x, 5))
  {}

  /** A register, its complement's bytes added at their places, is all ones. */
  lemma AddsToOnes(c: bv32, x: bv32)
    requires Complements(c, x)
    ensures Xor(Xor(Xor(Xor(c, Wide(Byte0(x))), Part(x, 1)), Part(x, 3)), Part(x, 6)) == 0xFFFFFFFF
  {
    var b, p, q, r := Wide(Byte0(x)), Part(x, 1), Part(x, 3), Part(x, 6);
    assert b == x & 0xFF && p == x & 0xFF00 && q == x & 0xFF0000 && r == x & 0xFF000000;
    hide Wide, Byte0, Part;
    Ones(c, x, b, p, q, r);
  }

  lemma Ones(c: bv32, x: bv32, b: bv32, p: bv32, q: bv32, r: bv32)
    requires Complements(c, x) && b == x & 0xFF && p == x & 0xFF00 && q == x & 0xFF0000 && r == x & 0xFF000000
    ensures Xor(Xor(Xor(Xor(c, b), p), q), r) == 0xFFFFFFFF
  {}

  predicate Complements(c: bv32, x: bv32) {
    x == c ^ 0xFFFFFFFF
  }

  lemma ShiftedOnes()
    ensures Shift8(0xFFFFFFFF) == 0x2dfd1072 && Shift8(0x2dfd1072) == 0xbe26ed00
    ensures Shift8(0xbe26ed00) == 0x00be26ed && Shift8(0x00be26ed) == 0xdebb20e3
  {}

  /** Whatever the register, feeding its complement leaves one value. */
  lemma FeedComplement(c: bv32, x: bv32)
    requires Complements(c, x)
    ensures FeedBytes(c, LittleEndian(x)) == 0xdebb20e3
  {
    hide Shift8, Xor, FeedByte, FeedWord, Above, Wide, Byte0, Byte1, Byte2, Byte3, Part, Complements, FeedBytes;
    LowestPlaces(x);
    MiddlePlaces(x);
    HighestPlaces(x);
    AddsToOnes(c, x);
    var b0, b1, b2, b3 := Byte0(x), Byte1(x), Byte2(x), Byte3(x);
    FourFed(c, b0, b1, b2, b3);
    var c1 := FeedByte(c, b0);
    var c2 := FeedByte(c1, b1);
    FeedWide(c, b0);
    FeedWide(c1, b1);
    FeedWide(c2, b2);
    FeedWide(FeedByte(c2, b2), b3);
    FeedFourWords(c, Wide(b0), Wide(b1), Wide(b2), Wide(b3),
      Part(x, 1), Part(x, 2), Part(x, 3), Part(x, 4), Part(x, 5), Part(x, 6));
    ShiftedOnes();
  }

  lemma FourFed(c: bv32, b0: bv8, b1: bv8, b2: bv8, b3: bv8)
    ensures FeedBytes(c, [b0, b1, b2, b3]) == FeedByte(FeedByte(FeedByte(FeedByte(c, b0), b1), b2), b3)
  {
    hide FeedByte;
    var m := [b0, b1, b2, b3];
    FedFirst(c, m);
    FedFirst(FeedByte(c, b0), m[1..]);
    FedFirst(FeedByte(FeedByte(c, b0), b1), m[1..][1..]);
    FedFirst(FeedByte(FeedByte(FeedByte(c, b0), b1), b2), m[1..][1..][1..]);
    assert m[1..][1..][1..][1..] == [];
  }

  lemma FedFirst(c: bv32, m: seq<bv8>)
    requires m != []
    ensures FeedBytes(c, m) == FeedBytes(FeedByte(c, m[0]), m[1..])
  {
    hide FeedByte;
  }

  /** The checksum of any message with its checksum appended, least significant byte first. */
  lemma Residue(m: seq<bv8>)
    ensures BitSerialCrc(m + LittleEndian(BitSerialCrc(m))) == 0x2144df1c
  {
    var c := FeedBytes(0xFFFFFFFF, m);
    var x := BitSerialCrc(m);
    CrcOfRegister(m);
    CrcOfRegister(m + LittleEndian(x));
    hide FeedBytes, LittleEndian, BitSerialCrc, Complements;
    FeedComplement(c, x);
    FeedBytesAppend(0xFFFFFFFF, m, LittleEndian(x));
    LastComplement(BitSerialCrc(m + LittleEndian(x)));
  }

  lemma CrcOfRegister(m: seq<bv8>)
    ensures Complements(FeedBytes(0xFFFFFFFF, m), BitSerialCrc(m))
  {
    FeedMessageBits(0xFFFFFFFF, m);
    hide FeedBits, FeedBytes, MessageBits;
  }

  lemma LastComplement(x: bv32)
    requires Complements(0xdebb20e3, x)
    ensures x == 0x2144df1c
  {}
}
