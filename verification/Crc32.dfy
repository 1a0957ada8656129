/** The environment checksum of env/crc32.c: a 32-bit reflected register, all ones before and after. */
module Crc32 {
  import opened Register

  const POLY: bv32 := 0xedb88320

  /** One shift of the register: the bit that leaves decides whether the polynomial is added. */
  function BitStep(c: bv32): bv32 {
    if c & 1 == 1 then (c >> 1) ^ POLY else c >> 1
  }

  function Bits8(c: bv32): bv32 {
    Iter(BitStep, BYTE_TIME, c)
  }

  /** Add the byte to the low end of the register, then shift it out. */
  function ByteStep(c: bv32, b: byte): bv32 {
    Bits8(Add(c, b as bv32))
  }

  function Add(c: bv32, d: bv32): bv32 {
    c ^ d
  }

  lemma XorShift(c: bv32, d: bv32)
    ensures (c ^ d) >> 1 == (c >> 1) ^ (d >> 1)
    ensures (c ^ d) & 1 == (c & 1) ^ (d & 1)
    ensures (c & 1 == 0 || c & 1 == 1) && (d & 1 == 0 || d & 1 == 1)
  {
  }

  lemma XorCancel(a: bv32, b: bv32, p: bv32)
    ensures (a ^ p) ^ (b ^ p) == a ^ b
    ensures (a ^ p) ^ b == (a ^ b) ^ p
    ensures a ^ (b ^ p) == (a ^ b) ^ p
  {
  }

  lemma BitStepLinear(c: bv32, d: bv32, e: bv32)
    requires e == c ^ d
    ensures BitStep(e) == BitStep(c) ^ BitStep(d)
  {
    XorShift(c, d);
    XorCancel(c >> 1, d >> 1, POLY);
  }

  lemma Bits8Linear(c: bv32, d: bv32)
    ensures Bits8(Add(c, d)) == Add(Bits8(c), Bits8(d))
  {
    forall x, y
      ensures BitStep(Add(x, y)) == Add(BitStep(x), BitStep(y))
    {
      BitStepLinear(x, y, Add(x, y));
    }
    IterAdditive(BitStep, Add, BYTE_TIME, c, d);
  }

  // Eight nested shifts, which the verifier can evaluate on constants.
  function Unrolled(c: bv32): bv32 {
    BitStep(BitStep(BitStep(BitStep(BitStep(BitStep(BitStep(BitStep(c))))))))
  }

  lemma UnrolledIsBits8(c: bv32)
    ensures Unrolled(c) == Bits8(c)
  {
    IterEight(BitStep, c);
  }

  lemma HighShifts(c: bv32)
    ensures c & 0x03 == 0 ==> c & 1 == 0 && (c >> 1) & 1 == 0 && (c >> 1) >> 1 == c >> 2
    ensures c & 0x0f == 0 ==> c & 0x03 == 0 && (c >> 2) & 0x03 == 0 && (c >> 2) >> 2 == c >> 4
    ensures c & 0xff == 0 ==> c & 0x0f == 0 && (c >> 4) & 0x0f == 0 && (c >> 4) >> 4 == c >> 8
  {
  }

  lemma OneOfHigh(c: bv32)
    requires c & 0x01 == 0
    ensures BitStep(c) == c >> 1
  {
  }

  lemma TwoOfHigh(c: bv32)
    requires c & 0x03 == 0
    ensures BitStep(BitStep(c)) == c >> 2
  {
    HighShifts(c);
    OneOfHigh(c);
    OneOfHigh(c >> 1);
  }

  lemma FourOfHigh(c: bv32)
    requires c & 0x0f == 0
    ensures BitStep(BitStep(BitStep(BitStep(c)))) == c >> 4
  {
    HighShifts(c);
    TwoOfHigh(c);
    TwoOfHigh(c >> 2);
  }

  /** Bits above the low byte are only shifted by a byte time. */
  lemma Bits8OfHigh(c: bv32)
    requires c & 0xff == 0
    ensures Bits8(c) == c >> 8
  {
    HighShifts(c);
    FourOfHigh(c);
    FourOfHigh(c >> 4);
    UnrolledIsBits8(c);
  }

  // The 256 constants, sixteen to a row.
  function Row0(j: bv32): bv32 {
    match j
    case 0 => 0x00000000 case 1 => 0x77073096 case 2 => 0xee0e612c case 3 => 0x990951ba
    case 4 => 0x076dc419 case 5 => 0x706af48f case 6 => 0xe963a535 case 7 => 0x9e6495a3
    case 8 => 0x0edb8832 case 9 => 0x79dcb8a4 case 10 => 0xe0d5e91e case 11 => 0x97d2d988
    case 12 => 0x09b64c2b case 13 => 0x7eb17cbd case 14 => 0xe7b82d07 case _ => 0x90bf1d91
  }

  function Row1(j: bv32): bv32 {
    match j
    case 0 => 0x1db71064 case 1 => 0x6ab020f2 case 2 => 0xf3b97148 case 3 => 0x84be41de
    case 4 => 0x1adad47d case 5 => 0x6ddde4eb case 6 => 0xf4d4b551 case 7 => 0x83d385c7
    case 8 => 0x136c9856 case 9 => 0x646ba8c0 case 10 => 0xfd62f97a case 11 => 0x8a65c9ec
    case 12 => 0x14015c4f case 13 => 0x63066cd9 case 14 => 0xfa0f3d63 case _ => 0x8d080df5
  }

  function Row2(j: bv32): bv32 {
    match j
    case 0 => 0x3b6e20c8 case 1 => 0x4c69105e case 2 => 0xd56041e4 case 3 => 0xa2677172
    case 4 => 0x3c03e4d1 case 5 => 0x4b04d447 case 6 => 0xd20d85fd case 7 => 0xa50ab56b
    case 8 => 0x35b5a8fa case 9 => 0x42b2986c case 10 => 0xdbbbc9d6 case 11 => 0xacbcf940
    case 12 => 0x32d86ce3 case 13 => 0x45df5c75 case 14 => 0xdcd60dcf case _ => 0xabd13d59
  }

  function Row3(j: bv32): bv32 {
    match j
    case 0 => 0x26d930ac case 1 => 0x51de003a case 2 => 0xc8d75180 case 3 => 0xbfd06116
    case 4 => 0x21b4f4b5 case 5 => 0x56b3c423 case 6 => 0xcfba9599 case 7 => 0xb8bda50f
    case 8 => 0x2802b89e case 9 => 0x5f058808 case 10 => 0xc60cd9b2 case 11 => 0xb10be924
    case 12 => 0x2f6f7c87 case 13 => 0x58684c11 case 14 => 0xc1611dab case _ => 0xb6662d3d
  }

  function Row4(j: bv32): bv32 {
    match j
    case 0 => 0x76dc4190 case 1 => 0x01db7106 case 2 => 0x98d220bc case 3 => 0xefd5102a
    case 4 => 0x71b18589 case 5 => 0x06b6b51f case 6 => 0x9fbfe4a5 case 7 => 0xe8b8d433
    case 8 => 0x7807c9a2 case 9 => 0x0f00f934 case 10 => 0x9609a88e case 11 => 0xe10e9818
    case 12 => 0x7f6a0dbb case 13 => 0x086d3d2d case 14 => 0x91646c97 case _ => 0xe6635c01
  }

  function Row5(j: bv32): bv32 {
    match j
    case 0 => 0x6b6b51f4 case 1 => 0x1c6c6162 case 2 => 0x856530d8 case 3 => 0xf262004e
    case 4 => 0x6c0695ed case 5 => 0x1b01a57b case 6 => 0x8208f4c1 case 7 => 0xf50fc457
    case 8 => 0x65b0d9c6 case 9 => 0x12b7e950 case 10 => 0x8bbeb8ea case 11 => 0xfcb9887c
    case 12 => 0x62dd1ddf case 13 => 0x15da2d49 case 14 => 0x8cd37cf3 case _ => 0xfbd44c65
  }

  function Row6(j: bv32): bv32 {
    match j
    case 0 => 0x4db26158 case 1 => 0x3ab551ce case 2 => 0xa3bc0074 case 3 => 0xd4bb30e2
    case 4 => 0x4adfa541 case 5 => 0x3dd895d7 case 6 => 0xa4d1c46d case 7 => 0xd3d6f4fb
    case 8 => 0x4369e96a case 9 => 0x346ed9fc case 10 => 0xad678846 case 11 => 0xda60b8d0
    case 12 => 0x44042d73 case 13 => 0x33031de5 case 14 => 0xaa0a4c5f case _ => 0xdd0d7cc9
  }

  function Row7(j: bv32): bv32 {
    match j
    case 0 => 0x5005713c case 1 => 0x270241aa case 2 => 0xbe0b1010 case 3 => 0xc90c2086
    case 4 => 0x5768b525 case 5 => 0x206f85b3 case 6 => 0xb966d409 case 7 => 0xce61e49f
    case 8 => 0x5edef90e case 9 => 0x29d9c998 case 10 => 0xb0d09822 case 11 => 0xc7d7a8b4
    case 12 => 0x59b33d17 case 13 => 0x2eb40d81 case 14 => 0xb7bd5c3b case _ => 0xc0ba6cad
  }

  function Row8(j: bv32): bv32 {
    match j
    case 0 => 0xedb88320 case 1 => 0x9abfb3b6 case 2 => 0x03b6e20c case 3 => 0x74b1d29a
    case 4 => 0xead54739 case 5 => 0x9dd277af case 6 => 0x04db2615 case 7 => 0x73dc1683
    case 8 => 0xe3630b12 case 9 => 0x94643b84 case 10 => 0x0d6d6a3e case 11 => 0x7a6a5aa8
    case 12 => 0xe40ecf0b case 13 => 0x9309ff9d case 14 => 0x0a00ae27 case _ => 0x7d079eb1
  }

  function Row9(j: bv32): bv32 {
    match j
    case 0 => 0xf00f9344 case 1 => 0x8708a3d2 case 2 => 0x1e01f268 case 3 => 0x6906c2fe
    case 4 => 0xf762575d case 5 => 0x806567cb case 6 => 0x196c3671 case 7 => 0x6e6b06e7
    case 8 => 0xfed41b76 case 9 => 0x89d32be0 case 10 => 0x10da7a5a case 11 => 0x67dd4acc
    case 12 => 0xf9b9df6f case 13 => 0x8ebeeff9 case 14 => 0x17b7be43 case _ => 0x60b08ed5
  }

  function RowA(j: bv32): bv32 {
    match j
    case 0 => 0xd6d6a3e8 case 1 => 0xa1d1937e case 2 => 0x38d8c2c4 case 3 => 0x4fdff252
    case 4 => 0xd1bb67f1 case 5 => 0xa6bc5767 case 6 => 0x3fb506dd case 7 => 0x48b2364b
    case 8 => 0xd80d2bda case 9 => 0xaf0a1b4c case 10 => 0x36034af6 case 11 => 0x41047a60
    case 12 => 0xdf60efc3 case 13 => 0xa867df55 case 14 => 0x316e8eef case _ => 0x4669be79
  }

  function RowB(j: bv32): bv32 {
    match j
    case 0 => 0xcb61b38c case 1 => 0xbc66831a case 2 => 0x256fd2a0 case 3 => 0x5268e236
    case 4 => 0xcc0c7795 case 5 => 0xbb0b4703 case 6 => 0x220216b9 case 7 => 0x5505262f
    case 8 => 0xc5ba3bbe case 9 => 0xb2bd0b28 case 10 => 0x2bb45a92 case 11 => 0x5cb36a04
    case 12 => 0xc2d7ffa7 case 13 => 0xb5d0cf31 case 14 => 0x2cd99e8b case _ => 0x5bdeae1d
  }

  function RowC(j: bv32): bv32 {
    match j
    case 0 => 0x9b64c2b0 case 1 => 0xec63f226 case 2 => 0x756aa39c case 3 => 0x026d930a
    case 4 => 0x9c0906a9 case 5 => 0xeb0e363f case 6 => 0x72076785 case 7 => 0x05005713
    case 8 => 0x95bf4a82 case 9 => 0xe2b87a14 case 10 => 0x7bb12bae case 11 => 0x0cb61b38
    case 12 => 0x92d28e9b case 13 => 0xe5d5be0d case 14 => 0x7cdcefb7 case _ => 0x0bdbdf21
  }

  function RowD(j: bv32): bv32 {
    match j
    case 0 => 0x86d3d2d4 case 1 => 0xf1d4e242 case 2 => 0x68ddb3f8 case 3 => 0x1fda836e
    case 4 => 0x81be16cd case 5 => 0xf6b9265b case 6 => 0x6fb077e1 case 7 => 0x18b74777
    case 8 => 0x88085ae6 case 9 => 0xff0f6a70 case 10 => 0x66063bca case 11 => 0x11010b5c
    case 12 => 0x8f659eff case 13 => 0xf862ae69 case 14 => 0x616bffd3 case _ => 0x166ccf45
  }

  function RowE(j: bv32): bv32 {
    match j
    case 0 => 0xa00ae278 case 1 => 0xd70dd2ee case 2 => 0x4e048354 case 3 => 0x3903b3c2
    case 4 => 0xa7672661 case 5 => 0xd06016f7 case 6 => 0x4969474d case 7 => 0x3e6e77db
    case 8 => 0xaed16a4a case 9 => 0xd9d65adc case 10 => 0x40df0b66 case 11 => 0x37d83bf0
    case 12 => 0xa9bcae53 case 13 => 0xdebb9ec5 case 14 => 0x47b2cf7f case _ => 0x30b5ffe9
  }

  function RowF(j: bv32): bv32 {
    match j
    case 0 => 0xbdbdf21c case 1 => 0xcabac28a case 2 => 0x53b39330 case 3 => 0x24b4a3a6
    case 4 => 0xbad03605 case 5 => 0xcdd70693 case 6 => 0x54de5729 case 7 => 0x23d967bf
    case 8 => 0xb3667a2e case 9 => 0xc4614ab8 case 10 => 0x5d681b02 case 11 => 0x2a6f2b94
    case 12 => 0xb40bbe37 case 13 => 0xc30c8ea1 case 14 => 0x5a05df1b case _ => 0x2d02ef8d
  }

  function RowAt(h: bv32, j: bv32): bv32 {
    match h
    case 0x00 => Row0(j) case 0x10 => Row1(j) case 0x20 => Row2(j) case 0x30 => Row3(j)
    case 0x40 => Row4(j) case 0x50 => Row5(j) case 0x60 => Row6(j) case 0x70 => Row7(j)
    case 0x80 => Row8(j) case 0x90 => Row9(j) case 0xa0 => RowA(j) case 0xb0 => RowB(j)
    case 0xc0 => RowC(j) case 0xd0 => RowD(j) case 0xe0 => RowE(j) case _ => RowF(j)
  }

  function Entry(i: bv32): bv32 {
    RowAt(i & 0xf0, i & 0x0f)
  }

  const TABLE: seq<bv32> := seq(256, n requires 0 <= n < 256 => Entry(n as bv32))

  lemma FirstRow(j: bv32)
    requires j < 16
    ensures Row0(j) == Unrolled(j)
  {
  }

  lemma Rows01(j: bv32)
    requires j < 16
    ensures Row0(j) == Add(0x00000000, Row0(j)) && Unrolled(0x00) == 0x00000000
    ensures Row1(j) == Add(0x1db71064, Row0(j)) && Unrolled(0x10) == 0x1db71064
  {
  }

  lemma Rows23(j: bv32)
    requires j < 16
    ensures Row2(j) == Add(0x3b6e20c8, Row0(j)) && Unrolled(0x20) == 0x3b6e20c8
    ensures Row3(j) == Add(0x26d930ac, Row0(j)) && Unrolled(0x30) == 0x26d930ac
  {
  }

  lemma Rows45(j: bv32)
    requires j < 16
    ensures Row4(j) == Add(0x76dc4190, Row0(j)) && Unrolled(0x40) == 0x76dc4190
    ensures Row5(j) == Add(0x6b6b51f4, Row0(j)) && Unrolled(0x50) == 0x6b6b51f4
  {
  }

  lemma Rows67(j: bv32)
    requires j < 16
    ensures Row6(j) == Add(0x4db26158, Row0(j)) && Unrolled(0x60) == 0x4db26158
    ensures Row7(j) == Add(0x5005713c, Row0(j)) && Unrolled(0x70) == 0x5005713c
  {
  }

  lemma Rows89(j: bv32)
    requires j < 16
    ensures Row8(j) == Add(0xedb88320, Row0(j)) && Unrolled(0x80) == 0xedb88320
    ensures Row9(j) == Add(0xf00f9344, Row0(j)) && Unrolled(0x90) == 0xf00f9344
  {
  }

  lemma RowsAB(j: bv32)
    requires j < 16
    ensures RowA(j) == Add(0xd6d6a3e8, Row0(j)) && Unrolled(0xa0) == 0xd6d6a3e8
    ensures RowB(j) == Add(0xcb61b38c, Row0(j)) && Unrolled(0xb0) == 0xcb61b38c
  {
  }

  lemma RowsCD(j: bv32)
    requires j < 16
    ensures RowC(j) == Add(0x9b64c2b0, Row0(j)) && Unrolled(0xc0) == 0x9b64c2b0
    ensures RowD(j) == Add(0x86d3d2d4, Row0(j)) && Unrolled(0xd0) == 0x86d3d2d4
  {
  }

  lemma RowsEF(j: bv32)
    requires j < 16
    ensures RowE(j) == Add(0xa00ae278, Row0(j)) && Unrolled(0xe0) == 0xa00ae278
    ensures RowF(j) == Add(0xbdbdf21c, Row0(j)) && Unrolled(0xf0) == 0xbdbdf21c
  {
  }

  lemma RowAtIsSum(h: bv32, j: bv32)
    requires h & 0xf0 == h && j < 16
    ensures RowAt(h, j) == Add(Unrolled(h), Unrolled(j))
  {
    FirstRow(j);
    match h
    case 0x00 => Rows01(j); case 0x10 => Rows01(j); case 0x20 => Rows23(j); case 0x30 => Rows23(j);
    case 0x40 => Rows45(j); case 0x50 => Rows45(j); case 0x60 => Rows67(j); case 0x70 => Rows67(j);
    case 0x80 => Rows89(j); case 0x90 => Rows89(j); case 0xa0 => RowsAB(j); case 0xb0 => RowsAB(j);
    case 0xc0 => RowsCD(j); case 0xd0 => RowsCD(j); case 0xe0 => RowsEF(j); case _ => assert h == 0xf0; RowsEF(j);
  }

  lemma Nibbles(i: bv32)
    requires i < 256
    ensures (i & 0xf0) & 0xf0 == i & 0xf0 && i & 0x0f < 16 && i == Add(i & 0xf0, i & 0x0f)
  {
  }

  lemma EntryIsBits8(i: bv32)
    requires i < 256
    ensures Entry(i) == Bits8(i)
  {
    var h, j := i & 0xf0, i & 0x0f;
    Nibbles(i);
    RowAtIsSum(h, j);
    UnrolledIsBits8(h);
    UnrolledIsBits8(j);
    Bits8Linear(h, j);
  }

  ghost predicate IsTable(table: seq<bv32>) {
    |table| == 256 && forall n: nat :: n < 256 ==> table[n] == Bits8(n as bv32)
  }

  lemma Index(n: nat)
    requires n < 256
    ensures n as bv32 < 256
  {
  }

  lemma IndexBack(y: bv32)
    requires y < 256
    ensures (y as int) as bv32 == y && y as int < 256
  {
  }

  /** Every one of the 256 constants is the bitwise fold of its index. */
  lemma TableIsTable()
    ensures IsTable(TABLE)
  {
    forall n: nat | n < 256
      ensures TABLE[n] == Bits8(n as bv32)
    {
      Index(n);
      EntryIsBits8(n as bv32);
    }
  }

  lemma EntryOf(table: seq<bv32>, y: bv32)
    requires IsTable(table) && y < 256
    ensures y as int < 256 && table[y as int] == Bits8(y)
  {
    IndexBack(y);
  }

  /** One byte step by table. */
  function TableByteStep(table: seq<bv32>, c: bv32, b: byte): bv32
    requires |table| == 256
  {
    var x := Add(c, b as bv32);
    LowByteInTable(x);
    Add(table[(x & 0xff) as int], c >> 8)
  }

  lemma LowByteInTable(x: bv32)
    ensures x & 0xff < 256
  {
  }

  lemma SplitLow(c: bv32, x: bv32, b: byte)
    requires x == c ^ (b as bv32)
    ensures (x & 0xffffff00) & 0xff == 0 && (x & 0xffffff00) >> 8 == c >> 8
    ensures x == Add(x & 0xffffff00, x & 0xff) && x & 0xff < 256
  {
  }

  lemma AddCommutes(a: bv32, b: bv32)
    ensures Add(a, b) == Add(b, a)
  {
  }

  lemma StepByParts(x: bv32, hi: bv32, lo: bv32, t: bv32)
    requires x == Add(hi, lo) && hi & 0xff == 0 && t == Bits8(lo)
    ensures Bits8(x) == Add(t, hi >> 8)
  {
    Bits8OfHigh(hi);
    Bits8Linear(hi, lo);
    AddCommutes(hi >> 8, t);
  }

  lemma StepBySum(c: bv32, b: byte, x: bv32, hi: bv32, t: bv32)
    requires x == Add(c, b as bv32) && t == Bits8(x & 0xff) && hi == x & 0xffffff00
    ensures ByteStep(c, b) == Add(t, c >> 8)
  {
    SplitLow(c, x, b);
    StepByParts(x, hi, x & 0xff, t);
  }

  lemma TableStep(table: seq<bv32>, c: bv32, b: byte)
    requires IsTable(table)
    ensures TableByteStep(table, c, b) == ByteStep(c, b)
  {
    var x := Add(c, b as bv32);
    LowByteInTable(x);
    EntryOf(table, x & 0xff);
    StepBySum(c, b, x, x & 0xffffff00, table[(x & 0xff) as int]);
  }

  /** Folding by table is folding bit by bit, for every message. */
  lemma ByTable(c: bv32, s: seq<byte>)
    ensures |TABLE| == 256
    ensures Fold((x: bv32, b: byte) => TableByteStep(TABLE, x, b), c, s) == Fold(ByteStep, c, s)
  {
    var table := TABLE;
    TableIsTable();
    forall x, b
      ensures TableByteStep(table, x, b) == ByteStep(x, b)
    {
      TableStep(table, x, b);
    }
    FoldSame((x: bv32, b: byte) => TableByteStep(table, x, b), ByteStep, c, s);
  }

  const ONES: bv32 := 0xffff_ffff

  function Flip(c: bv32): bv32 {
    Add(c, ONES)
  }

  lemma FlipTwice(c: bv32)
    ensures Flip(Flip(c)) == c
  {
  }

  /** The checksum of s, continued from the checksum c of what came before. */
  function Checksum(c: bv32, s: seq<byte>): bv32 {
    Flipped(Flip, ByteStep, c, s)
  }

  /** The checksum of a whole is the checksum of its second part continued from the first. */
  lemma ChecksumConcat(c: bv32, s: seq<byte>, t: seq<byte>)
    ensures Checksum(Checksum(c, s), t) == Checksum(c, s + t)
  {
    forall x
      ensures Flip(Flip(x)) == x
    {
      FlipTwice(x);
    }
    FlippedConcat(Flip, ByteStep, c, s, t);
  }

  /** crc32. */
  method Calc(crc0: bv32, buf: array<byte>, from: nat, len: nat) returns (crc: bv32)
    requires from + len <= buf.Length
    ensures crc == Checksum(crc0, buf[from..from + len])
  {
    ByTable(Flip(crc0), buf[from..from + len]);
    crc := RunFlipped(Flip, (x: bv32, b: byte) => TableByteStep(TABLE, x, b), crc0, buf, from, len);
  }

  /** crc32_wd, which resets the watchdog between chunks. A chunk size of zero never ends. */
  method CalcInChunks(crc0: bv32, buf: array<byte>, from: nat, len: nat, chunkSize: nat) returns (crc: bv32)
    requires from + len <= buf.Length && chunkSize > 0
    ensures crc == Checksum(crc0, buf[from..from + len])
  {
    forall x
      ensures Flip(Flip(x)) == x
    {
      FlipTwice(x);
    }
    ByTable(Flip(crc0), buf[from..from + len]);
    crc := RunInChunks(Flip, (x: bv32, b: byte) => TableByteStep(TABLE, x, b), crc0, buf, from, len, chunkSize);
  }
}
