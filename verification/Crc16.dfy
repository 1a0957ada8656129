/** The frame check of crc16_ccitt.c: a 16-bit reflected register, start 0, no final xor. */
module Crc16 {
  import opened Register

  const POLY: bv16 := 0x8408

  /** One shift of the register: the bit that leaves decides whether the polynomial is added. */
  function BitStep(c: bv16): bv16 {
    if c & 1 == 1 then (c >> 1) ^ POLY else c >> 1
  }

  function Bits8(c: bv16): bv16 {
    Iter(BitStep, BYTE_TIME, c)
  }

  /** Add the byte to the low end of the register, then shift it out. */
  function ByteStep(c: bv16, b: byte): bv16 {
    Bits8(Add(c, b as bv16))
  }

  function Add(c: bv16, d: bv16): bv16 {
    c ^ d
  }

  lemma XorShift(c: bv16, d: bv16)
    ensures (c ^ d) >> 1 == (c >> 1) ^ (d >> 1)
    ensures (c ^ d) & 1 == (c & 1) ^ (d & 1)
    ensures (c & 1 == 0 || c & 1 == 1) && (d & 1 == 0 || d & 1 == 1)
  {
  }

  lemma XorCancel(a: bv16, b: bv16, p: bv16)
    ensures (a ^ p) ^ (b ^ p) == a ^ b
    ensures (a ^ p) ^ b == (a ^ b) ^ p
    ensures a ^ (b ^ p) == (a ^ b) ^ p
  {
  }

  lemma BitStepLinear(c: bv16, d: bv16, e: bv16)
    requires e == c ^ d
    ensures BitStep(e) == BitStep(c) ^ BitStep(d)
  {
    XorShift(c, d);
    XorCancel(c >> 1, d >> 1, POLY);
  }

  lemma Bits8Linear(c: bv16, d: bv16)
    ensures Bits8(Add(c, d)) == Add(Bits8(c), Bits8(d))
  {
    forall x, y
      ensures BitStep(Add(x, y)) == Add(BitStep(x), BitStep(y))
    {
      BitStepLinear(x, y, Add(x, y));
    }
    IterAdditive(BitStep, Add, BYTE_TIME, c, d);
  }

  // Eight nested shifts, which the verifier can evaluate on constants.
  function Unrolled(c: bv16): bv16 {
    BitStep(BitStep(BitStep(BitStep(BitStep(BitStep(BitStep(BitStep(c))))))))
  }

  lemma UnrolledIsBits8(c: bv16)
    ensures Unrolled(c) == Bits8(c)
  {
    IterEight(BitStep, c);
  }

  /** A byte time on constants. */
  lemma Evaluated(c: bv16, b: byte, d: bv16)
    requires d == Unrolled(c ^ (b as bv16))
    ensures ByteStep(c, b) == d
  {
    UnrolledIsBits8(c ^ (b as bv16));
  }

  lemma HighShifts(c: bv16)
    ensures c & 0x03 == 0 ==> c & 1 == 0 && (c >> 1) & 1 == 0 && (c >> 1) >> 1 == c >> 2
    ensures c & 0x0f == 0 ==> c & 0x03 == 0 && (c >> 2) & 0x03 == 0 && (c >> 2) >> 2 == c >> 4
    ensures c & 0xff == 0 ==> c & 0x0f == 0 && (c >> 4) & 0x0f == 0 && (c >> 4) >> 4 == c >> 8
  {
  }

  lemma OneOfHigh(c: bv16)
    requires c & 0x01 == 0
    ensures BitStep(c) == c >> 1
  {
  }

  lemma TwoOfHigh(c: bv16)
    requires c & 0x03 == 0
    ensures BitStep(BitStep(c)) == c >> 2
  {
    HighShifts(c);
    OneOfHigh(c);
    OneOfHigh(c >> 1);
  }

  lemma FourOfHigh(c: bv16)
    requires c & 0x0f == 0
    ensures BitStep(BitStep(BitStep(BitStep(c)))) == c >> 4
  {
    HighShifts(c);
    TwoOfHigh(c);
    TwoOfHigh(c >> 2);
  }

  /** Bits above the low byte are only shifted by a byte time. */
  lemma Bits8OfHigh(c: bv16)
    requires c & 0xff == 0
    ensures Bits8(c) == c >> 8
  {
    HighShifts(c);
    FourOfHigh(c);
    FourOfHigh(c >> 4);
    UnrolledIsBits8(c);
  }

  // The 256 constants, sixteen to a row.
  function Row0(j: bv16): bv16 {
    match j
    case 0 => 0x0000 case 1 => 0x1189 case 2 => 0x2312 case 3 => 0x329b case 4 => 0x4624 case 5 => 0x57ad case 6 => 0x6536 case 7 => 0x74bf
    case 8 => 0x8c48 case 9 => 0x9dc1 case 10 => 0xaf5a case 11 => 0xbed3 case 12 => 0xca6c case 13 => 0xdbe5 case 14 => 0xe97e case _ => 0xf8f7
  }

  function Row1(j: bv16): bv16 {
    match j
    case 0 => 0x1081 case 1 => 0x0108 case 2 => 0x3393 case 3 => 0x221a case 4 => 0x56a5 case 5 => 0x472c case 6 => 0x75b7 case 7 => 0x643e
    case 8 => 0x9cc9 case 9 => 0x8d40 case 10 => 0xbfdb case 11 => 0xae52 case 12 => 0xdaed case 13 => 0xcb64 case 14 => 0xf9ff case _ => 0xe876
  }

  function Row2(j: bv16): bv16 {
    match j
    case 0 => 0x2102 case 1 => 0x308b case 2 => 0x0210 case 3 => 0x1399 case 4 => 0x6726 case 5 => 0x76af case 6 => 0x4434 case 7 => 0x55bd
    case 8 => 0xad4a case 9 => 0xbcc3 case 10 => 0x8e58 case 11 => 0x9fd1 case 12 => 0xeb6e case 13 => 0xfae7 case 14 => 0xc87c case _ => 0xd9f5
  }

  function Row3(j: bv16): bv16 {
    match j
    case 0 => 0x3183 case 1 => 0x200a case 2 => 0x1291 case 3 => 0x0318 case 4 => 0x77a7 case 5 => 0x662e case 6 => 0x54b5 case 7 => 0x453c
    case 8 => 0xbdcb case 9 => 0xac42 case 10 => 0x9ed9 case 11 => 0x8f50 case 12 => 0xfbef case 13 => 0xea66 case 14 => 0xd8fd case _ => 0xc974
  }

  function Row4(j: bv16): bv16 {
    match j
    case 0 => 0x4204 case 1 => 0x538d case 2 => 0x6116 case 3 => 0x709f case 4 => 0x0420 case 5 => 0x15a9 case 6 => 0x2732 case 7 => 0x36bb
    case 8 => 0xce4c case 9 => 0xdfc5 case 10 => 0xed5e case 11 => 0xfcd7 case 12 => 0x8868 case 13 => 0x99e1 case 14 => 0xab7a case _ => 0xbaf3
  }

  function Row5(j: bv16): bv16 {
    match j
    case 0 => 0x5285 case 1 => 0x430c case 2 => 0x7197 case 3 => 0x601e case 4 => 0x14a1 case 5 => 0x0528 case 6 => 0x37b3 case 7 => 0x263a
    case 8 => 0xdecd case 9 => 0xcf44 case 10 => 0xfddf case 11 => 0xec56 case 12 => 0x98e9 case 13 => 0x8960 case 14 => 0xbbfb case _ => 0xaa72
  }

  function Row6(j: bv16): bv16 {
    match j
    case 0 => 0x6306 case 1 => 0x728f case 2 => 0x4014 case 3 => 0x519d case 4 => 0x2522 case 5 => 0x34ab case 6 => 0x0630 case 7 => 0x17b9
    case 8 => 0xef4e case 9 => 0xfec7 case 10 => 0xcc5c case 11 => 0xddd5 case 12 => 0xa96a case 13 => 0xb8e3 case 14 => 0x8a78 case _ => 0x9bf1
  }

  function Row7(j: bv16): bv16 {
    match j
    case 0 => 0x7387 case 1 => 0x620e case 2 => 0x5095 case 3 => 0x411c case 4 => 0x35a3 case 5 => 0x242a case 6 => 0x16b1 case 7 => 0x0738
    case 8 => 0xffcf case 9 => 0xee46 case 10 => 0xdcdd case 11 => 0xcd54 case 12 => 0xb9eb case 13 => 0xa862 case 14 => 0x9af9 case _ => 0x8b70
  }

  function Row8(j: bv16): bv16 {
    match j
    case 0 => 0x8408 case 1 => 0x9581 case 2 => 0xa71a case 3 => 0xb693 case 4 => 0xc22c case 5 => 0xd3a5 case 6 => 0xe13e case 7 => 0xf0b7
    case 8 => 0x0840 case 9 => 0x19c9 case 10 => 0x2b52 case 11 => 0x3adb case 12 => 0x4e64 case 13 => 0x5fed case 14 => 0x6d76 case _ => 0x7cff
  }

  function Row9(j: bv16): bv16 {
    match j
    case 0 => 0x9489 case 1 => 0x8500 case 2 => 0xb79b case 3 => 0xa612 case 4 => 0xd2ad case 5 => 0xc324 case 6 => 0xf1bf case 7 => 0xe036
    case 8 => 0x18c1 case 9 => 0x0948 case 10 => 0x3bd3 case 11 => 0x2a5a case 12 => 0x5ee5 case 13 => 0x4f6c case 14 => 0x7df7 case _ => 0x6c7e
  }

  function RowA(j: bv16): bv16 {
    match j
    case 0 => 0xa50a case 1 => 0xb483 case 2 => 0x8618 case 3 => 0x9791 case 4 => 0xe32e case 5 => 0xf2a7 case 6 => 0xc03c case 7 => 0xd1b5
    case 8 => 0x2942 case 9 => 0x38cb case 10 => 0x0a50 case 11 => 0x1bd9 case 12 => 0x6f66 case 13 => 0x7eef case 14 => 0x4c74 case _ => 0x5dfd
  }

  function RowB(j: bv16): bv16 {
    match j
    case 0 => 0xb58b case 1 => 0xa402 case 2 => 0x9699 case 3 => 0x8710 case 4 => 0xf3af case 5 => 0xe226 case 6 => 0xd0bd case 7 => 0xc134
    case 8 => 0x39c3 case 9 => 0x284a case 10 => 0x1ad1 case 11 => 0x0b58 case 12 => 0x7fe7 case 13 => 0x6e6e case 14 => 0x5cf5 case _ => 0x4d7c
  }

  function RowC(j: bv16): bv16 {
    match j
    case 0 => 0xc60c case 1 => 0xd785 case 2 => 0xe51e case 3 => 0xf497 case 4 => 0x8028 case 5 => 0x91a1 case 6 => 0xa33a case 7 => 0xb2b3
    case 8 => 0x4a44 case 9 => 0x5bcd case 10 => 0x6956 case 11 => 0x78df case 12 => 0x0c60 case 13 => 0x1de9 case 14 => 0x2f72 case _ => 0x3efb
  }

  function RowD(j: bv16): bv16 {
    match j
    case 0 => 0xd68d case 1 => 0xc704 case 2 => 0xf59f case 3 => 0xe416 case 4 => 0x90a9 case 5 => 0x8120 case 6 => 0xb3bb case 7 => 0xa232
    case 8 => 0x5ac5 case 9 => 0x4b4c case 10 => 0x79d7 case 11 => 0x685e case 12 => 0x1ce1 case 13 => 0x0d68 case 14 => 0x3ff3 case _ => 0x2e7a
  }

  function RowE(j: bv16): bv16 {
    match j
    case 0 => 0xe70e case 1 => 0xf687 case 2 => 0xc41c case 3 => 0xd595 case 4 => 0xa12a case 5 => 0xb0a3 case 6 => 0x8238 case 7 => 0x93b1
    case 8 => 0x6b46 case 9 => 0x7acf case 10 => 0x4854 case 11 => 0x59dd case 12 => 0x2d62 case 13 => 0x3ceb case 14 => 0x0e70 case _ => 0x1ff9
  }

  function RowF(j: bv16): bv16 {
    match j
    case 0 => 0xf78f case 1 => 0xe606 case 2 => 0xd49d case 3 => 0xc514 case 4 => 0xb1ab case 5 => 0xa022 case 6 => 0x92b9 case 7 => 0x8330
    case 8 => 0x7bc7 case 9 => 0x6a4e case 10 => 0x58d5 case 11 => 0x495c case 12 => 0x3de3 case 13 => 0x2c6a case 14 => 0x1ef1 case _ => 0x0f78
  }

  function RowAt(h: bv16, j: bv16): bv16 {
    match h
    case 0x00 => Row0(j) case 0x10 => Row1(j) case 0x20 => Row2(j) case 0x30 => Row3(j)
    case 0x40 => Row4(j) case 0x50 => Row5(j) case 0x60 => Row6(j) case 0x70 => Row7(j)
    case 0x80 => Row8(j) case 0x90 => Row9(j) case 0xa0 => RowA(j) case 0xb0 => RowB(j)
    case 0xc0 => RowC(j) case 0xd0 => RowD(j) case 0xe0 => RowE(j) case _ => RowF(j)
  }

  function Entry(i: bv16): bv16 {
    RowAt(i & 0xf0, i & 0x0f)
  }

  const TABLE: seq<bv16> := seq(256, n requires 0 <= n < 256 => Entry(n as bv16))

  lemma FirstRow(j: bv16)
    requires j < 16
    ensures Row0(j) == Unrolled(j)
  {
  }

  lemma Rows01(j: bv16)
    requires j < 16
    ensures Row0(j) == Add(0x0000, Row0(j)) && Unrolled(0x00) == 0x0000
    ensures Row1(j) == Add(0x1081, Row0(j)) && Unrolled(0x10) == 0x1081
  {
  }

  lemma Rows23(j: bv16)
    requires j < 16
    ensures Row2(j) == Add(0x2102, Row0(j)) && Unrolled(0x20) == 0x2102
    ensures Row3(j) == Add(0x3183, Row0(j)) && Unrolled(0x30) == 0x3183
  {
  }

  lemma Rows45(j: bv16)
    requires j < 16
    ensures Row4(j) == Add(0x4204, Row0(j)) && Unrolled(0x40) == 0x4204
    ensures Row5(j) == Add(0x5285, Row0(j)) && Unrolled(0x50) == 0x5285
  {
  }

  lemma Rows67(j: bv16)
    requires j < 16
    ensures Row6(j) == Add(0x6306, Row0(j)) && Unrolled(0x60) == 0x6306
    ensures Row7(j) == Add(0x7387, Row0(j)) && Unrolled(0x70) == 0x7387
  {
  }

  lemma Rows89(j: bv16)
    requires j < 16
    ensures Row8(j) == Add(0x8408, Row0(j)) && Unrolled(0x80) == 0x8408
    ensures Row9(j) == Add(0x9489, Row0(j)) && Unrolled(0x90) == 0x9489
  {
  }

  lemma RowsAB(j: bv16)
    requires j < 16
    ensures RowA(j) == Add(0xa50a, Row0(j)) && Unrolled(0xa0) == 0xa50a
    ensures RowB(j) == Add(0xb58b, Row0(j)) && Unrolled(0xb0) == 0xb58b
  {
  }

  lemma RowsCD(j: bv16)
    requires j < 16
    ensures RowC(j) == Add(0xc60c, Row0(j)) && Unrolled(0xc0) == 0xc60c
    ensures RowD(j) == Add(0xd68d, Row0(j)) && Unrolled(0xd0) == 0xd68d
  {
  }

  lemma RowsEF(j: bv16)
    requires j < 16
    ensures RowE(j) == Add(0xe70e, Row0(j)) && Unrolled(0xe0) == 0xe70e
    ensures RowF(j) == Add(0xf78f, Row0(j)) && Unrolled(0xf0) == 0xf78f
  {
  }

  lemma RowAtIsSum(h: bv16, j: bv16)
    requires h & 0xf0 == h && j < 16
    ensures RowAt(h, j) == Add(Unrolled(h), Unrolled(j))
  {
    FirstRow(j);
    match h
    case 0x00 => Rows01(j); case 0x10 => Rows01(j); case 0x20 => Rows23(j); case 0x30 => Rows23(j);
    case 0x40 => Rows45(j); case 0x50 => Rows45(j); case 0x60 => Rows67(j); case 0x70 => Rows67(j);
    case 0x80 => Rows89(j); case 0x90 => Rows89(j); case 0xa0 => RowsAB(j); case 0xb0 => RowsAB(j);
    case 0xc0 => RowsCD(j); case 0xd0 => RowsCD(j); case 0xe0 => RowsEF(j); case _ => assert h == 0xf0; RowsEF(j);
  }

  lemma Nibbles(i: bv16)
    requires i < 256
    ensures (i & 0xf0) & 0xf0 == i & 0xf0 && i & 0x0f < 16 && i == Add(i & 0xf0, i & 0x0f)
  {
  }

  lemma EntryIsBits8(i: bv16)
    requires i < 256
    ensures Entry(i) == Bits8(i)
  {
    var h, j := i & 0xf0, i & 0x0f;
    Nibbles(i);
    RowAtIsSum(h, j);
    UnrolledIsBits8(h);
    UnrolledIsBits8(j);
    Bits8Linear(h, j);
  }

  ghost predicate IsTable(table: seq<bv16>) {
    |table| == 256 && forall n: nat :: n < 256 ==> table[n] == Bits8(n as bv16)
  }

  lemma Index(n: nat)
    requires n < 256
    ensures n as bv16 < 256
  {
  }

  lemma IndexBack(y: bv16)
    requires y < 256
    ensures (y as int) as bv16 == y && y as int < 256
  {
  }

  /** Every one of the 256 constants is the bitwise fold of its index. */
  lemma TableIsTable()
    ensures IsTable(TABLE)
  {
    forall n: nat | n < 256
      ensures TABLE[n] == Bits8(n as bv16)
    {
      Index(n);
      EntryIsBits8(n as bv16);
    }
  }

  lemma EntryOf(table: seq<bv16>, y: bv16)
    requires IsTable(table) && y < 256
    ensures y as int < 256 && table[y as int] == Bits8(y)
  {
    IndexBack(y);
  }

  /** One byte step by table. */
  function TableByteStep(table: seq<bv16>, c: bv16, b: byte): bv16
    requires |table| == 256
  {
    var x := Add(c, b as bv16);
    LowByteInTable(x);
    Add(c >> 8, table[(x & 0xff) as int])
  }

  lemma LowByteInTable(x: bv16)
    ensures x & 0xff < 256
  {
  }

  lemma SplitLow(c: bv16, x: bv16, b: byte)
    requires x == c ^ (b as bv16)
    ensures (x & 0xff00) & 0xff == 0 && (x & 0xff00) >> 8 == c >> 8
    ensures x == Add(x & 0xff00, x & 0xff) && x & 0xff < 256
  {
  }

  lemma AddCommutes(a: bv16, b: bv16)
    ensures Add(a, b) == Add(b, a)
  {
  }

  lemma StepByParts(x: bv16, hi: bv16, lo: bv16, t: bv16)
    requires x == Add(hi, lo) && hi & 0xff == 0 && t == Bits8(lo)
    ensures Bits8(x) == Add(hi >> 8, t)
  {
    Bits8OfHigh(hi);
    Bits8Linear(hi, lo);
    AddCommutes(hi >> 8, t);
  }

  lemma StepBySum(c: bv16, b: byte, x: bv16, hi: bv16, t: bv16)
    requires x == Add(c, b as bv16) && t == Bits8(x & 0xff) && hi == x & 0xff00
    ensures ByteStep(c, b) == Add(c >> 8, t)
  {
    SplitLow(c, x, b);
    StepByParts(x, hi, x & 0xff, t);
  }

  lemma TableStep(table: seq<bv16>, c: bv16, b: byte)
    requires IsTable(table)
    ensures TableByteStep(table, c, b) == ByteStep(c, b)
  {
    var x := Add(c, b as bv16);
    LowByteInTable(x);
    EntryOf(table, x & 0xff);
    StepBySum(c, b, x, x & 0xff00, table[(x & 0xff) as int]);
  }

  /** Folding by table is folding bit by bit, for every message. */
  lemma ByTable(c: bv16, s: seq<byte>)
    ensures |TABLE| == 256
    ensures Fold((x: bv16, b: byte) => TableByteStep(TABLE, x, b), c, s) == Fold(ByteStep, c, s)
  {
    var table := TABLE;
    TableIsTable();
    forall x, b
      ensures TableByteStep(table, x, b) == ByteStep(x, b)
    {
      TableStep(table, x, b);
    }
    FoldSame((x: bv16, b: byte) => TableByteStep(table, x, b), ByteStep, c, s);
  }

  lemma BitStepInjective(c: bv16, d: bv16)
    requires BitStep(c) == BitStep(d)
    ensures c == d
  {
  }

  lemma Bits8Injective(c: bv16, d: bv16)
    requires Bits8(c) == Bits8(d)
    ensures c == d
  {
    forall x, y | BitStep(x) == BitStep(y)
      ensures x == y
    {
      BitStepInjective(x, y);
    }
    IterInjective(BitStep, BYTE_TIME, c, d);
  }

  lemma AddCancel(c: bv16, d: bv16, b: bv16)
    requires Add(c, b) == Add(d, b)
    ensures c == d
  {
  }

  lemma ByteStepInjective()
    ensures StepInjective(ByteStep)
  {
    forall c, d, b | ByteStep(c, b) == ByteStep(d, b)
      ensures c == d
    {
      Bits8Injective(Add(c, b as bv16), Add(d, b as bv16));
      AddCancel(c, d, b as bv16);
    }
  }

  /** The two check bytes as they are sent: low byte first. */
  function Word(lo: byte, hi: byte): bv16 {
    (lo as bv16) | ((hi as bv16) << 8)
  }

  lemma WordParts(c: bv16, lo: byte, hi: byte, h: bv16)
    requires h == (hi as bv16) << 8
    ensures h & 0xff == 0 && h >> 8 == hi as bv16
    ensures Add(Add(c, lo as bv16), h) == Add(c, Word(lo, hi))
  {
  }

  /** Two bytes are added to the register as one 16-bit word. */
  lemma TwoBytes(c: bv16, lo: byte, hi: byte)
    ensures ByteStep(ByteStep(c, lo), hi) == Bits8(Bits8(Add(c, Word(lo, hi))))
  {
    var h := (hi as bv16) << 8;
    WordParts(c, lo, hi, h);
    Bits8OfHigh(h);
    Bits8Linear(Add(c, lo as bv16), h);
  }

  lemma WordInjective(c: bv16, lo: byte, hi: byte, lo': byte, hi': byte)
    requires Add(c, Word(lo, hi)) == Add(c, Word(lo', hi'))
    ensures lo == lo' && hi == hi'
  {
  }

  function Crc(s: seq<byte>): bv16 {
    Fold(ByteStep, 0, s)
  }

  lemma XorZero(c: bv16, d: bv16)
    ensures c ^ d == 0 <==> c == d
  {
  }

  lemma AddZero(c: bv16, d: bv16)
    ensures Add(c, d) == 0 <==> c == d
  {
    XorZero(c, d);
  }

  lemma FoldTwo(c: bv16, a: byte, b: byte)
    ensures Fold(ByteStep, c, [a, b]) == ByteStep(ByteStep(c, a), b)
  {
    var s := [a, b];
    assert s[..1] == [a];
    assert [a][..0] == [];
    assert Fold(ByteStep, c, []) == c;
    assert Fold(ByteStep, c, [a]) == ByteStep(c, a);
  }

  lemma TwoBytesVanish(c: bv16, w: bv16)
    ensures Bits8(Bits8(Add(c, w))) == 0 <==> c == w
  {
    AddZero(c, w);
    Bits8OfHigh(0);
    if Bits8(Bits8(Add(c, w))) == 0 {
      Bits8Injective(Bits8(Add(c, w)), 0);
      Bits8Injective(Add(c, w), 0);
    }
  }

  /** A message followed by its own check value, low byte first, leaves the register empty; and
      nothing else after it does. */
  lemma Residue(s: seq<byte>, lo: byte, hi: byte)
    ensures Crc(s + [lo, hi]) == 0 <==> Crc(s) == Word(lo, hi)
  {
    FoldConcat(ByteStep, 0, s, [lo, hi]);
    FoldTwo(Crc(s), lo, hi);
    TwoBytes(Crc(s), lo, hi);
    TwoBytesVanish(Crc(s), Word(lo, hi));
  }

  /** What crc16_check decides about a whole frame: flag, body, two check bytes, flag. */
  predicate Accepts(frame: seq<byte>)
    requires |frame| >= 4
  {
    var n := |frame|;
    Crc(frame[1..n - 3]) == Word(frame[n - 3], frame[n - 2])
  }

  lemma AcceptsByResidue(frame: seq<byte>)
    requires |frame| >= 4
    ensures Accepts(frame) <==> Crc(frame[1..|frame| - 1]) == 0
  {
    var n := |frame|;
    Residue(frame[1..n - 3], frame[n - 3], frame[n - 2]);
    assert frame[1..n - 1] == frame[1..n - 3] + [frame[n - 3], frame[n - 2]];
  }

  lemma WindowSplit(f: seq<byte>, p: nat)
    requires 1 <= p && p + 1 < |f| - 1
    ensures f[1..|f| - 1] == f[1..p] + [f[p], f[p + 1]] + f[p + 2..|f| - 1]
  {
  }

  /** Error detection. However a frame the check accepts is damaged within two neighbouring
      bytes of its body or check field, the check refuses the result. */
  lemma TwoByteErrorDetected(f: seq<byte>, g: seq<byte>, p: nat)
    requires 4 <= |f| == |g| && 1 <= p && p + 1 < |f| - 1
    requires forall i :: 0 <= i < |f| && i != p && i != p + 1 ==> g[i] == f[i]
    requires f[p] != g[p] || f[p + 1] != g[p + 1]
    requires Accepts(f)
    ensures !Accepts(g)
  {
    AcceptsByResidue(f);
    AcceptsByResidue(g);
    if Accepts(g) {
      WindowSplit(f, p);
      WindowSplit(g, p);
      var pre, post := f[1..p], f[p + 2..|f| - 1];
      assert g[1..p] == pre && g[p + 2..|g| - 1] == post;
      ByteStepInjective();
      FoldWindow(ByteStep, 0, pre, [f[p], f[p + 1]], [g[p], g[p + 1]], post);
      var c := Fold(ByteStep, 0, pre);
      FoldTwo(c, f[p], f[p + 1]);
      FoldTwo(c, g[p], g[p + 1]);
      TwoBytes(c, f[p], f[p + 1]);
      TwoBytes(c, g[p], g[p + 1]);
      var x, y := Add(c, Word(f[p], f[p + 1])), Add(c, Word(g[p], g[p + 1]));
      Bits8Injective(Bits8(x), Bits8(y));
      Bits8Injective(x, y);
      WordInjective(c, f[p], f[p + 1], g[p], g[p + 1]);
    }
  }

  /** crc16_calc: the table-driven loop computes the bit-by-bit register. */
  method Calc(data: array<byte>, from: nat, len: nat) returns (crc: bv16)
    requires from + len <= data.Length
    ensures crc == Crc(data[from..from + len])
  {
    ByTable(0, data[from..from + len]);
    crc := RunByBytes((x: bv16, b: byte) => TableByteStep(TABLE, x, b), 0, data, from, len);
  }

  /** crc16_check. The source indexes datalen - 3 and calls the loop with datalen - 4, so it
      relies on its callers never passing a length of 1 to 3. */
  method Check(data: array?<byte>, datalen: nat) returns (ok: bool)
    requires data != null ==> datalen <= data.Length
    requires datalen == 0 || datalen >= 4
    ensures ok <==> data != null && 4 <= datalen <= 2048 && Accepts(data[..datalen])
  {
    if data == null || datalen == 0 || datalen > 2048 {
      return false;
    }
    var received := Word(data[datalen - 3], data[datalen - 2]);
    var calculated := Calc(data, 1, datalen - 4);
    assert data[..datalen][1..datalen - 3] == data[1..datalen - 3];
    ok := calculated == received;
  }
}
