/** The three checksums of the text "123456789", by which their kind is usually told. */
module CheckValues {
  import opened Register
  import Crc8
  import Crc16
  import Crc32

  const TEXT: seq<byte> := [0x31, 0x32, 0x33, 0x34, 0x35, 0x36, 0x37, 0x38, 0x39]

  lemma Crc8Step(c: byte, b: byte, d: byte)
    requires d == Eight8(c ^ b)
    ensures Crc8.ByteStep(c, b) == d
  {
    IterEight(Crc8.BitStep, c ^ b);
  }

  // Eight nested shifts, which the verifier can evaluate on constants.
  function Eight8(c: byte): byte {
    Crc8.BitStep(Crc8.BitStep(Crc8.BitStep(Crc8.BitStep(Crc8.BitStep(Crc8.BitStep(Crc8.BitStep(Crc8.BitStep(c))))))))
  }

  lemma Crc32Step(c: bv32, b: byte, d: bv32)
    requires d == Crc32.Unrolled(c ^ (b as bv32))
    ensures Crc32.ByteStep(c, b) == d
  {
    Crc32.UnrolledIsBits8(c ^ (b as bv32));
  }

  lemma OfCrc8()
    ensures Crc8.Crc([0x31, 0x32, 0x33, 0x34, 0x35, 0x36, 0x37, 0x38, 0x39]) == 0xa2
  {
    Crc8Step(0x00, 0x31, 0xf4);
    Crc8Step(0xf4, 0x32, 0xe1);
    Crc8Step(0xe1, 0x33, 0x66);
    Crc8Step(0x66, 0x34, 0x1c);
    Crc8Step(0x1c, 0x35, 0x0e);
    Crc8Step(0x0e, 0x36, 0x7c);
    Crc8Step(0x7c, 0x37, 0xd7);
    Crc8Step(0xd7, 0x38, 0xef);
    Crc8Step(0xef, 0x39, 0xa2);
    FoldNine(Crc8.ByteStep, 0, TEXT);
  }

  lemma OfCrc16()
    ensures Crc16.Crc([0x31, 0x32, 0x33, 0x34, 0x35, 0x36, 0x37, 0x38, 0x39]) == 0x2189
  {
    Crc16.Evaluated(0x0000, 0x31, 0x200a);
    Crc16.Evaluated(0x200a, 0x32, 0xbdeb);
    Crc16.Evaluated(0xbdeb, 0x33, 0x5a78);
    Crc16.Evaluated(0x5a78, 0x34, 0x8832);
    Crc16.Evaluated(0x8832, 0x35, 0x7437);
    Crc16.Evaluated(0x7437, 0x36, 0x11fd);
    Crc16.Evaluated(0x11fd, 0x37, 0x6947);
    Crc16.Evaluated(0x6947, 0x38, 0x8b19);
    Crc16.Evaluated(0x8b19, 0x39, 0x2189);
    FoldNine(Crc16.ByteStep, 0, TEXT);
  }

  lemma OfCrc32()
    ensures Crc32.Checksum(0, [0x31, 0x32, 0x33, 0x34, 0x35, 0x36, 0x37, 0x38, 0x39]) == 0xcbf43926
  {
    Crc32Step(0xffffffff, 0x31, 0x7c231048);
    Crc32Step(0x7c231048, 0x32, 0xb0acbb32);
    Crc32Step(0xb0acbb32, 0x33, 0x77b79c2d);
    Crc32Step(0x77b79c2d, 0x34, 0x641c1f5c);
    Crc32Step(0x641c1f5c, 0x35, 0x340ac5e3);
    Crc32Step(0x340ac5e3, 0x36, 0xf68d2c9e);
    Crc32Step(0xf68d2c9e, 0x37, 0xaffc9660);
    Crc32Step(0xaffc9660, 0x38, 0x651f2550);
    Crc32Step(0x651f2550, 0x39, 0x340bc6d9);
    FoldNine(Crc32.ByteStep, 0xffffffff, TEXT);
    assert Crc32.Flip(0) == 0xffffffff && Crc32.Flip(0x340bc6d9) == 0xcbf43926;
  }
}
