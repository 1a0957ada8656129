/** An order frame that lib_orders/Jianei_Order_new_5_ports.c misreads: one pair, and a check value
    that looks like a closing flag with a zero behind it. */
module MisreadOrder {
  import opened Register
  import opened OrderFrame
  import Crc16

  const PART0: seq<byte> := [0x00, 0x10, 0x00, 0x00, 0x00, 0x00, 0x00, 0x00]
  const PART1: seq<byte> := [0x00, 0x00, 0x00, 0x00, 0x00, 0x00, 0x00, 0x00]
  const PART2: seq<byte> := [0x80, 0x11, 0x00, 0x07, 0x30, 0x30, 0x30, 0x30]
  const PART3: seq<byte> := [0x30, 0x30, 0x30, 0x30, 0x30, 0x30, 0x30, 0x31]
  const PART4: seq<byte> := [0x39, 0x37, 0x30, 0x35, 0x34, 0x41, 0x41, 0x41]
  const PART5: seq<byte> := [0x41, 0x41, 0x41, 0x41, 0x41, 0x41, 0x41, 0x41]
  const PART6: seq<byte> := [0x41, 0x41, 0x41, 0x41, 0x41, 0x41, 0x41, 0x41]
  const PART7: seq<byte> := [0x41, 0x41, 0x41, 0x41, 0x41, 0x41, 0x41, 0x41]
  const PART8: seq<byte> := [0x41, 0x41, 0x41, 0x01, 0x01, 0x01, 0x02, 0x01]
  const LAST: byte := 0x01

  /** Version and command, the order number "00000000000197054", a rack number of thirty letters A,
      and the ports (1, 1, 1) and (2, 1, 1). */
  const BODY: seq<byte> := PART0 + PART1 + PART2 + PART3 + PART4 + PART5 + PART6 + PART7 + PART8 + [LAST]

  const FRAME: seq<byte> := [FLAG] + BODY + [0x7e, 0x00, FLAG]

  lemma Part0()
    ensures Fold(Crc16.ByteStep, 0x0000, PART0) == 0xb5c9
  {
    Crc16.Evaluated(0x0000, 0x00, 0x0000);
    Crc16.Evaluated(0x0000, 0x10, 0x1081);
    Crc16.Evaluated(0x1081, 0x00, 0x9591);
    Crc16.Evaluated(0x9591, 0x00, 0x8595);
    Crc16.Evaluated(0x8595, 0x00, 0xc3a1);
    Crc16.Evaluated(0xc3a1, 0x00, 0xb440);
    Crc16.Evaluated(0xb440, 0x00, 0x42b0);
    Crc16.Evaluated(0x42b0, 0x00, 0xb5c9);
    FoldEight(Crc16.ByteStep, 0x0000, PART0);
  }

  lemma Part1()
    ensures Fold(Crc16.ByteStep, 0xb5c9, PART1) == 0xa2e4
  {
    Crc16.Evaluated(0xb5c9, 0x00, 0x5b78);
    Crc16.Evaluated(0x5b78, 0x00, 0xff94);
    Crc16.Evaluated(0xff94, 0x00, 0xd252);
    Crc16.Evaluated(0xd252, 0x00, 0x7145);
    Crc16.Evaluated(0x7145, 0x00, 0x15d8);
    Crc16.Evaluated(0x15d8, 0x00, 0x5ad0);
    Crc16.Evaluated(0x5ad0, 0x00, 0xd6d7);
    Crc16.Evaluated(0xd6d7, 0x00, 0xa2e4);
    FoldEight(Crc16.ByteStep, 0xb5c9, PART1);
  }

  lemma Part2()
    ensures Fold(Crc16.ByteStep, 0xa2e4, PART2) == 0x4047
  {
    Crc16.Evaluated(0xa2e4, 0x80, 0x2580);
    Crc16.Evaluated(0x2580, 0x11, 0x8525);
    Crc16.Evaluated(0x8525, 0x00, 0x762a);
    Crc16.Evaluated(0x762a, 0x07, 0xfa91);
    Crc16.Evaluated(0xfa91, 0x30, 0xb479);
    Crc16.Evaluated(0xb479, 0x30, 0xdf71);
    Crc16.Evaluated(0xdf71, 0x30, 0x5352);
    Crc16.Evaluated(0x5352, 0x30, 0x4047);
    FoldEight(Crc16.ByteStep, 0xa2e4, PART2);
  }

  lemma Part3()
    ensures Fold(Crc16.ByteStep, 0x4047, PART3) == 0x4ace
  {
    Crc16.Evaluated(0x4047, 0x30, 0x0778);
    Crc16.Evaluated(0x0778, 0x30, 0xce4b);
    Crc16.Evaluated(0xce4b, 0x30, 0xcd9a);
    Crc16.Evaluated(0xcd9a, 0x30, 0x0a9d);
    Crc16.Evaluated(0x0a9d, 0x30, 0x7ee5);
    Crc16.Evaluated(0x7ee5, 0x30, 0x815e);
    Crc16.Evaluated(0x815e, 0x30, 0x8af9);
    Crc16.Evaluated(0x8af9, 0x31, 0x4ace);
    FoldEight(Crc16.ByteStep, 0x4047, PART3);
  }

  lemma Part4()
    ensures Fold(Crc16.ByteStep, 0x4ace, PART4) == 0xbb44
  {
    Crc16.Evaluated(0x4ace, 0x39, 0x837a);
    Crc16.Evaluated(0x837a, 0x37, 0x9962);
    Crc16.Evaluated(0x9962, 0x30, 0x710e);
    Crc16.Evaluated(0x710e, 0x35, 0x8f21);
    Crc16.Evaluated(0x8f21, 0x34, 0x47a3);
    Crc16.Evaluated(0x47a3, 0x41, 0xc45b);
    Crc16.Evaluated(0xc45b, 0x41, 0xbf1f);
    Crc16.Evaluated(0xbf1f, 0x41, 0xbb44);
    FoldEight(Crc16.ByteStep, 0x4ace, PART4);
  }

  lemma Part5()
    ensures Fold(Crc16.ByteStep, 0xbb44, PART5) == 0x7f6e
  {
    Crc16.Evaluated(0xbb44, 0x41, 0x5716);
    Crc16.Evaluated(0x5716, 0x41, 0x266d);
    Crc16.Evaluated(0x266d, 0x41, 0xeb48);
    Crc16.Evaluated(0xeb48, 0x41, 0x9d2a);
    Crc16.Evaluated(0x9d2a, 0x41, 0xdd48);
    Crc16.Evaluated(0xdd48, 0x41, 0x9d1c);
    Crc16.Evaluated(0x9d1c, 0x41, 0x89fd);
    Crc16.Evaluated(0x89fd, 0x41, 0x7f6e);
    FoldEight(Crc16.ByteStep, 0xbb44, PART5);
  }

  lemma Part6()
    ensures Fold(Crc16.ByteStep, 0x7f6e, PART6) == 0xc120
  {
    Crc16.Evaluated(0x7f6e, 0x41, 0xd98a);
    Crc16.Evaluated(0xd98a, 0x41, 0x7806);
    Crc16.Evaluated(0x7806, 0x41, 0x36c3);
    Crc16.Evaluated(0x36c3, 0x41, 0xa72c);
    Crc16.Evaluated(0xa72c, 0x41, 0xb844);
    Crc16.Evaluated(0xb844, 0x41, 0x5715);
    Crc16.Evaluated(0x5715, 0x41, 0x14f6);
    Crc16.Evaluated(0x14f6, 0x41, 0xc120);
    FoldEight(Crc16.ByteStep, 0x7f6e, PART6);
  }

  lemma Part7()
    ensures Fold(Crc16.ByteStep, 0xc120, PART7) == 0x42aa
  {
    Crc16.Evaluated(0xc120, 0x41, 0x724e);
    Crc16.Evaluated(0x724e, 0x41, 0xf885);
    Crc16.Evaluated(0xf885, 0x41, 0x80d0);
    Crc16.Evaluated(0x80d0, 0x41, 0x8580);
    Crc16.Evaluated(0x8580, 0x41, 0xd700);
    Crc16.Evaluated(0xd700, 0x41, 0x535a);
    Crc16.Evaluated(0x535a, 0x41, 0xae01);
    Crc16.Evaluated(0xae01, 0x41, 0x42aa);
    FoldEight(Crc16.ByteStep, 0xc120, PART7);
  }

  lemma Part8()
    ensures Fold(Crc16.ByteStep, 0x42aa, PART8) == 0x7e01
  {
    Crc16.Evaluated(0x42aa, 0x41, 0x599f);
    Crc16.Evaluated(0x599f, 0x41, 0x3faa);
    Crc16.Evaluated(0x3faa, 0x41, 0x59e2);
    Crc16.Evaluated(0x59e2, 0x01, 0xd5cc);
    Crc16.Evaluated(0xd5cc, 0x01, 0x1d3c);
    Crc16.Evaluated(0x1d3c, 0x01, 0xea7b);
    Crc16.Evaluated(0xea7b, 0x02, 0xeeac);
    Crc16.Evaluated(0xeeac, 0x01, 0x7e01);
    FoldEight(Crc16.ByteStep, 0x42aa, PART8);
  }
  lemma FrontCheck()
    ensures Crc16.Crc(PART0 + PART1 + PART2 + PART3 + PART4) == 0xbb44
  {
    Part0();
    Part1();
    Part2();
    Part3();
    Part4();
    FoldConcat(Crc16.ByteStep, 0, PART0, PART1);
    FoldConcat(Crc16.ByteStep, 0, PART0 + PART1, PART2);
    FoldConcat(Crc16.ByteStep, 0, PART0 + PART1 + PART2, PART3);
    FoldConcat(Crc16.ByteStep, 0, PART0 + PART1 + PART2 + PART3, PART4);
  }

  lemma BackCheck(front: seq<byte>)
    requires Crc16.Crc(front) == 0xbb44
    ensures Crc16.Crc(front + PART5 + PART6 + PART7 + PART8 + [LAST]) == 0x007e
  {
    Part5();
    Part6();
    Part7();
    Part8();
    Crc16.Evaluated(0x7e01, LAST, 0x007e);
    FoldConcat(Crc16.ByteStep, 0, front, PART5);
    FoldConcat(Crc16.ByteStep, 0, front + PART5, PART6);
    FoldConcat(Crc16.ByteStep, 0, front + PART5 + PART6, PART7);
    FoldConcat(Crc16.ByteStep, 0, front + PART5 + PART6 + PART7, PART8);
    FoldSnoc(Crc16.ByteStep, 0, front + PART5 + PART6 + PART7 + PART8, LAST);
  }

  lemma NoFlagInside()
    ensures |BODY| == 73 && FLAG !in BODY && BODY[0] == 0
  {
    assert FLAG !in PART0 && FLAG !in PART1 && FLAG !in PART2 && FLAG !in PART3 && FLAG !in PART4;
    assert FLAG !in PART5 && FLAG !in PART6 && FLAG !in PART7 && FLAG !in PART8;
  }

  lemma PortsAtTheEnd(body: seq<byte>)
    requires body == BODY && |body| == 73
    ensures body[67..] == [1, 1, 1, 2, 1, 1]
  {
    assert body == PART0 + PART1 + PART2 + PART3 + PART4 + PART5 + PART6 + PART7 + (PART8 + [LAST]);
    assert body[64..] == PART8 + [LAST];
    assert body[67..] == body[64..][3..];
  }

  /** Any frame around such a body and this check value is an order that the search ends early. */
  lemma EndsEarly(body: seq<byte>, f: seq<byte>, buf: seq<byte>)
    requires |body| == 73 && FLAG !in body && body[0] == 0 && Crc16.Crc(body) == 0x007e
    requires f == [FLAG] + body + [0x7e, 0x00, FLAG] && buf == f + [0x00]
    ensures Received(buf, 1) && buf[..77] == f && !Clean(f) && ListEnd(buf) == 72
  {
    assert buf[..77] == f && f[1..74] == body;
    CheckWord(f[74], f[75]);
    assert f[74] == FLAG && f[75] == 0;
    assert forall i :: 1 <= i < 74 ==> buf[i] == body[i - 1];
    assert buf[74] == FLAG && buf[75] == 0;
  }

  /** The frame is an order of one pair that passes the check; but the search ends two bytes early, so
      that no pair is counted and nothing is recorded. */
  lemma Misread(buf: seq<byte>)
    requires buf == FRAME + [0x00]
    ensures Received(buf, 1) && buf[..77] == FRAME && !Clean(FRAME)
    ensures PortsOf(buf, 2) == [Port(1, 1, 1), Port(2, 1, 1)]
    ensures ListEnd(buf) == 72 && Counted(72) == 0
    ensures Listable(buf) && AList(buf) == [] && ZList(buf) == []
  {
    FrontCheck();
    BackCheck(PART0 + PART1 + PART2 + PART3 + PART4);
    NoFlagInside();
    var body := BODY;
    EndsEarly(body, FRAME, buf);
    PortsAtTheEnd(body);
    assert forall i :: 0 <= i < 6 ==> buf[68 + i] == body[67..][i];
    var ports := PortsOf(buf, 2);
    assert ports[0] == Port(1, 1, 1) && ports[1] == Port(2, 1, 1);
  }
}
