/** The checksum of the serial frames between the boards: an 8-bit register, most significant bit
    first, polynomial 0x31 (crc8.c; the same loop is copied into several files of the firmware). */
module Crc8 {
  import opened Register

  const POLY: byte := 0x31

  /** One shift of the register: the bit that leaves decides whether the polynomial is added. */
  function BitStep(c: byte): byte {
    if c & 0x80 != 0 then (c << 1) ^ POLY else c << 1
  }

  function Bits8(c: byte): byte {
    Iter(BitStep, BYTE_TIME, c)
  }

  function Add(c: byte, b: byte): byte {
    c ^ b
  }

  function ByteStep(c: byte, b: byte): byte {
    Bits8(Add(c, b))
  }

  function Crc(s: seq<byte>): byte {
    Fold(ByteStep, 0, s)
  }

  lemma BitStepInjective(c: byte, d: byte)
    requires BitStep(c) == BitStep(d)
    ensures c == d
  {
  }

  lemma Bits8Injective(c: byte, d: byte)
    requires Bits8(c) == Bits8(d)
    ensures c == d
  {
    forall x, y | BitStep(x) == BitStep(y)
      ensures x == y
    {
      BitStepInjective(x, y);
    }
    IterInjective(BitStep, BYTE_TIME, c, d);
  }

  lemma XorCancel(c: byte, d: byte, b: byte)
    ensures Add(c, b) == Add(d, b) ==> c == d
    ensures Add(b, c) == Add(b, d) ==> c == d
  {
  }

  lemma ByteStepInjective()
    ensures StepInjective(ByteStep)
  {
    forall c, d, b | ByteStep(c, b) == ByteStep(d, b)
      ensures c == d
    {
      Bits8Injective(Add(c, b), Add(d, b));
      XorCancel(c, d, b);
    }
  }

  // The mask of the bit loop when k bits are still to come, and the data moved up to meet it.
  function Probe(k: nat): byte {
    if k == 0 then 0 else if k == 1 then 1 else Probe(k - 1) << 1
  }

  function MovedUp(b: byte, n: nat): byte {
    if n == 0 then b else MovedUp(b, n - 1) << 1
  }

  lemma Probes()
    ensures Probe(8) == 0x80 && Probe(7) == 0x40 && Probe(6) == 0x20 && Probe(5) == 0x10
    ensures Probe(4) == 0x08 && Probe(3) == 0x04 && Probe(2) == 0x02 && Probe(1) == 0x01
  {
  }

  lemma Moves(b: byte)
    ensures MovedUp(b, 0) == b && MovedUp(b, 1) == b << 1 && MovedUp(b, 2) == b << 2
    ensures MovedUp(b, 3) == b << 3 && MovedUp(b, 4) == b << 4 && MovedUp(b, 5) == b << 5
    ensures MovedUp(b, 6) == b << 6 && MovedUp(b, 7) == b << 7 && MovedUp(b, 8) == 0
  {
  }

  lemma NextBit(b: byte, k: nat)
    requires 0 < k <= 8
    ensures Probe(k) != 0 && Probe(k) >> 1 == Probe(k - 1)
    ensures b & Probe(k) != 0 <==> MovedUp(b, 8 - k) & 0x80 != 0
  {
    Probes();
    Moves(b);
    match k
    case 8 => case 7 => case 6 => case 5 => case 4 => case 3 => case 2 => case _ => assert k == 1;
  }

  /** One pass of the bit loop, by the two top bits. */
  function LoopStep(crc: byte, bit: bool): byte {
    if crc & 0x80 != 0 && bit then crc << 1
    else if crc & 0x80 != 0 then (crc << 1) ^ POLY
    else if bit then (crc << 1) ^ POLY
    else crc << 1
  }

  lemma LoopStepIsBitStep(crc: byte, rest: byte)
    ensures Add(LoopStep(crc, rest & 0x80 != 0), rest << 1) == BitStep(Add(crc, rest))
  {
  }

  lemma AddZero(c: byte)
    ensures Add(c, 0) == c
  {
  }

  /** What the bit loop has still to do when k bits are left. */
  function Rest(crc: byte, b: byte, k: nat): byte
    requires k <= 8
  {
    Iter(BitStep, k, Add(crc, MovedUp(b, 8 - k)))
  }

  /** One turn of the bit loop: the register and the bits still to come, added, take one shift. */
  lemma OneTurn(crc: byte, b: byte, k: nat, next: byte)
    requires 0 < k <= 8 && next == LoopStep(crc, b & Probe(k) != 0)
    ensures Rest(next, b, k - 1) == Rest(crc, b, k)
  {
    NextBit(b, k);
    LoopStepIsBitStep(crc, MovedUp(b, 8 - k));
  }

  lemma RestBounds(crc: byte, b: byte, k: nat)
    requires k <= 8
    ensures Rest(crc, b, 8) == ByteStep(crc, b)
    ensures Probe(k) == 0 ==> Rest(crc, b, k) == crc
    ensures Probe(8) == 0x80
  {
    Probes();
    Moves(b);
    if k > 0 {
      NextBit(b, k);
    }
  }

  method OneByte(crc0: byte, b: byte) returns (crc: byte)
    ensures crc == ByteStep(crc0, b)
  {
    crc := crc0;
    RestBounds(crc, b, 8);
    var i := 0x80;
    ghost var k := BYTE_TIME;
    while i != 0
      invariant k <= 8 && i == Probe(k)
      invariant Rest(crc, b, k) == ByteStep(crc0, b)
      decreases k
    {
      NextBit(b, k);
      OneTurn(crc, b, k, LoopStep(crc, b & i != 0));
      crc := LoopStep(crc, b & i != 0);
      i := i >> 1;
      k := k - 1;
    }
    RestBounds(crc, b, k);
  }

  /** crc8: the bit loop, which compares register and data bit by bit, is the reference register. */
  method Calc(data: array<byte>, from: nat, len: nat) returns (crc: byte)
    requires from + len <= data.Length
    ensures crc == Crc(data[from..from + len])
  {
    crc := 0;
    var p, n := from, len;
    while n > 0
      invariant 0 <= n && from <= p && p + n == from + len
      invariant crc == Crc(data[from..p])
    {
      FoldSnoc(ByteStep, 0, data[from..p], data[p]);
      assert data[from..p + 1] == data[from..p] + [data[p]];
      n := n - 1;
      crc := OneByte(crc, data[p]);
      p := p + 1;
    }
  }

  /** hi << 8 | lo, as an index. */
  function Be16(hi: byte, lo: byte): nat {
    (hi as int) * 256 + lo as int
  }

  function Length(s: seq<byte>): nat
    requires |s| >= 3
  {
    Be16(s[1], s[2])
  }

  /** What crcCheckout decides: the length field counts the bytes in front of the check byte. */
  predicate Accepts(s: seq<byte>)
    requires |s| >= 3 && Length(s) < |s|
  {
    Crc(s[..Length(s)]) == s[Length(s)]
  }

  method CheckAt(data: array<byte>, len: nat) returns (ok: bool)
    requires len < data.Length
    ensures ok <==> Crc(data[..len]) == data[len]
  {
    var crc := Calc(data, 0, len);
    ok := crc == data[len];
  }

  /** crcCheckout. The source trusts the length field to stay inside its receive buffer. */
  method Checkout(data: array<byte>) returns (ok: bool)
    requires data.Length >= 3 && Length(data[..]) < data.Length
    ensures ok <==> Accepts(data[..])
  {
    var len := Be16(data[1], data[2]);
    assert data[..len] == data[..][..len];
    ok := CheckAt(data, len);
  }

  /** Error detection. A change of any one byte that leaves the length field alone is noticed if
      and only if the byte is one that the frame covers: the check byte or one in front of it. */
  lemma OneByteErrorDetected(f: seq<byte>, g: seq<byte>, p: nat)
    requires 3 <= |f| == |g| && p < |f| && p != 1 && p != 2 && f[p] != g[p]
    requires forall i :: 0 <= i < |f| && i != p ==> g[i] == f[i]
    requires Length(f) < |f| && Accepts(f)
    ensures Length(g) == Length(f)
    ensures !Accepts(g) <==> p <= Length(f)
  {
    var n := Length(f);
    if p < n {
      var pre, post := f[..p], f[p + 1..n];
      assert f[..n] == pre + [f[p]] + post;
      assert g[..n] == pre + [g[p]] + post;
      ByteStepInjective();
      if Accepts(g) {
        FoldWindow(ByteStep, 0, pre, [f[p]], [g[p]], post);
        var c := Fold(ByteStep, 0, pre);
        FoldSnoc(ByteStep, c, [], f[p]);
        FoldSnoc(ByteStep, c, [], g[p]);
        assert [] + [f[p]] == [f[p]] && [] + [g[p]] == [g[p]];
        Bits8Injective(Add(c, f[p]), Add(c, g[p]));
        XorCancel(f[p], g[p], c);
      }
    } else {
      assert f[..n] == g[..n];
    }
  }
}
