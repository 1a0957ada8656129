/** The NAND layer of env/fw_env.c: reading and rewriting a byte range over blocks some of which
    are bad. A bad block is skipped, and the range continues in the next good one. */
module NandStore {
  import opened Register
  import opened Options

  const ERASED: byte := 0xff

  /** The geometry of one device: the size of a block (a power of two, so that the masks of the
      source round to it), which blocks are bad, and the area the environment may use. */
  datatype Chip = Chip(blockLen: nat, bad: seq<bool>, devOffset: nat, sectors: nat) {
    function TopBlock(): nat
      requires blockLen > 0
    {
      devOffset / blockLen + sectors
    }

    ghost predicate Valid() {
      blockLen > 0 && TopBlock() <= |bad|
    }

    /** The address of a block, counted up so that no product is needed. */
    function Start(b: nat): nat {
      if b == 0 then 0 else Start(b - 1) + blockLen
    }

    lemma {:induction false} StartIsProduct(b: nat)
      ensures Start(b) == b * blockLen
    {
      if b > 0 {
        StartIsProduct(b - 1);
        assert b * blockLen == (b - 1) * blockLen + blockLen;
      }
    }

    lemma {:induction false} StartMonotone(b: nat, c: nat)
      requires b <= c
      ensures Start(b) <= Start(c) && (b < c ==> Start(b) + blockLen <= Start(c))
      decreases c
    {
      if b < c {
        StartMonotone(b, c - 1);
      }
    }

    /** How many blocks n bytes reach into. */
    function Blocks(n: nat): nat
      requires blockLen > 0
    {
      (n + blockLen - 1) / blockLen
    }

    lemma BlocksCover(n: nat)
      requires blockLen > 0
      ensures n <= Start(Blocks(n)) < n + blockLen
    {
      StartIsProduct(Blocks(n));
    }

    /** The block an offset lies in, and its place there. */
    function BlockAt(offset: nat): nat
      requires blockLen > 0
    {
      offset / blockLen
    }

    function PlaceAt(offset: nat): nat
      requires blockLen > 0
    {
      offset % blockLen
    }

    lemma BlockOfStart(b: nat)
      requires blockLen > 0
      ensures Start(b) / blockLen == b && Start(b) % blockLen == 0
    {
      BlockOfOffset(Start(b));
      var q := Start(b) / blockLen;
      if q < b {
        StartMonotone(q, b);
      } else {
        StartMonotone(b, q);
      }
    }

    lemma BlockOfOffset(offset: nat)
      requires blockLen > 0
      ensures Start(offset / blockLen) == offset - offset % blockLen && offset % blockLen < blockLen
    {
      StartIsProduct(offset / blockLen);
    }
  }

  ghost predicate Memory(c: Chip, m: seq<byte>) {
    c.Valid() && |m| == c.Start(|c.bad|)
  }

  function Block(c: Chip, m: seq<byte>, b: nat): (r: seq<byte>)
    requires Memory(c, m) && b < |c.bad|
    ensures c.Start(b) + c.blockLen <= |m| && |r| == c.blockLen
  {
    c.StartMonotone(b + 1, |c.bad|);
    m[c.Start(b)..c.Start(b) + c.blockLen]
  }

  /** The bytes of the good blocks from b up to t, one after the other. */
  function Stream(c: Chip, m: seq<byte>, b: nat, t: nat): seq<byte>
    requires Memory(c, m)
    decreases t - b
  {
    if b >= t || b >= |c.bad| then []
    else if c.bad[b] then Stream(c, m, b + 1, t)
    else Block(c, m, b) + Stream(c, m, b + 1, t)
  }

  lemma {:induction false} StreamSplit(c: Chip, m: seq<byte>, b: nat, d: nat, t: nat)
    requires Memory(c, m) && b <= d <= t <= |c.bad|
    ensures Stream(c, m, b, t) == Stream(c, m, b, d) + Stream(c, m, d, t)
    decreases d - b
  {
    if b < d {
      StreamSplit(c, m, b + 1, d, t);
      var first := if c.bad[b] then [] else Block(c, m, b);
      assert Stream(c, m, b, t) == first + Stream(c, m, b + 1, t);
      assert Stream(c, m, b, d) == first + Stream(c, m, b + 1, d);
    }
  }

  /** Where the bytes of a good block stand in the stream: behind those of the good blocks before it. */
  lemma {:induction false} BlockInStream(c: Chip, m: seq<byte>, b: nat, k: nat, t: nat)
    requires Memory(c, m) && b <= k < t <= |c.bad| && !c.bad[k]
    ensures var at := c.Start(Good(c, b, k));
      && at + c.blockLen <= |Stream(c, m, b, t)| && c.Start(k) + c.blockLen <= |m|
      && Stream(c, m, b, t)[at..at + c.blockLen] == m[c.Start(k)..c.Start(k) + c.blockLen]
  {
    StreamSplit(c, m, b, k, t);
    StreamIsWhole(c, m, b, k);
    assert Stream(c, m, k, t) == Block(c, m, k) + Stream(c, m, k + 1, t);
  }

  /** On a device without bad blocks a range is read as it stands in memory. */
  lemma ReadOfGoodDevice(c: Chip, m: seq<byte>, offset: nat, count: nat)
    requires Memory(c, m) && (forall b :: 0 <= b < |c.bad| ==> !c.bad[b]) && count > 0
    requires offset + count <= c.devOffset - c.devOffset % c.blockLen + c.sectors * c.blockLen
    ensures offset + count <= |m| && ReadResult(c, m, offset, count) == Some(m[offset..offset + count])
  {
    AreaEndIsStart(c);
    c.BlockOfOffset(offset);
    ReadOfGoodBlocks(c, m, offset, count, c.BlockAt(offset), c.TopBlock());
  }

  lemma ReadOfGoodBlocks(c: Chip, m: seq<byte>, offset: nat, count: nat, b: nat, t: nat)
    requires Memory(c, m) && (forall k :: 0 <= k < |c.bad| ==> !c.bad[k]) && count > 0
    requires b == c.BlockAt(offset) && t == c.TopBlock() && c.Start(b) + c.PlaceAt(offset) == offset && offset + count <= c.Start(t)
    ensures offset + count <= |m| && ReadResult(c, m, offset, count) == Some(m[offset..offset + count])
  {
    if b >= t {
      c.StartMonotone(t, b);
    }
    StreamOfGood(c, m, b, t);
    var k, s := c.PlaceAt(offset), Stream(c, m, b, t);
    Window(m, c.Start(b), c.Start(t), k, count);
    assert s[k..k + count] == m[offset..offset + count];
  }

  lemma Window(m: seq<byte>, a: nat, z: nat, k: nat, n: nat)
    requires a <= z <= |m| && a + k + n <= z
    ensures m[a..z][k..k + n] == m[a + k..a + k + n]
  {
    var s, r := m[a..z][k..k + n], m[a + k..a + k + n];
    assert forall i :: 0 <= i < n ==> s[i] == m[a..z][k + i] == m[a + (k + i)] == r[i];
  }

  lemma {:induction false} StreamOfGood(c: Chip, m: seq<byte>, b: nat, t: nat)
    requires Memory(c, m) && b <= t <= |c.bad| && forall k :: 0 <= k < |c.bad| ==> !c.bad[k]
    ensures c.Start(b) <= c.Start(t) <= |m| && Stream(c, m, b, t) == m[c.Start(b)..c.Start(t)]
    decreases t - b
  {
    c.StartMonotone(b, t);
    c.StartMonotone(t, |c.bad|);
    if b < t {
      c.StartMonotone(b + 1, t);
      StreamOfGood(c, m, b + 1, t);
      assert m[c.Start(b)..c.Start(t)] == m[c.Start(b)..c.Start(b + 1)] + m[c.Start(b + 1)..c.Start(t)];
    }
  }

  /** A stream depends on its good blocks only; its length on the bad map only. */
  lemma {:induction false} StreamSame(c: Chip, m: seq<byte>, m': seq<byte>, b: nat, t: nat)
    requires Memory(c, m) && Memory(c, m') && t <= |c.bad|
    requires forall k | b <= k < t && !c.bad[k] :: Block(c, m, k) == Block(c, m', k)
    ensures Stream(c, m, b, t) == Stream(c, m', b, t)
    decreases t - b
  {
    if b < t {
      StreamSame(c, m, m', b + 1, t);
    }
  }

  /** The good blocks from b up to t. */
  function Good(c: Chip, b: nat, t: nat): nat
    decreases t - b
  {
    if b >= t || b >= |c.bad| then 0 else (if c.bad[b] then 0 else 1) + Good(c, b + 1, t)
  }

  lemma {:induction false} StreamIsWhole(c: Chip, m: seq<byte>, b: nat, t: nat)
    requires Memory(c, m) && t <= |c.bad|
    ensures |Stream(c, m, b, t)| == c.Start(Good(c, b, t))
    decreases t - b
  {
    if b < t {
      StreamIsWhole(c, m, b + 1, t);
      var g, g' := Good(c, b, t), Good(c, b + 1, t);
      if c.bad[b] {
        assert g == g';
      } else {
        assert g == g' + 1 && c.Start(g) == c.Start(g') + c.blockLen;
        assert |Stream(c, m, b, t)| == |Block(c, m, b)| + |Stream(c, m, b + 1, t)|;
      }
    }
  }

  /** n bytes from place k of a stream, if it has them. */
  function Range(s: seq<byte>, k: nat, n: nat): Option<seq<byte>> {
    if n == 0 then Some([]) else if k + n <= |s| then Some(s[k..k + n]) else None
  }

  /** What a read of a range delivers, if nothing fails: the range of the stream that begins in
      the block of the offset. */
  function ReadResult(c: Chip, m: seq<byte>, offset: nat, count: nat): Option<seq<byte>>
    requires Memory(c, m)
  {
    Range(Stream(c, m, c.BlockAt(offset), c.TopBlock()), c.PlaceAt(offset), count)
  }

  function Prepend(p: seq<byte>, r: Option<seq<byte>>): Option<seq<byte>> {
    if r.None? then None else Some(p + r.value)
  }

  function Least(a: nat, b: nat): nat {
    if a < b then a else b
  }

  /** The same range, block by block: n bytes from place k of block b on. */
  function Walk(c: Chip, m: seq<byte>, b: nat, k: nat, n: nat): Option<seq<byte>>
    requires Memory(c, m) && k < c.blockLen
    decreases c.TopBlock() - b
  {
    if n == 0 then Some([])
    else if b >= c.TopBlock() then None
    else if c.bad[b] then Walk(c, m, b + 1, k, n)
    else
      var l := Least(n, c.blockLen - k);
      Prepend(Block(c, m, b)[k..k + l], Walk(c, m, b + 1, 0, n - l))
  }

  lemma {:induction false} WalkIsRange(c: Chip, m: seq<byte>, b: nat, k: nat, n: nat)
    requires Memory(c, m) && k < c.blockLen
    ensures Walk(c, m, b, k, n) == Range(Stream(c, m, b, c.TopBlock()), k, n)
    decreases c.TopBlock() - b
  {
    if n > 0 && b < c.TopBlock() {
      if c.bad[b] {
        WalkIsRange(c, m, b + 1, k, n);
      } else {
        var l := Least(n, c.blockLen - k);
        WalkIsRange(c, m, b + 1, 0, n - l);
        var block, rest := Block(c, m, b), Stream(c, m, b + 1, c.TopBlock());
        RangeInTwo(block, rest, k, n, l);
        assert Walk(c, m, b, k, n) == Prepend(block[k..k + l], Range(rest, 0, n - l));
      }
    }
  }

  lemma RangeInTwo(block: seq<byte>, rest: seq<byte>, k: nat, n: nat, l: nat)
    requires 0 < n && k < |block| && l == Least(n, |block| - k)
    ensures Range(block + rest, k, n) == Prepend(block[k..k + l], Range(rest, 0, n - l))
  {
    var s := block + rest;
    if k + n <= |s| {
      assert s[k..k + n] == block[k..k + l] + rest[..n - l];
    }
  }

  /** What happens to the operations on one block during one call: everything works, the test for
      a bad block fails, or the erasing or the transfer fails and leaves some bytes behind. */
  datatype Fault = Works | TestFails | EraseFails(left: nat -> byte) | TransferFails(left: nat -> byte)

  lemma AreaEndIsStart(c: Chip)
    requires c.Valid()
    ensures c.Start(c.TopBlock()) == c.devOffset - c.devOffset % c.blockLen + c.sectors * c.blockLen
  {
    var first := c.devOffset / c.blockLen;
    c.BlockOfOffset(c.devOffset);
    c.StartIsProduct(first);
    c.StartIsProduct(first + c.sectors);
    Distribute(first, c.sectors, c.blockLen);
  }

  lemma Distribute(a: nat, b: nat, n: nat)
    ensures (a + b) * n == a * n + b * n
  {
  }

  lemma AlignedRead(c: Chip, m: seq<byte>, b: nat, n: nat)
    requires Memory(c, m)
    ensures ReadResult(c, m, c.Start(b), n) == Range(Stream(c, m, b, c.TopBlock()), 0, n)
  {
    c.BlockOfStart(b);
  }

  ghost predicate AllWork(fault: nat -> Fault) {
    forall b :: fault(b).Works?
  }

  /** Past the last block there is nothing; up to it a whole block fits. */
  lemma InRange(c: Chip, b: nat, t: nat, n: nat)
    requires 0 < n <= c.blockLen
    ensures c.Start(b) + n > c.Start(t) <==> b >= t
  {
    if b < t {
      c.StartMonotone(b, t);
    } else {
      c.StartMonotone(t, b);
    }
  }

  lemma PrependNothing(r: Option<seq<byte>>)
    ensures Prepend([], r) == r
  {
    if r.Some? {
      assert [] + r.value == r.value;
    }
  }

  /** One turn in a good block: its bytes join what was read before. */
  lemma WalkStep(c: Chip, m: seq<byte>, p: seq<byte>, b: nat, seek: nat, n: nat, l: nat)
    requires Memory(c, m) && b < c.TopBlock() && !c.bad[b] && seek < c.blockLen && n > 0
    requires l == Least(n, c.blockLen - seek)
    ensures c.Start(b) + c.blockLen <= |m|
    ensures Prepend(p, Walk(c, m, b, seek, n))
         == Prepend(p + m[c.Start(b) + seek..c.Start(b) + seek + l], Walk(c, m, b + 1, 0, n - l))
  {
    var start := c.Start(b);
    var block, piece, r := Block(c, m, b), m[start + seek..start + seek + l], Walk(c, m, b + 1, 0, n - l);
    forall i | 0 <= i < l
      ensures block[seek..seek + l][i] == piece[i]
    {
      assert block[seek + i] == m[start + (seek + i)];
    }
    assert block[seek..seek + l] == piece;
    if r.Some? {
      assert p + (piece + r.value) == (p + piece) + r.value;
    }
  }

  /** A stream with some of its bytes replaced. */
  function Replaced(s: seq<byte>, k: nat, d: seq<byte>): seq<byte>
    requires k + |d| <= |s|
  {
    s[..k] + d + s[k + |d|..]
  }

  /** Reading the replaced range gives the new bytes, reading any range beside it the old ones. */
  lemma ReadBack(s: seq<byte>, k: nat, d: seq<byte>, j: nat, n: nat)
    requires k + |d| <= |s|
    ensures Range(Replaced(s, k, d), k, |d|) == Some(d)
    ensures j + n <= k || k + |d| <= j ==> Range(Replaced(s, k, d), j, n) == Range(s, j, n)
  {
    var s' := Replaced(s, k, d);
    assert s'[k..k + |d|] == d;
    if (j + n <= k || k + |d| <= j) && j + n <= |s| {
      assert s'[j..j + n] == s[j..j + n];
    }
  }

  lemma ReplacedInside(s: seq<byte>, total: nat, k: nat, d: seq<byte>)
    requires k + |d| <= total <= |s|
    ensures Replaced(s, 0, Replaced(s[..total], k, d)) == Replaced(s, k, d)
  {
    var t := Replaced(s[..total], k, d);
    assert t == s[..k] + d + s[k + |d|..total];
    assert s[k + |d|..] == s[k + |d|..total] + s[total..];
    assert Replaced(s, 0, t) == t + s[total..];
  }

  /** Of all blocks only good ones from b0 on and below a limit may differ. */
  ghost predicate Untouched(c: Chip, m: seq<byte>, m': seq<byte>, b0: nat, limit: nat)
    requires Memory(c, m) && Memory(c, m')
  {
    forall k: nat {:trigger Block(c, m', k)} | k < |c.bad| && (k < b0 || k >= limit || c.bad[k]) :: Block(c, m', k) == Block(c, m, k)
  }

  /** Only the given block may differ. */
  ghost predicate OnlyBlock(c: Chip, m: seq<byte>, m': seq<byte>, b: nat)
    requires Memory(c, m) && Memory(c, m')
  {
    forall k: nat {:trigger Block(c, m', k)} | k < |c.bad| && k != b :: Block(c, m', k) == Block(c, m, k)
  }

  lemma SameBlock(c: Chip, m: seq<byte>, m': seq<byte>, k: nat)
    requires Memory(c, m) && Memory(c, m') && k < |c.bad|
    requires forall i | c.Start(k) <= i < c.Start(k) + c.blockLen && i < |m| :: m'[i] == m[i]
    ensures Block(c, m', k) == Block(c, m, k)
  {
    c.StartMonotone(k + 1, |c.bad|);
    var start := c.Start(k);
    forall i | 0 <= i < c.blockLen
      ensures Block(c, m', k)[i] == Block(c, m, k)[i]
    {
      assert m'[start + i] == m[start + i];
    }
  }

  lemma BytesToBlocks(c: Chip, m: seq<byte>, m': seq<byte>, b: nat)
    requires Memory(c, m) && Memory(c, m')
    requires forall i | 0 <= i < |m| && !(c.Start(b) <= i < c.Start(b) + c.blockLen) :: m'[i] == m[i]
    ensures OnlyBlock(c, m, m', b)
  {
    forall k: nat | k < |c.bad| && k != b
      ensures Block(c, m', k) == Block(c, m, k)
    {
      if k < b {
        c.StartMonotone(k, b);
      } else {
        c.StartMonotone(b, k);
      }
      SameBlock(c, m, m', k);
    }
  }

  lemma {:induction false} GoodSplit(c: Chip, b: nat, d: nat, t: nat)
    requires b <= d <= t
    ensures Good(c, b, t) == Good(c, b, d) + Good(c, d, t)
    decreases d - b
  {
    if b < d {
      GoodSplit(c, b + 1, d, t);
    }
  }

  /** After block b was written, or skipped as bad, the stream up to it is as long as the data used. */
  lemma OneMore(c: Chip, m: seq<byte>, m': seq<byte>, b0: nat, b: nat, data: seq<byte>, processed: nat)
    requires Memory(c, m) && Memory(c, m') && b0 <= b < |c.bad| && OnlyBlock(c, m, m', b)
    requires processed <= |data| && Stream(c, m, b0, b) == data[..processed]
    requires !c.bad[b] ==> processed + c.blockLen <= |data| && Block(c, m', b) == data[processed..processed + c.blockLen]
    ensures Stream(c, m', b0, b + 1) == if c.bad[b] then data[..processed] else data[..processed + c.blockLen]
  {
    StreamSame(c, m, m', b0, b);
    StreamSplit(c, m', b0, b, b + 1);
    if !c.bad[b] {
      assert Stream(c, m', b, b + 1) == Block(c, m', b) + [];
      assert data[..processed] + data[processed..processed + c.blockLen] == data[..processed + c.blockLen];
    }
  }

  /** When the last block is written the whole stream has the data at its front. */
  lemma Finished(c: Chip, m: seq<byte>, m': seq<byte>, b0: nat, b: nat, t: nat, data: seq<byte>)
    requires Memory(c, m) && Memory(c, m') && b0 <= b <= t <= |c.bad| && Untouched(c, m, m', b0, b)
    requires Stream(c, m', b0, b) == data
    ensures |data| <= |Stream(c, m, b0, t)| && Stream(c, m', b0, t) == Replaced(Stream(c, m, b0, t), 0, data)
  {
    StreamSplit(c, m, b0, b, t);
    StreamSplit(c, m', b0, b, t);
    StreamSame(c, m, m', b, t);
    StreamIsWhole(c, m, b0, b);
    StreamIsWhole(c, m', b0, b);
  }

  /** What a successful write means: the bytes of the range are the given ones, and all others of
      the good blocks of the area are what they were. */
  ghost predicate Written(c: Chip, m: seq<byte>, m': seq<byte>, offset: nat, d: seq<byte>)
    requires Memory(c, m) && Memory(c, m')
  {
    var s, k := Stream(c, m, c.BlockAt(offset), c.TopBlock()), c.PlaceAt(offset);
    k + |d| <= |s| && Stream(c, m', c.BlockAt(offset), c.TopBlock()) == Replaced(s, k, d)
  }

  /** After a successful write the range reads back as written, and a range of the same area that
      does not meet it reads as before. */
  lemma ReadAfterWrite(c: Chip, m: seq<byte>, m': seq<byte>, offset: nat, d: seq<byte>, j: nat, n: nat)
    requires Memory(c, m) && Memory(c, m') && Written(c, m, m', offset, d)
    ensures ReadResult(c, m', offset, |d|) == Some(d)
    ensures j + n <= c.PlaceAt(offset) || c.PlaceAt(offset) + |d| <= j ==>
      Range(Stream(c, m', c.BlockAt(offset), c.TopBlock()), j, n) == Range(Stream(c, m, c.BlockAt(offset), c.TopBlock()), j, n)
  {
    ReadBack(Stream(c, m, c.BlockAt(offset), c.TopBlock()), c.PlaceAt(offset), d, j, n);
  }

  /** A write leaves every area of other blocks as it was, whether it succeeds or not: reads of the
      area before the first block written give what they gave. */
  lemma OtherAreaKept(c: Chip, m: seq<byte>, m': seq<byte>, b0: nat, limit: nat, b: nat, t: nat)
    requires Memory(c, m) && Memory(c, m') && Untouched(c, m, m', b0, limit)
    requires (t <= b0 || limit <= b) && t <= |c.bad|
    ensures Stream(c, m', b, t) == Stream(c, m, b, t)
  {
    StreamSame(c, m, m', b, t);
  }

  /** Rounding up asks for no more good blocks than there are. */
  lemma EnoughBlocks(c: Chip, m: seq<byte>, b: nat, bytes: nat)
    requires Memory(c, m)
    requires bytes <= |Stream(c, m, b, c.TopBlock())|
    ensures c.Blocks(bytes) <= Good(c, b, c.TopBlock())
    ensures c.Start(c.Blocks(bytes)) <= |Stream(c, m, b, c.TopBlock())|
  {
    var g, n := Good(c, b, c.TopBlock()), c.Blocks(bytes);
    StreamIsWhole(c, m, b, c.TopBlock());
    c.BlocksCover(bytes);
    if g < n {
      c.StartMonotone(g, n);
    } else {
      c.StartMonotone(n, g);
    }
  }

  class Device {
    const chip: Chip
    const mem: array<byte>

    ghost predicate Valid()
      reads mem
    {
      Memory(chip, mem[..])
    }

    constructor (chip: Chip, mem: array<byte>)
      requires Memory(chip, mem[..])
      ensures Valid() && this.chip == chip && this.mem == mem
    {
      this.chip := chip;
      this.mem := mem;
    }

    /** flash_bad_block: negative when the test fails, positive when the block is bad. The driver
        refuses a block that the device does not have. */
    method BadBlock(b: nat, fault: Fault) returns (rc: int)
      ensures rc < 0 <==> b >= |chip.bad| || fault.TestFails?
      ensures rc >= 0 ==> (rc > 0 <==> chip.bad[b])
    {
      rc := if b >= |chip.bad| || fault.TestFails? then -1 else if chip.bad[b] then 1 else 0;
    }

    /** One read: n bytes from an address on into a place of the buffer. */
    method Transfer(buf: array<byte>, place: nat, address: nat, n: nat)
      requires buf != mem && place + n <= buf.Length && address + n <= mem.Length
      modifies buf
      ensures buf[..place + n] == old(buf[..place]) + mem[..][address..address + n]
      ensures forall k :: place + n <= k < buf.Length ==> buf[k] == old(buf[k])
    {
      forall k | 0 <= k < n {
        buf[place + k] := mem[address + k];
      }
    }

    /** The end of the usable area. */
    method AreaEnd() returns (top: nat)
      requires chip.Valid()
      ensures top == chip.Start(chip.TopBlock())
    {
      top := (chip.devOffset - chip.devOffset % chip.blockLen) + chip.sectors * chip.blockLen;
      AreaEndIsStart(chip);
    }

    /** The block and the place in it that an offset names, and the end of the usable area. */
    method Locate(offset: nat) returns (b: nat, blockStart: nat, seek: nat, top: nat)
      requires chip.Valid()
      ensures b == chip.BlockAt(offset) && seek == chip.PlaceAt(offset) < chip.blockLen
      ensures blockStart == chip.Start(b) == offset - seek && top == chip.Start(chip.TopBlock())
    {
      b, seek := offset / chip.blockLen, offset % chip.blockLen;
      blockStart := offset - seek;
      chip.BlockOfOffset(offset);
      top := AreaEnd();
    }

    /** The bytes read so far, p, and the walk still ahead make up the whole result. */
    ghost predicate Reading(whole: Option<seq<byte>>, p: seq<byte>, b: nat, seek: nat, left: nat)
      requires Valid() && seek < chip.blockLen
      reads mem
    {
      whole == Prepend(p, Walk(chip, mem[..], b, seek, left))
    }

    /** One turn of the loop of flash_read_buf: -1 to give up, 0 for a bad block, 1 when n of the
        left bytes still wanted were read. */
    method ReadBlock(buf: array<byte>, processed: nat, left: nat, b: nat, blockStart: nat, seek: nat, n: nat,
                     top: nat, fault: Fault, ghost whole: Option<seq<byte>>) returns (rc: int)
      requires Valid() && buf != mem && processed <= buf.Length && seek < chip.blockLen && left > 0
      requires blockStart + seek + n <= top ==> processed + n <= buf.Length
      requires blockStart == chip.Start(b) && top == chip.Start(chip.TopBlock())
      requires n == Least(left, chip.blockLen - seek) && Reading(whole, buf[..processed], b, seek, left)
      modifies buf
      ensures rc == -1 ==> !fault.Works? || whole == None
      ensures rc != -1 ==> b < chip.TopBlock() && blockStart + seek + n <= top && (rc == 0 || rc == 1)
      ensures rc == 0 ==> Reading(whole, buf[..processed], b + 1, seek, left)
      ensures rc == 1 ==> processed + n <= buf.Length && Reading(whole, buf[..processed + n], b + 1, 0, left - n)
      ensures forall k :: processed + n <= k < buf.Length ==> buf[k] == old(buf[k])
    {
      InRange(chip, b, chip.TopBlock(), seek + n);
      var bad := BadBlock(b, fault);
      if bad < 0 || blockStart + seek + n > top {
        return -1;
      }
      if bad > 0 {
        return 0;
      }
      if fault.TransferFails? {
        return -1;
      }
      WalkStep(chip, mem[..], buf[..processed], b, seek, left, n);
      Transfer(buf, processed, blockStart + seek, n);
      rc := 1;
    }

    /** The loop of flash_read_buf, from place k0 of block b0 on. The block number b stands beside
        the address blockStart. A buffer as long as the rest of the area is always long enough. */
    method ReadOn(buf: array<byte>, count: nat, b0: nat, start: nat, k0: nat, top: nat, fault: nat -> Fault) returns (rc: int)
      requires Valid() && buf != mem && k0 < chip.blockLen && (count <= buf.Length || top <= start + k0 + buf.Length)
      requires start == chip.Start(b0) && top == chip.Start(chip.TopBlock())
      modifies buf
      ensures rc == -1 || rc == count
      ensures rc != -1 ==> count <= buf.Length && Walk(chip, mem[..], b0, k0, count) == Some(buf[..count])
      ensures Walk(chip, mem[..], b0, k0, count).Some? && AllWork(fault) ==> rc != -1
      ensures forall k :: count <= k < buf.Length ==> buf[k] == old(buf[k])
    {
      var b: nat, blockStart: nat, seek: nat, processed: nat := b0, start, k0, 0;
      var readLen: nat := if count > chip.blockLen - seek then chip.blockLen - seek else count;
      ghost var t, m := chip.TopBlock(), mem[..];
      ghost var whole := Walk(chip, m, b0, k0, count);
      PrependNothing(whole);
      while processed < count
        invariant processed <= count && blockStart == chip.Start(b) && seek < chip.blockLen
        invariant processed == count || readLen == Least(count - processed, chip.blockLen - seek)
        invariant processed <= buf.Length && (processed == count || start + k0 + processed <= blockStart + seek)
        invariant Reading(whole, buf[..processed], b, seek, count - processed)
        invariant forall k :: count <= k < buf.Length ==> buf[k] == old(buf[k])
        decreases t - b
      {
        var turn := ReadBlock(buf, processed, count - processed, b, blockStart, seek, readLen, top, fault(b), whole);
        if turn == -1 {
          return -1;
        }
        if turn == 1 {
          processed := processed + readLen;
          readLen := if chip.blockLen < count - processed then chip.blockLen else count - processed;
          seek := 0;
        }
        b, blockStart := b + 1, blockStart + chip.blockLen;
      }
      assert buf[..count] + [] == buf[..count];
      rc := processed;
    }

    /** flash_read_buf: the number of bytes read, or -1. */
    method ReadBuf(buf: array<byte>, count: nat, offset: nat, fault: nat -> Fault) returns (rc: int)
      requires Valid() && buf != mem && (count <= buf.Length || chip.Start(chip.TopBlock()) <= offset + buf.Length)
      modifies buf
      ensures rc == -1 || rc == count
      ensures rc != -1 ==> count <= buf.Length && ReadResult(chip, mem[..], offset, count) == Some(buf[..count])
      ensures ReadResult(chip, mem[..], offset, count).Some? && AllWork(fault) ==> rc != -1
      ensures forall k :: count <= k < buf.Length ==> buf[k] == old(buf[k])
    {
      var b, blockStart, seek, top := Locate(offset);
      WalkIsRange(chip, mem[..], b, seek, count);
      rc := ReadOn(buf, count, b, blockStart, seek, top, fault);
    }

    /** Erasing one block and writing it: what a failure of either leaves is up to the device. */
    method Program(data: array<byte>, place: nat, start: nat, fault: Fault) returns (ok: bool)
      requires data != mem && place + chip.blockLen <= data.Length && start + chip.blockLen <= mem.Length
      modifies mem
      ensures fault.Works? ==> ok
      ensures ok ==> mem[..][start..start + chip.blockLen] == data[..][place..place + chip.blockLen]
      ensures forall i | 0 <= i < mem.Length && !(start <= i < start + chip.blockLen) :: mem[i] == old(mem[i])
    {
      var n := chip.blockLen;
      if fault.EraseFails? {
        forall i | 0 <= i < n {
          mem[start + i] := fault.left(i);
        }
        return false;
      }
      forall i | 0 <= i < n {
        mem[start + i] := ERASED;
      }
      if fault.TransferFails? {
        forall i | 0 <= i < n {
          mem[start + i] := fault.left(i);
        }
        return false;
      }
      forall i | 0 <= i < n {
        mem[start + i] := data[place + i];
      }
      ok := true;
    }

    /** One turn of the loop of flash_write_buf: -1 to give up, 0 for a bad block, 1 when the block
        was written. */
    method WriteBlock(data: array<byte>, place: nat, b: nat, blockStart: nat, top: nat, fault: Fault) returns (rc: int)
      requires Valid() && data != mem && chip.blockLen > 0 && place + chip.blockLen <= data.Length
      requires blockStart == chip.Start(b) && top == chip.Start(chip.TopBlock())
      modifies mem
      ensures Valid()
      ensures rc == -1 ==> !fault.Works? || b >= chip.TopBlock()
      ensures rc != -1 ==> b < chip.TopBlock() && (rc == 0 || rc == 1)
      ensures rc == 0 ==> chip.bad[b]
      ensures rc == 1 ==> !chip.bad[b] && Block(chip, mem[..], b) == old(data[..])[place..place + chip.blockLen]
      ensures b >= chip.TopBlock() || chip.bad[b] ==> mem[..] == old(mem[..])
      ensures OnlyBlock(chip, old(mem[..]), mem[..], b)
    {
      InRange(chip, b, chip.TopBlock(), chip.blockLen);
      var bad := BadBlock(b, fault);
      if bad < 0 || blockStart + chip.blockLen > top {
        return -1;
      }
      if bad > 0 {
        return 0;
      }
      chip.StartMonotone(b + 1, |chip.bad|);
      ghost var before := mem[..];
      var ok := Program(data, place, blockStart, fault);
      BytesToBlocks(chip, before, mem[..], b);
      rc := if ok then 1 else -1;
    }

    /** What the turns so far have done since the memory was m: the first d blocks of the data are
        the stream from b0 to b, and nothing else has changed. */
    ghost predicate Programmed(m: seq<byte>, data: seq<byte>, b0: nat, b: nat, d: nat)
      requires Valid() && Memory(chip, m)
      reads mem
    {
      && b0 <= b && d == Good(chip, b0, b) && chip.Start(d) <= |data|
      && Stream(chip, mem[..], b0, b) == data[..chip.Start(d)]
      && Untouched(chip, m, mem[..], b0, b)
    }

    /** One turn of that loop, seen as progress. */
    method WriteTurn(data: array<byte>, ghost m: seq<byte>, b0: nat, b: nat, ghost d: nat, place: nat,
                     blockStart: nat, top: nat, fault: Fault) returns (rc: int)
      requires Valid() && Memory(chip, m) && data != mem && Programmed(m, data[..], b0, b, d)
      requires place == chip.Start(d) && place + chip.blockLen <= data.Length
      requires blockStart == chip.Start(b) && top == chip.Start(chip.TopBlock())
      modifies mem
      ensures Valid()
      ensures rc == -1 ==> !fault.Works? || b >= chip.TopBlock()
      ensures rc != -1 ==> b < chip.TopBlock() && (rc == 0 || rc == 1) && Programmed(m, old(data[..]), b0, b + 1, d + rc)
      ensures Untouched(chip, m, mem[..], b0, if b < chip.TopBlock() then b + 1 else b)
    {
      ghost var before, source := mem[..], data[..];
      rc := WriteBlock(data, place, b, blockStart, top, fault);
      if rc != -1 {
        OneMore(chip, before, mem[..], b0, b, source, place);
        GoodSplit(chip, b0, b, b + 1);
      }
    }

    /** The loop of flash_write_buf over n blocks of data. Beside the result it tells below which block
        it stopped. */
    method WriteLoop(data: array<byte>, total: nat, ghost n: nat, b0: nat, start: nat, top: nat, fault: nat -> Fault)
      returns (rc: int, ghost reached: nat)
      requires Valid() && data != mem && total <= data.Length && total == chip.Start(n)
      requires start == chip.Start(b0) && top == chip.Start(chip.TopBlock())
      modifies mem
      ensures Valid() && (rc == -1 || rc == total)
      ensures rc != -1 ==> Programmed(old(mem[..]), old(data[..]), b0, reached, n)
      ensures n <= Good(chip, b0, chip.TopBlock()) && AllWork(fault) ==> rc != -1
      ensures Untouched(chip, old(mem[..]), mem[..], b0, reached) && (reached == b0 || reached <= chip.TopBlock())
    {
      var b: nat, blockStart: nat, processed: nat := b0, start, 0;
      ghost var t, m, d, source := chip.TopBlock(), mem[..], 0, data[..];
      while processed < total
        invariant Valid() && d <= n && processed == chip.Start(d) && blockStart == chip.Start(b)
        invariant (b == b0 && d == 0) || b0 < b <= t
        invariant Programmed(m, source, b0, b, d)
        decreases t - b
      {
        chip.StartMonotone(d, n);
        if b <= t {
          GoodSplit(chip, b0, b, t);
        }
        var turn := WriteTurn(data, m, b0, b, d, processed, blockStart, top, fault(b));
        if turn == -1 {
          return -1, if b < t then b + 1 else b;
        }
        if turn == 1 {
          processed, d := processed + chip.blockLen, d + 1;
        }
        b, blockStart := b + 1, blockStart + chip.blockLen;
      }
      chip.StartMonotone(d, n);
      rc, reached := processed, b;
    }

    /** That loop programs the good blocks from b0 on with the data. */
    method WriteOn(data: array<byte>, total: nat, ghost n: nat, b0: nat, start: nat, top: nat, fault: nat -> Fault)
      returns (rc: int, ghost reached: nat)
      requires Valid() && data != mem && total <= data.Length && total == chip.Start(n)
      requires start == chip.Start(b0) && top == chip.Start(chip.TopBlock())
      modifies mem
      ensures Valid() && (rc == -1 || rc == total)
      ensures rc != -1 ==>
        var s := old(Stream(chip, mem[..], b0, chip.TopBlock()));
        total <= |s| && Stream(chip, mem[..], b0, chip.TopBlock()) == Replaced(s, 0, data[..total])
      ensures n <= Good(chip, b0, chip.TopBlock()) && AllWork(fault) ==> rc != -1
      ensures Untouched(chip, old(mem[..]), mem[..], b0, reached) && (reached == b0 || reached <= chip.TopBlock())
    {
      ghost var t, m, source := chip.TopBlock(), mem[..], data[..];
      rc, reached := WriteLoop(data, total, n, b0, start, top, fault);
      if rc != -1 && reached <= t {
        Finished(chip, m, mem[..], b0, reached, t, source[..total]);
      }
    }

    /** The size of the blocks that seek and count bytes together reach into. */
    method RoundUp(bytes: nat) returns (total: nat)
      requires chip.Valid()
      ensures total == chip.Start(chip.Blocks(bytes)) >= bytes
    {
      total := bytes + chip.blockLen - 1;
      total := total - total % chip.blockLen;
      chip.BlocksCover(bytes);
      chip.BlockOfOffset(bytes + chip.blockLen - 1);
    }

    /** The blocks to be written: what they hold now, with count bytes replaced from seek on. */
    method Prepare(buf: array<byte>, count: nat, b: nat, start: nat, seek: nat, total: nat, top: nat,
                   fault: nat -> Fault) returns (data: array?<byte>)
      requires Valid() && buf != mem && count <= buf.Length && seek + count <= total && total > 0
      requires start == chip.Start(b) && top == chip.Start(chip.TopBlock())
      ensures data != null ==> fresh(data) && total <= data.Length && total <= |Stream(chip, mem[..], b, chip.TopBlock())|
      ensures data != null ==> data[..total] == Replaced(Stream(chip, mem[..], b, chip.TopBlock())[..total], seek, buf[..count])
      ensures Range(Stream(chip, mem[..], b, chip.TopBlock()), 0, total).Some? && AllWork(fault) ==> data != null
    {
      AlignedRead(chip, mem[..], b, total);
      ghost var s := Stream(chip, mem[..], b, chip.TopBlock());
      if top < start {
        InRange(chip, b, chip.TopBlock(), 1);
        assert s == [];
        return null;
      }
      data := new byte[top - start];
      var rc := ReadBuf(data, total, start, fault);
      if rc != total {
        return null;
      }
      assert data[..total] == s[..total];
      Overlay(data, seek, buf, count, total);
    }

    /** The copy of count bytes into data, from seek on. */
    static method Overlay(data: array<byte>, seek: nat, buf: array<byte>, count: nat, ghost total: nat)
      requires data != buf && count <= buf.Length && seek + count <= total <= data.Length
      modifies data
      ensures data[..total] == Replaced(old(data[..total]), seek, buf[..count])
    {
      forall i | 0 <= i < count {
        data[seek + i] := buf[i];
      }
    }

    /** flash_write_buf, from place seek of block b on. A part of a block is written by reading the
        blocks, replacing the part and writing them back. */
    method WriteAt(buf: array<byte>, count: nat, b: nat, start: nat, seek: nat, top: nat,
                   readFault: nat -> Fault, fault: nat -> Fault) returns (rc: int, ghost reached: nat)
      requires Valid() && buf != mem && count <= buf.Length
      requires start == chip.Start(b) && top == chip.Start(chip.TopBlock())
      modifies mem
      ensures Valid() && (rc == -1 || rc >= count)
      ensures rc != -1 ==>
        var s := old(Stream(chip, mem[..], b, chip.TopBlock()));
        seek + count <= |s| && Stream(chip, mem[..], b, chip.TopBlock()) == Replaced(s, seek, old(buf[..count]))
      ensures seek + count <= |old(Stream(chip, mem[..], b, chip.TopBlock()))| && AllWork(readFault) && AllWork(fault) ==> rc != -1
      ensures Untouched(chip, old(mem[..]), mem[..], b, reached) && (reached == b || reached <= chip.TopBlock())
    {
      var total := RoundUp(seek + count);
      ghost var s := Stream(chip, mem[..], b, chip.TopBlock());
      if seek + count <= |s| {
        EnoughBlocks(chip, mem[..], b, seek + count);
      }
      if total > count {
        var data := Prepare(buf, count, b, start, seek, total, top, readFault);
        if data == null {
          return -1, b;
        }
        ReplacedInside(s, total, seek, buf[..count]);
        rc, reached := WriteOn(data, total, chip.Blocks(seek + count), b, start, top, fault);
      } else {
        rc, reached := WriteOn(buf, total, chip.Blocks(seek + count), b, start, top, fault);
      }
    }

    /** flash_write_buf: the number of bytes programmed, or -1. */
    method WriteBuf(buf: array<byte>, count: nat, offset: nat, readFault: nat -> Fault, fault: nat -> Fault)
      returns (rc: int, ghost reached: nat)
      requires Valid() && buf != mem && count <= buf.Length
      modifies mem
      ensures Valid() && (rc == -1 || rc >= count)
      ensures rc != -1 ==> Written(chip, old(mem[..]), mem[..], offset, old(buf[..count]))
      ensures count > 0 && old(ReadResult(chip, mem[..], offset, count)).Some? && AllWork(readFault) && AllWork(fault) ==> rc != -1
      ensures Untouched(chip, old(mem[..]), mem[..], chip.BlockAt(offset), reached)
      ensures reached == chip.BlockAt(offset) || reached <= chip.TopBlock()
    {
      var b, start, seek, top := Locate(offset);
      rc, reached := WriteAt(buf, count, b, start, seek, top, readFault, fault);
    }
  }
}
