/** The frame of a batch order and where lib_orders/Jianei_Order_new_5_ports.c thinks that it ends. */
module OrderFrame {
  import opened Register
  import Crc16

  const FLAG: byte := 0x7e
  const ENTRIES := 5
  const PORTS_AT := 68

  datatype Port = Port(frame: byte, tray: byte, number: byte)

  /** A frame that orders n pairs: the version, which begins with a zero, stands behind the flag, and
      the check has accepted it. */
  ghost predicate IsOrder(f: seq<byte>, n: nat) {
    && |f| == PORTS_AT + 6 * n + 3 && f[0] == FLAG && f[1] == 0 && f[|f| - 1] == FLAG
    && Crc16.Accepts(f)
  }

  /** It stands at the front of a buffer that was cleared before. */
  ghost predicate Received(buf: seq<byte>, n: nat) {
    |buf| > PORTS_AT + 6 * n + 3 && IsOrder(buf[..PORTS_AT + 6 * n + 3], n) && buf[PORTS_AT + 6 * n + 3] == 0
  }

  /** No flag byte inside the frame has a zero behind it. */
  ghost predicate Clean(f: seq<byte>) {
    forall i {:trigger f[i]} :: 1 <= i < |f| - 2 && f[i] == FLAG ==> f[i + 1] != 0
  }

  /** The first place from i on where a flag byte has a zero behind it. */
  function FlagAndZero(s: seq<byte>, i: nat): (r: nat)
    requires i <= |s|
    ensures i <= r <= |s| && (r < |s| ==> r + 1 < |s| && s[r] == FLAG && s[r + 1] == 0)
    ensures forall k :: i <= k < r && k + 1 < |s| ==> !(s[k] == FLAG && s[k + 1] == 0)
    decreases |s| - i
  {
    if i + 1 >= |s| then |s| else if s[i] == FLAG && s[i + 1] == 0 then i else FlagAndZero(s, i + 1)
  }

  /** Where the search finds the end of the ports: before two check bytes and the flag. */
  function ListEnd(buf: seq<byte>): int
    requires |buf| >= 1
  {
    FlagAndZero(buf, 1) - 2
  }

  lemma EndBounds(buf: seq<byte>, n: nat)
    requires Received(buf, n)
    ensures 0 <= ListEnd(buf) <= PORTS_AT + 6 * n
  {
    var last := PORTS_AT + 6 * n + 2;
    assert buf[last] == buf[..last + 1][last];
    assert buf[1] == buf[..last + 1][1];
  }

  /** The search finds the end of the frame if and only if the frame is clean. */
  lemma EndExactly(buf: seq<byte>, n: nat)
    requires Received(buf, n)
    ensures ListEnd(buf) == PORTS_AT + 6 * n <==> Clean(buf[..PORTS_AT + 6 * n + 3])
  {
    var f, last := buf[..PORTS_AT + 6 * n + 3], PORTS_AT + 6 * n + 2;
    EndBounds(buf, n);
    var r := FlagAndZero(buf, 1);
    assert forall k :: 0 <= k <= last ==> f[k] == buf[k];
    if r < last {
      assert f[r] == FLAG && f[r + 1] == 0;
      assert f[last] == FLAG;
    } else {
      forall i | 1 <= i < |f| - 2 && f[i] == FLAG
        ensures f[i + 1] != 0
      {
        assert i < r && buf[i] == f[i] && buf[i + 1] == f[i + 1];
      }
    }
  }

  /** So a frame with no such pair up to its last port is clean unless the check value begins the
      pair itself, which is the value 0x007e, or completes one that the last port begins. */
  lemma CleanByCheck(f: seq<byte>, n: nat)
    requires IsOrder(f, n)
    ensures var e := PORTS_AT + 6 * n;
      Clean(f) <==>
        && (forall i {:trigger f[i]} :: 1 <= i < e - 1 && f[i] == FLAG ==> f[i + 1] != 0)
        && !(f[e - 1] == FLAG && f[e] == 0) && Crc16.Crc(f[1..e]) != 0x007e
  {
    var e := PORTS_AT + 6 * n;
    CheckWord(f[e], f[e + 1]);
    if !Clean(f) {
      var i :| 1 <= i < |f| - 2 && f[i] == FLAG && f[i + 1] == 0;
      assert i < e - 1 || i == e - 1 || i == e;
    } else {
      assert f[e] == FLAG ==> f[e + 1] != 0;
      assert f[e - 1] == FLAG ==> f[e] != 0;
    }
  }

  lemma CheckWord(lo: byte, hi: byte)
    ensures Crc16.Word(lo, hi) == 0x007e <==> lo == FLAG && hi == 0
  {
  }

  /** How many pairs the program counts, in a byte. Division rounds towards zero. */
  function Counted(len: int): (r: nat)
    ensures r < 256
  {
    if len >= PORTS_AT then (len - PORTS_AT) / 6 % 256 else (256 - (PORTS_AT - len) / 6 % 256) % 256
  }

  /** How many ports it walks over. */
  function Walked(len: int): nat {
    if len <= PORTS_AT then 0 else (len - PORTS_AT + 2) / 3
  }

  function PortAt(src: seq<byte>, i: nat): Port
    requires i + 3 <= |src|
  {
    Port(src[i], src[i + 1], src[i + 2])
  }

  /** Ports of a frame, three bytes each, from a place on. */
  function PortsFrom(src: seq<byte>, at: nat, count: nat): (r: seq<Port>)
    requires at + 3 * count <= |src|
    ensures |r| == count && forall i :: 0 <= i < count ==> r[i] == PortAt(src, at + 3 * i)
  {
    seq(count, i requires 0 <= i < count => PortAt(src, at + 3 * i))
  }

  function PortsOf(src: seq<byte>, count: nat): (r: seq<Port>)
    requires PORTS_AT + 3 * count <= |src|
    ensures |r| == count
  {
    PortsFrom(src, PORTS_AT, count)
  }

  /** The ports from byte 68 on, three bytes each: frame, tray, number. */
  lemma PortBytes(src: seq<byte>, count: nat, i: nat)
    requires i < count && 68 + 3 * count <= |src|
    ensures PortsOf(src, count)[i] == Port(src[68 + 3 * i], src[69 + 3 * i], src[70 + 3 * i])
  {
  }

  /** The counts are those of the frame exactly when the end is. */
  lemma CountsExactly(len: int, n: nat)
    requires 0 <= len <= PORTS_AT + 6 * n && n <= ENTRIES
    ensures len == PORTS_AT + 6 * n ==> Counted(len) == n && Walked(len) == 2 * n
    ensures len < PORTS_AT + 6 * n ==> Walked(len) <= 2 * n && (n > 0 ==> Counted(len) != n)
    ensures PORTS_AT <= len ==> Counted(len) <= n
    ensures Counted(len) <= ENTRIES <==> len > PORTS_AT - 6
    ensures PORTS_AT - 6 < len < PORTS_AT ==> Counted(len) == 0
  {
  }

  /** Where the Z ports are taken to begin. */
  function ZStart(len: int): int {
    if len >= PORTS_AT then PORTS_AT + (len - PORTS_AT) / 2 else PORTS_AT - (PORTS_AT - len) / 2
  }

  /** The lists that the program makes of a buffer, when they fit its table. */
  ghost predicate Listable(buf: seq<byte>) {
    && |buf| >= 1 && Counted(ListEnd(buf)) <= ENTRIES && ZStart(ListEnd(buf)) >= 0
    && PORTS_AT + 3 * Counted(ListEnd(buf)) <= |buf| && ZStart(ListEnd(buf)) + 3 * Counted(ListEnd(buf)) <= |buf|
  }

  ghost function AList(buf: seq<byte>): seq<Port>
    requires Listable(buf)
  {
    PortsFrom(buf, PORTS_AT, Counted(ListEnd(buf)))
  }

  ghost function ZList(buf: seq<byte>): seq<Port>
    requires Listable(buf)
  {
    PortsFrom(buf, ZStart(ListEnd(buf)), Counted(ListEnd(buf)))
  }

  lemma ListsFit(buf: seq<byte>, n: nat)
    requires Received(buf, n) && n <= ENTRIES
    ensures Listable(buf) <==> Counted(ListEnd(buf)) <= ENTRIES
  {
    EndBounds(buf, n);
    CountsExactly(ListEnd(buf), n);
  }

  /** The table gets the ports of the order, the first half as A ends and the second as Z ends, if and
      only if the frame is clean. */
  lemma RecordExactly(buf: seq<byte>, n: nat)
    requires Received(buf, n) && 1 <= n <= ENTRIES
    ensures Clean(buf[..PORTS_AT + 6 * n + 3]) <==>
      Listable(buf) && AList(buf) == PortsOf(buf, 2 * n)[..n] && ZList(buf) == PortsOf(buf, 2 * n)[n..]
  {
    EndBounds(buf, n);
    EndExactly(buf, n);
    ListsFit(buf, n);
    CountsExactly(ListEnd(buf), n);
  }

  /** What a check value of 0x007e does: the last pair is left out, the A ends are still right, and the Z
      ends are taken from one byte before the first of them. */
  lemma ShortByTwo(buf: seq<byte>, n: nat)
    requires Received(buf, n) && 1 <= n <= ENTRIES && ListEnd(buf) == 68 + 6 * n - 2
    ensures Listable(buf) && |AList(buf)| == |ZList(buf)| == n - 1
    ensures forall i :: 0 <= i < n - 1 ==> AList(buf)[i] == Port(buf[68 + 3 * i], buf[69 + 3 * i], buf[70 + 3 * i])
    ensures forall i :: 0 <= i < n - 1 ==>
      var at := 67 + 3 * n + 3 * i; ZList(buf)[i] == Port(buf[at], buf[at + 1], buf[at + 2])
  {
    ListsFit(buf, n);
  }

  /** The length search, which both the splitting and the recording of an order make. */
  method DataLength(src: array<byte>, ghost n: nat) returns (len: nat)
    requires Received(src[..], n)
    ensures len == ListEnd(src[..]) <= PORTS_AT + 6 * n
  {
    EndBounds(src[..], n);
    ghost var last := PORTS_AT + 6 * n + 2;
    assert src[last] == src[..][..last + 1][last];
    var i := 1;
    while !(src[i] == FLAG && src[i + 1] == 0)
      invariant 1 <= i <= last && FlagAndZero(src[..], 1) == FlagAndZero(src[..], i)
      decreases last - i
    {
      i := i + 1;
    }
    len := i - 2;
  }

  /** batchs_entires, a byte. */
  method CountPairs(len: nat) returns (entries: nat)
    ensures entries == Counted(len)
  {
    if len >= PORTS_AT {
      entries := (len - PORTS_AT) / 6 % 256;
    } else {
      entries := (256 - (PORTS_AT - len) / 6 % 256) % 256;
    }
  }

  method BeginZ(len: nat) returns (at: int)
    ensures at == ZStart(len)
  {
    if len >= PORTS_AT {
      at := PORTS_AT + (len - PORTS_AT) / 2;
    } else {
      at := PORTS_AT - (PORTS_AT - len) / 2;
    }
  }

  /** The three bytes of a port. */
  method ReadPort(src: array<byte>, at: nat, ghost from: nat, ghost i: nat, ghost count: nat) returns (p: Port)
    requires i < count && at == from + 3 * i && from + 3 * count <= src.Length
    ensures p == PortsFrom(src[..], from, count)[i]
  {
    p := Port(src[at], src[at + 1], src[at + 2]);
  }
}
