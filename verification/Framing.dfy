/** The I3 wire format: octet stuffing (section 4.2 of RFC 1662, with the codes 0x5e and 0x5d)
    between two flags, and the check field inside it. */
module Framing {
  import opened Register
  import Crc16

  const FLAG: byte := 0x7e
  const ESC: byte := 0x7d
  const FLAG_CODE: byte := 0x5e
  const ESC_CODE: byte := 0x5d

  function Stuff(b: byte): seq<byte> {
    if b == FLAG then [ESC, FLAG_CODE] else if b == ESC then [ESC, ESC_CODE] else [b]
  }

  function Escape(s: seq<byte>): seq<byte> {
    if s == [] then [] else Stuff(s[0]) + Escape(s[1..])
  }

  /** Which of the two decoders: the socket decoders keep an escape that is followed by neither
      code, the one between two racks drops it. */
  datatype LoneEscape = Keep | Drop

  function Lone(mode: LoneEscape): seq<byte> {
    if mode == Keep then [ESC] else []
  }

  /** How many bytes the decoders take at once, and what they put out for them; `next` is the
      byte behind s, which they look at when s is a single escape. */
  function Taken(s: seq<byte>, next: byte): (n: nat)
    requires s != []
    ensures 1 <= n <= |s|
  {
    var code := if |s| > 1 then s[1] else next;
    if s[0] == ESC && (code == FLAG_CODE || code == ESC_CODE) && |s| > 1 then 2 else 1
  }

  function Put(mode: LoneEscape, s: seq<byte>, next: byte): seq<byte>
    requires s != []
  {
    var code := if |s| > 1 then s[1] else next;
    if s[0] != ESC then [s[0]]
    else if code == FLAG_CODE then [FLAG]
    else if code == ESC_CODE then [ESC]
    else Lone(mode)
  }

  function Unescape(mode: LoneEscape, s: seq<byte>, next: byte): seq<byte>
    decreases |s|
  {
    if s == [] then [] else Put(mode, s, next) + Unescape(mode, s[Taken(s, next)..], next)
  }

  lemma {:induction false} EscapeSnoc(s: seq<byte>, b: byte)
    ensures Escape(s + [b]) == Escape(s) + Stuff(b)
    decreases |s|
  {
    if s == [] {
      assert s + [b] == [b];
      assert [b][1..] == [];
    } else {
      assert (s + [b])[1..] == s[1..] + [b];
      EscapeSnoc(s[1..], b);
    }
  }

  lemma UnescapeOne(mode: LoneEscape, b: byte, t: seq<byte>, next: byte)
    ensures Unescape(mode, Stuff(b) + t, next) == [b] + Unescape(mode, t, next)
  {
    var u := Stuff(b) + t;
    if b == FLAG || b == ESC {
      assert u[2..] == t;
    } else {
      assert u[1..] == t;
    }
  }

  /** Both decoders undo the encoder, whatever follows. */
  lemma {:induction false} UnescapeOfEscape(mode: LoneEscape, s: seq<byte>, next: byte)
    ensures Unescape(mode, Escape(s), next) == s
    decreases |s|
  {
    if s != [] {
      UnescapeOne(mode, s[0], Escape(s[1..]), next);
      UnescapeOfEscape(mode, s[1..], next);
    }
  }

  /** Stuffing hides every flag and at most doubles the length. */
  lemma {:induction false} EscapeHidesFlags(s: seq<byte>)
    ensures FLAG !in Escape(s) && |s| <= |Escape(s)| <= 2 * |s|
    decreases |s|
  {
    if s != [] {
      EscapeHidesFlags(s[1..]);
    }
  }

  /** Escapes that stand in front of neither code. */
  function LoneEscapes(s: seq<byte>, next: byte): nat
    decreases |s|
  {
    if s == [] then 0
    else (if Put(Drop, s, next) == [] then 1 else 0) + LoneEscapes(s[Taken(s, next)..], next)
  }

  lemma {:induction false} LoneEscapesCounted(s: seq<byte>, next: byte)
    ensures |Unescape(Keep, s, next)| == |Unescape(Drop, s, next)| + LoneEscapes(s, next)
    ensures LoneEscapes(s, next) == 0 ==> Unescape(Keep, s, next) == Unescape(Drop, s, next)
    decreases |s|
  {
    if s != [] {
      LoneEscapesCounted(s[Taken(s, next)..], next);
    }
  }

  /** The two decoders agree on exactly the inputs without a lone escape. */
  lemma DecodersAgree(s: seq<byte>, next: byte)
    ensures Unescape(Keep, s, next) == Unescape(Drop, s, next) <==> LoneEscapes(s, next) == 0
  {
    LoneEscapesCounted(s, next);
  }

  /** The codes on the wire: 7d 5e stands for the flag, 7d 5d for the escape, any other byte for itself. */
  lemma CodesSent(s: seq<byte>, b: byte)
    ensures Escape(s + [b]) == Escape(s) + if b == 0x7e then [0x7d, 0x5e] else if b == 0x7d then [0x7d, 0x5d] else [b]
  {
    EscapeSnoc(s, b);
  }

  /** What the decoders make of them, and of an escape with another byte behind it. */
  lemma CodesReceived(mode: LoneEscape, b: byte, s: seq<byte>, next: byte)
    ensures Unescape(mode, [0x7d, 0x5e] + s, next) == [0x7e] + Unescape(mode, s, next)
    ensures Unescape(mode, [0x7d, 0x5d] + s, next) == [0x7d] + Unescape(mode, s, next)
    ensures b != 0x7d ==> Unescape(mode, [b] + s, next) == [b] + Unescape(mode, s, next)
    ensures b != 0x5e && b != 0x5d ==>
      Unescape(mode, [0x7d, b] + s, next) == (if mode == Keep then [0x7d] else []) + Unescape(mode, [b] + s, next)
  {
    assert ([0x7d, 0x5e] + s)[2..] == s && ([0x7d, 0x5d] + s)[2..] == s && ([b] + s)[1..] == s;
    assert ([0x7d, b] + s)[1..] == [b] + s;
  }

  // Whole frames.

  function Encoded(frame: seq<byte>): seq<byte>
    requires |frame| >= 2
  {
    [FLAG] + Escape(frame[1..|frame| - 1]) + [FLAG]
  }

  function Decoded(mode: LoneEscape, wire: seq<byte>): seq<byte>
    requires |wire| >= 2
  {
    [FLAG] + Unescape(mode, wire[1..|wire| - 1], wire[|wire| - 1]) + [FLAG]
  }

  /** A frame as the senders build it: flag, body, check value low byte first, flag. */
  function Seal(body: seq<byte>): seq<byte> {
    var crc := Crc16.Crc(body);
    [FLAG] + body + [LowByte(crc), HighByte(crc)] + [FLAG]
  }

  function LowByte(crc: bv16): byte {
    (crc & 0xff) as byte
  }

  function HighByte(crc: bv16): byte {
    (crc >> 8) as byte
  }

  lemma WordOfBytes(crc: bv16)
    ensures Crc16.Word(LowByte(crc), HighByte(crc)) == crc
  {
  }

  lemma SealAccepted(body: seq<byte>)
    ensures |Seal(body)| == |body| + 4 && Crc16.Accepts(Seal(body))
  {
    var f := Seal(body);
    assert f[1..|f| - 3] == body;
    WordOfBytes(Crc16.Crc(body));
  }

  /** A sealed frame: the check value lies behind the body, low byte first, and flags at both ends. */
  lemma SealLayout(body: seq<byte>)
    ensures var f, n := Seal(body), |body|;
      && |f| == n + 4 && f[0] == 0x7e && f[1..n + 1] == body && f[n + 3] == 0x7e
      && f[n + 1] as bv16 == Crc16.Crc(body) & 0xff && f[n + 2] as bv16 == Crc16.Crc(body) >> 8
  {
    Halves(Crc16.Crc(body));
  }

  lemma Halves(c: bv16)
    ensures LowByte(c) as bv16 == c & 0xff && HighByte(c) as bv16 == c >> 8
  {
  }

  /** End to end. Every body that is sealed, stuffed and sent arrives, through either decoder, as
      the identical frame, and the check accepts it; on the wire the flag marks the two ends and
      nothing else. */
  lemma EndToEnd(mode: LoneEscape, body: seq<byte>)
    ensures Decoded(mode, Encoded(Seal(body))) == Seal(body) && Crc16.Accepts(Seal(body))
    ensures forall i :: 0 < i < |Encoded(Seal(body))| - 1 ==> Encoded(Seal(body))[i] != FLAG
    ensures |Encoded(Seal(body))| <= 2 * (|body| + 2) + 2
  {
    SealAccepted(body);
    var f := Seal(body);
    var inner := f[1..|f| - 1];
    var wire := Encoded(f);
    assert wire[1..|wire| - 1] == Escape(inner);
    EscapeHidesFlags(inner);
    UnescapeOfEscape(mode, inner, FLAG);
    assert f == [FLAG] + inner + [FLAG];
  }

  method StuffInto(b: byte, out: array<byte>, n: nat) returns (m: nat)
    requires n + 2 <= out.Length
    modifies out
    ensures m == n + |Stuff(b)| && out[..m] == old(out[..n]) + Stuff(b)
    ensures forall k :: n + 2 <= k < out.Length ==> out[k] == old(out[k])
  {
    if b == FLAG {
      out[n], out[n + 1] := ESC, FLAG_CODE;
      m := n + 2;
    } else if b == ESC {
      out[n], out[n + 1] := ESC, ESC_CODE;
      m := n + 2;
    } else {
      out[n] := b;
      m := n + 1;
    }
  }

  /** old_version_data_2_new_i3_data_format: the stuffing alone, behind what `out` holds in front
      of position at. */
  method EncodeInner(data: array<byte>, from: nat, len: nat, out: array<byte>, at: nat) returns (n: nat)
    requires data != out && from + len <= data.Length && at + 2 * len <= out.Length && len < 0x8000
    modifies out
    ensures n <= 2 * len && out[..at + n] == old(out[..at]) + Escape(data[from..from + len])
    ensures forall k :: at + 2 * len <= k < out.Length ==> out[k] == old(out[k])
  {
    var m := at;
    assert data[from..from + 0] == [];
    for i := 0 to len
      invariant at <= m <= at + 2 * i
      invariant out[..m] == old(out[..at]) + Escape(data[from..from + i])
      invariant forall k :: at + 2 * len <= k < out.Length ==> out[k] == old(out[k])
    {
      EscapeSnoc(data[from..from + i], data[from + i]);
      assert data[from..from + i + 1] == data[from..from + i] + [data[from + i]];
      m := StuffInto(data[from + i], out, m);
    }
    n := m - at;
  }

  /** transform_old_data_format_to_new_protocol_fromat and its copies: everything but the first
      byte up to len is stuffed between two flags. The running index is 16 bits wide. */
  method EncodeFrame(data: array<byte>, len: nat, out: array<byte>) returns (n: nat)
    requires data != out && 1 <= len <= data.Length && 2 * len <= out.Length && len < 0x8000
    modifies out
    ensures 2 <= n <= 2 * len && out[..n] == [FLAG] + Escape(data[1..len]) + [FLAG]
  {
    out[0] := FLAG;
    n := EncodeInner(data, 1, len - 1, out, 1);
    n := n + 1;
    out[n] := FLAG;
    n := n + 1;
  }

  method DecodeOne(mode: LoneEscape, wire: array<byte>, i: nat, end: nat, out: array<byte>, n: nat)
    returns (i': nat, n': nat)
    requires wire != out && i < end < wire.Length && n < out.Length
    modifies out
    ensures i < i' <= end + 1 && n <= n' <= n + 1
    ensures (if i' <= end then i' else end) == i + Taken(wire[i..end], wire[end])
    ensures out[..n'] == old(out[..n]) + Put(mode, wire[i..end], wire[end])
  {
    var code := wire[i + 1];
    assert wire[i..end][0] == wire[i] && (i + 1 < end ==> wire[i..end][1] == code);
    i', n' := i + 1, n + 1;
    if wire[i] != ESC {
      out[n] := wire[i];
    } else if code == FLAG_CODE {
      out[n] := FLAG;
      i' := i + 2;
    } else if code == ESC_CODE {
      out[n] := ESC;
      i' := i + 2;
    } else if mode == Keep {
      out[n] := wire[i];
    } else {
      n' := n;
    }
  }

  lemma DecodeTurn(mode: LoneEscape, s: seq<byte>, t: seq<byte>, n: nat, next: byte, out: seq<byte>)
    requires s != [] && n == Taken(s, next) && t == s[n..]
    ensures (out + Put(mode, s, next)) + Unescape(mode, t, next) == out + Unescape(mode, s, next)
  {
  }

  /** The decoder loops: net_socket_i3_recv_analyse_protocol and mobile_socket_i3_recv_analyse_protocol
      keep a lone escape, transform_jiajian_i3_protocol_data_to_local_old_protocol_data drops it. */
  method DecodeFrame(mode: LoneEscape, wire: array<byte>, len: nat, out: array<byte>) returns (n: nat)
    requires wire != out && 2 <= len <= wire.Length && len <= out.Length && len < 0x10000
    modifies out
    ensures n <= len && out[..n] == Decoded(mode, wire[..len])
  {
    out[0] := FLAG;
    n := 1;
    var i, end := 1, len - 1;
    ghost var all := Unescape(mode, wire[1..end], wire[end]);
    while i < end
      invariant 1 <= n <= i <= end + 1 && n <= end
      invariant out[..n] + Unescape(mode, if i < end then wire[i..end] else [], wire[end]) == [FLAG] + all
    {
      ghost var s := wire[i..end];
      ghost var before := out[..n];
      ghost var j := i;
      i, n := DecodeOne(mode, wire, i, end, out, n);
      ghost var t := if i < end then wire[i..end] else [];
      assert t == s[Taken(s, wire[end])..];
      DecodeTurn(mode, s, t, Taken(s, wire[end]), wire[end], before);
    }
    assert out[..n] + [] == out[..n];
    out[n] := FLAG;
    n := n + 1;
    assert wire[..len][1..len - 1] == wire[1..end];
  }
}
