/** The collected port records of all frames and their upload in packets, each sent until it is
    acknowledged: module_resource_2.c. */
module ResourceUpload {
  import opened Register
  import Crc16
  import Framing

  const FRAMES := 8
  const START := 114
  const RECORD := 2520
  const INFO_SIZE := 20354
  const TOTAL := 20274
  const PACKETS := 20
  const CHUNK := 1024
  const BOARD := 114

  type Info = s: seq<byte> | |s| == INFO_SIZE witness seq(INFO_SIZE, i => 0)
  type Record = s: seq<byte> | |s| == RECORD witness seq(RECORD, i => 0)
  type Board = s: seq<byte> | |s| == BOARD witness seq(BOARD, i => 0)

  // Slots of the frames

  function SlotAt(j: nat): nat {
    START + j * RECORD
  }

  function Slot(info: Info, j: nat): Record
    requires j < FRAMES
  {
    info[SlotAt(j)..SlotAt(j) + RECORD]
  }

  function Slots(info: Info, j: nat): seq<byte>
    requires j <= FRAMES
  {
    if j == 0 then [] else Slots(info, j - 1) + Slot(info, j - 1)
  }

  /** The slots lie side by side and cover what is uploaded. */
  lemma {:induction false} SlotsCover(info: Info, j: nat)
    requires j <= FRAMES
    ensures Slots(info, j) == info[START..SlotAt(j)] && SlotAt(FRAMES) == TOTAL
  {
    if j > 0 {
      SlotsCover(info, j - 1);
      assert info[START..SlotAt(j)] == info[START..SlotAt(j - 1)] + info[SlotAt(j - 1)..SlotAt(j)];
    }
  }

  function Stored(info: Info, j: nat, r: Record): Info
    requires j < FRAMES
  {
    info[..SlotAt(j)] + r + info[SlotAt(j) + RECORD..]
  }

  /** Storing a frame's record leaves the records of all other frames. */
  lemma StoredSlot(info: Info, j: nat, r: Record, i: nat)
    requires j < FRAMES && i < FRAMES
    ensures Slot(Stored(info, j, r), i) == if i == j then r else Slot(info, i)
  {
    var info' := Stored(info, j, r);
    if i != j {
      assert forall k :: SlotAt(i) <= k < SlotAt(i) + RECORD ==> info'[k] == info[k];
    }
  }

  // Packets

  function Payload(info: Info, k: nat): seq<byte>
    requires k < PACKETS
  {
    if k == 0 then info[START..CHUNK]
    else if k == PACKETS - 1 then info[k * CHUNK..TOTAL]
    else info[k * CHUNK..(k + 1) * CHUNK]
  }

  /** What a packet says in front of its payload; the first one also describes the rack. */
  function Head(board: Board, k: nat): (h: seq<byte>)
    requires k < PACKETS
    ensures |h| == if k == 0 then 19 + BOARD else 19
  {
    [0x00, 0x10, k as byte, 0x00, 0x14, 0x00, 0, 0, 0, 0, 0, 0, 0, 0, 0, 0, 0x20, 0x11, 0x00] + if k == 0 then board else []
  }

  function Body(info: Info, board: Board, k: nat): seq<byte>
    requires k < PACKETS
  {
    Head(board, k) + Payload(info, k)
  }

  function Wire(info: Info, board: Board, k: nat): seq<byte>
    requires k < PACKETS
  {
    Framing.Encoded(Framing.Seal(Body(info, board, k)))
  }

  /** The payload that the receiver finds behind the head. */
  function Received(board: Board, k: nat, wire: seq<byte>): seq<byte>
    requires k < PACKETS && |wire| >= 2
  {
    var f := Framing.Decoded(Framing.Keep, wire);
    var n := 1 + |Head(board, k)|;
    if n + 3 <= |f| then f[n..|f| - 3] else []
  }

  lemma ReceivedAsSent(info: Info, board: Board, k: nat)
    requires k < PACKETS
    ensures |Wire(info, board, k)| >= 2 && Received(board, k, Wire(info, board, k)) == Payload(info, k)
  {
    var body := Body(info, board, k);
    Framing.EndToEnd(Framing.Keep, body);
    SealedBody(body, Framing.Seal(body), |Head(board, k)|);
  }

  /** The frame that arrives passes its check and tells its own number and the number of packets. */
  lemma SaysWhich(info: Info, board: Board, k: nat, num: byte)
    requires k < PACKETS && num == k as byte
    ensures |Wire(info, board, k)| >= 2
    ensures var f := Framing.Decoded(Framing.Keep, Wire(info, board, k));
      |f| > 6 && Crc16.Accepts(f) && f[3] == num && f[4] == 0 && f[5] == 0x14 && f[6] == 0
  {
    var body := Body(info, board, k);
    Framing.EndToEnd(Framing.Keep, body);
    HeadSaysWhich(board, k, num);
    SealedAt(body, Framing.Seal(body), Head(board, k));
  }

  /** The body of a packet, byte by byte: version, number, count, command, and the data of the packet. */
  lemma BodyLayout(info: Info, board: Board, k: nat)
    requires k < 20
    ensures var b := Body(info, board, k);
      && |b| >= 19 && b[..6] == [0x00, 0x10, k as byte, 0x00, 0x14, 0x00] && b[6..16] == [0, 0, 0, 0, 0, 0, 0, 0, 0, 0]
      && b[16..19] == [0x20, 0x11, 0x00]
      && b[19..] == if k == 0 then board + info[114..1024] else if k == 19 then info[19456..20274] else info[1024 * k..1024 * k + 1024]
  {
    var h := Head(board, k);
    assert Body(info, board, k)[..19] == h[..19];
    assert h[16..19] == [0x20, 0x11, 0x00];
  }

  lemma HeadSaysWhich(board: Board, k: nat, num: byte)
    requires k < PACKETS && num == k as byte
    ensures var h := Head(board, k); h[2] == num && h[3] == 0 && h[4] == 0x14 && h[5] == 0
  {
  }

  lemma SealedAt(body: seq<byte>, f: seq<byte>, h: seq<byte>)
    requires f == Framing.Seal(body) && 6 <= |h| <= |body| && body[..|h|] == h
    ensures |f| == |body| + 4 && f[3] == h[2] && f[4] == h[3] && f[5] == h[4] && f[6] == h[5]
  {
    assert f[1..|f| - 3] == body;
    assert forall i :: 0 <= i < |h| ==> f[1 + i] == body[..|h|][i];
  }

  lemma SealedBody(body: seq<byte>, f: seq<byte>, n: nat)
    requires f == Framing.Seal(body) && n <= |body|
    ensures |f| == |body| + 4 && f[1 + n..|f| - 3] == body[n..]
  {
    assert f[1..|f| - 3] == body;
  }

  // The exchange

  /** What comes of a packet: it cannot be sent, no answer can be received, or an answer with a code
      comes back. */
  datatype Outcome = NotSent | NoAnswer | Answer(code: byte)

  datatype State = State(num: nat, sent: seq<nat>, stopped: bool)

  const FRESH := State(0, [], false)

  /** One turn of the packet loop. Only the first packet gives up when no answer can be received. */
  function Turn(s: State, o: Outcome): State {
    if s.stopped || s.num >= PACKETS then s
    else match o
      case NotSent => s.(stopped := true)
      case NoAnswer => State(s.num, s.sent + [s.num], s.num == 0)
      case Answer(code) => State(if code == 0 then s.num + 1 else s.num, s.sent + [s.num], false)
  }

  /** What one more outcome does to an exchange: the number grows exactly on an answer with code 0;
      a packet goes out unless it cannot be sent; the exchange stops when it cannot, or when the first
      packet is not answered. Once stopped, or after packet 19, nothing more happens. */
  lemma TurnExactly(os: seq<Outcome>, o: Outcome)
    ensures var s, s' := Turns(os), Turns(os + [o]);
      var on := !s.stopped && s.num < 20;
      && (s'.num == s.num + 1 <==> on && o == Answer(0)) && s.num <= s'.num <= s.num + 1
      && s'.sent == (if on && o != NotSent then s.sent + [s.num] else s.sent)
      && (s'.stopped <==> s.stopped || (on && (o == NotSent || (o == NoAnswer && s.num == 0))))
  {
    assert (os + [o])[..|os|] == os;
  }

  function Turns(os: seq<Outcome>): State {
    if os == [] then FRESH else Turn(Turns(os[..|os| - 1]), os[|os| - 1])
  }

  /** Packet numbers start at 0 and never go back or leave one out. */
  ghost predicate Steady(sent: seq<nat>) {
    (sent != [] ==> sent[0] == 0)
    && forall i :: 0 <= i < |sent| - 1 ==> sent[i] <= sent[i + 1] <= sent[i] + 1
  }

  ghost predicate Inv(s: State) {
    && Steady(s.sent) && s.num <= PACKETS
    && (if s.sent == [] then s.num == 0 else s.sent[|s.sent| - 1] <= s.num <= s.sent[|s.sent| - 1] + 1)
    && (s.sent != [] ==> s.sent[|s.sent| - 1] < PACKETS)
  }

  lemma {:induction false} TurnsSteady(os: seq<Outcome>)
    ensures Inv(Turns(os))
  {
    if os != [] {
      TurnsSteady(os[..|os| - 1]);
    }
  }

  /** The numbers that were sent, each at its first copy. */
  function FirstCopies(sent: seq<nat>): seq<nat> {
    if sent == [] then []
    else
      var n := |sent| - 1;
      FirstCopies(sent[..n]) + if sent[n] in sent[..n] then [] else [sent[n]]
  }

  function Upto(n: nat): seq<nat> {
    if n == 0 then [] else Upto(n - 1) + [n - 1]
  }

  lemma {:induction false} SteadyMembers(sent: seq<nat>, k: nat)
    requires Steady(sent) && sent != []
    ensures k in sent <==> k <= sent[|sent| - 1]
  {
    var n := |sent| - 1;
    if n == 0 {
      assert sent == [0];
    } else {
      var front := sent[..n];
      assert sent == front + [sent[n]];
      SteadyMembers(front, k);
    }
  }

  lemma {:induction false} SteadyCopies(sent: seq<nat>)
    requires Steady(sent) && sent != []
    ensures FirstCopies(sent) == Upto(sent[|sent| - 1] + 1)
  {
    var n := |sent| - 1;
    var front := sent[..n];
    if n == 0 {
      assert front == [] && sent[0] !in front;
      assert Upto(1) == [0];
    } else {
      SteadyCopies(front);
      SteadyMembers(front, sent[n]);
      assert FirstCopies(sent) == FirstCopies(front) + if sent[n] in front then [] else [sent[n]];
      assert sent[n] == front[n - 1] || sent[n] == front[n - 1] + 1;
    }
  }

  ghost predicate InRange(ks: seq<nat>) {
    forall i :: 0 <= i < |ks| ==> ks[i] < PACKETS
  }

  ghost function Payloads(info: Info, ks: seq<nat>): seq<byte>
    requires InRange(ks)
  {
    if ks == [] then [] else Payloads(info, ks[..|ks| - 1]) + Payload(info, ks[|ks| - 1])
  }

  lemma {:induction false} UptoInRange(n: nat)
    requires n <= PACKETS
    ensures |Upto(n)| == n && InRange(Upto(n))
  {
    if n > 0 {
      UptoInRange(n - 1);
    }
  }

  lemma {:induction false} PayloadsCover(info: Info, n: nat)
    requires 0 < n <= PACKETS
    ensures InRange(Upto(n)) && Payloads(info, Upto(n)) == info[START..if n == PACKETS then TOTAL else n * CHUNK]
  {
    UptoInRange(n);
    var ks := Upto(n);
    assert ks[..n - 1] == Upto(n - 1) && ks[n - 1] == n - 1;
    if n == 1 {
      assert Payloads(info, []) == [];
    } else {
      PayloadsCover(info, n - 1);
      var end := if n == PACKETS then TOTAL else n * CHUNK;
      assert info[START..end] == info[START..(n - 1) * CHUNK] + info[(n - 1) * CHUNK..end];
    }
  }

  lemma CopiesCover(info: Info, sent: seq<nat>, n: nat)
    requires Steady(sent) && sent != [] && sent[|sent| - 1] + 1 == n == PACKETS
    ensures InRange(FirstCopies(sent)) && Payloads(info, FirstCopies(sent)) == info[START..TOTAL]
  {
    SteadyCopies(sent);
    PayloadsCover(info, n);
  }

  /** Any exchange: the packet numbers start at 0 and grow without gaps. When all packets have been
      acknowledged, the first copies carry, one after the other, the records of all frames. */
  lemma Uploaded(info: Info, os: seq<Outcome>)
    ensures Steady(Turns(os).sent)
    ensures Turns(os).num == PACKETS ==>
      InRange(FirstCopies(Turns(os).sent)) && Payloads(info, FirstCopies(Turns(os).sent)) == Slots(info, FRAMES)
  {
    TurnsSteady(os);
    if Turns(os).num == PACKETS {
      CopiesCover(info, Turns(os).sent, PACKETS);
      SlotsCover(info, FRAMES);
    }
  }

  /** The records, and the buffers in which a packet is made. */
  class Uploader {
    const info: array<byte>
    const olddat: array<byte>
    const datbuf: array<byte>

    ghost predicate Shaped()
      reads this
    {
      && info != olddat && info != datbuf && olddat != datbuf
      && info.Length == INFO_SIZE && olddat.Length == 1100 && datbuf.Length == 2200
    }

    constructor ()
      ensures Shaped() && fresh(info) && fresh(olddat) && fresh(datbuf)
    {
      info, olddat, datbuf := new byte[INFO_SIZE](i => 0), new byte[1100], new byte[2200];
    }

    /** The record of a frame, as its board sent it: zkb_rxBuf_data_part. Frames are counted from 1. */
    method StoreRecord(jkbNum: nat, rxBuf: array<byte>)
      requires Shaped() && 1 <= jkbNum <= FRAMES && rxBuf != info && rxBuf.Length >= 6 + RECORD
      modifies info
      ensures info[..] == Stored(old(info[..]), jkbNum - 1, rxBuf[6..6 + RECORD])
      ensures var at := 114 + 2520 * (jkbNum - 1); info[..][at..at + 2520] == rxBuf[6..2526]
    {
      var at := (jkbNum - 1) * RECORD + START;
      forall i | 0 <= i < RECORD {
        info[at + i] := rxBuf[6 + i];
      }
    }

    /** Bytes into the packet. */
    method Put(at: nat, piece: seq<byte>) returns (next: nat)
      requires Shaped() && at + |piece| <= olddat.Length
      modifies olddat
      ensures next == at + |piece| && olddat[..next] == old(olddat[..at]) + piece
    {
      forall i | 0 <= i < |piece| {
        olddat[at + i] := piece[i];
      }
      next := at + |piece|;
    }

    /** The whole packet before the check value. */
    method Fill(board: Board, k: nat) returns (index: nat)
      requires Shaped() && k < PACKETS
      modifies olddat
      ensures index == 1 + |Body(info[..], board, k)| <= 1044 && olddat[..index] == [Framing.FLAG] + Body(info[..], board, k)
    {
      index := Put(0, [Framing.FLAG]);
      index := Put(index, Head(board, k));
      if k == 0 {
        index := Put(index, info[START..START + 910]);
      } else if k == PACKETS - 1 {
        var nbytes := TOTAL - k * CHUNK;
        index := Put(index, info[k * CHUNK..k * CHUNK + nbytes]);
      } else {
        index := Put(index, info[k * CHUNK..k * CHUNK + 1024]);
      }
      ghost var body := Body(info[..], board, k);
      assert olddat[..index] == [Framing.FLAG] + body;
    }

    /** The check value and the closing flag behind the packet. */
    method Close(index: nat, ghost body: seq<byte>) returns (next: nat)
      requires Shaped() && index == 1 + |body| <= 1044 && olddat[..index] == [Framing.FLAG] + body
      modifies olddat
      ensures next == index + 3 && olddat[..next] == Framing.Seal(body)
    {
      assert olddat[1..1 + (index - 1)] == body;
      var crc := Crc16.Calc(olddat, 1, index - 1);
      next := Put(index, [Framing.LowByte(crc), Framing.HighByte(crc), Framing.FLAG]);
    }

    /** The sealed packet, stuffed between two flags. */
    method Encode(index: nat, ghost frame: seq<byte>) returns (wire: seq<byte>)
      requires Shaped() && 3 <= index <= 1047 && olddat[..index] == frame
      modifies datbuf
      ensures wire == Framing.Encoded(frame)
    {
      assert olddat[1..1 + (index - 2)] == frame[1..|frame| - 1];
      datbuf[0] := Framing.FLAG;
      var ssize := Framing.EncodeInner(olddat, 1, index - 2, datbuf, 1);
      datbuf[1 + ssize] := Framing.FLAG;
      wire := datbuf[..ssize + 2];
    }

    /** One packet, ready to be sent. */
    method Build(board: Board, k: nat) returns (wire: seq<byte>)
      requires Shaped() && k < PACKETS
      modifies olddat, datbuf
      ensures wire == Wire(info[..], board, k)
    {
      ghost var body := Body(info[..], board, k);
      var index := Fill(board, k);
      index := Close(index, body);
      wire := Encode(index, Framing.Seal(body));
    }

    /** The packet loop of pthread_collect_data_upload_to_webmaster, as far as the given outcomes go:
        what has been sent. */
    method Upload(board: Board, outcomes: seq<Outcome>) returns (wires: seq<seq<byte>>)
      requires Shaped()
      modifies olddat, datbuf
      ensures var sent := Turns(outcomes).sent;
        |wires| == |sent| && forall i :: 0 <= i < |sent| ==> sent[i] < PACKETS && wires[i] == Wire(info[..], board, sent[i])
    {
      wires := [];
      var packetNum := 0;
      var going := true;
      ghost var s := FRESH;
      for i := 0 to |outcomes|
        invariant s == Turns(outcomes[..i]) && packetNum == s.num && going == !s.stopped
        invariant |wires| == |s.sent| && info[..] == old(info[..])
        invariant forall j :: 0 <= j < |wires| ==> s.sent[j] < PACKETS && wires[j] == Wire(info[..], board, s.sent[j])
      {
        assert outcomes[..i + 1][..i] == outcomes[..i];
        s := Turn(s, outcomes[i]);
        if going && packetNum < PACKETS {
          var wire := Build(board, packetNum);
          match outcomes[i]
          case NotSent =>
            going := false;
          case NoAnswer =>
            wires := wires + [wire];
            going := packetNum != 0;
          case Answer(code) =>
            wires := wires + [wire];
            if code == 0 {
              packetNum := packetNum + 1;
            }
        }
      }
      assert outcomes[..|outcomes|] == outcomes;
    }
  }
}
