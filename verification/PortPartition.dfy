/** How a batch order is split into one command for each frame: Preparing_cmd0d_to_sim3u146_Boards of
    lib_orders/Jianei_Order_new_5_ports.c. */
module PortPartition {
  import opened Register
  import opened OrderFrame
  import BatchOrder
  import MisreadOrder
  import Crc8

  const FRAMES := 16
  const HEADER := 6
  const CMD_SIZE := 200

  /** A port as it stands in a command, with the number of its pair. */
  datatype Listed = Listed(port: Port, pair: byte)

  /** The numbers of the frames. */
  const FRAME_NUMBERS: seq<byte> := [1, 2, 3, 4, 5, 6, 7, 8, 9, 10, 11, 12, 13, 14, 15, 16]

  /** The pair of the port at place i, when the list holds n pairs: first all A ends, then all Z ends. */
  function PairOf(i: nat, n: nat): nat {
    if i + 1 > n then i + 1 - n else i + 1
  }

  function Item(ports: seq<Port>, n: nat, i: nat): Listed
    requires i < |ports| <= 2 * ENTRIES
  {
    Listed(ports[i], PairOf(i, n) as byte)
  }

  /** The whole list with its pair numbers, and the frame number of each port. */
  function Items(ports: seq<Port>, n: nat): (r: seq<Listed>)
    requires |ports| <= 2 * ENTRIES
    ensures |r| == |ports|
  {
    seq(|ports|, i requires 0 <= i < |ports| => Item(ports, n, i))
  }

  function Frames(ports: seq<Port>): (r: seq<byte>)
    ensures |r| == |ports|
  {
    seq(|ports|, i requires 0 <= i < |ports| => ports[i].frame)
  }

  /** The first k items whose key is f, in order. */
  function Pick<T, K(==)>(items: seq<T>, keys: seq<K>, f: K, k: nat): (r: seq<T>)
    requires k <= |items| == |keys|
    ensures |r| <= k
  {
    if k == 0 then []
    else if keys[k - 1] == f then Pick(items, keys, f, k - 1) + [items[k - 1]]
    else Pick(items, keys, f, k - 1)
  }

  /** The places where the key is f among the first k, in order. */
  function Places<K(==)>(keys: seq<K>, f: K, k: nat): (r: seq<nat>)
    requires k <= |keys|
    ensures forall j :: 0 <= j < |r| ==> r[j] < k && keys[r[j]] == f
    ensures forall i, j :: 0 <= i < j < |r| ==> r[i] < r[j]
    ensures forall i :: 0 <= i < k && keys[i] == f ==> i in r
  {
    if k == 0 then []
    else Places(keys, f, k - 1) + (if keys[k - 1] == f then [k - 1] else [])
  }

  /** Order is kept: picked item j is the item at the j-th place of its key. */
  lemma {:induction false} InOrder<T, K>(items: seq<T>, keys: seq<K>, f: K, k: nat)
    requires k <= |items| == |keys|
    ensures var m, ps := Pick(items, keys, f, k), Places(keys, f, k);
      |m| == |ps| && forall j :: 0 <= j < |m| ==> m[j] == items[ps[j]]
  {
    if k > 0 {
      InOrder(items, keys, f, k - 1);
    }
  }

  /** What is picked for each of some keys, one after the other. */
  function Together<T, K(==)>(items: seq<T>, keys: seq<K>, fs: seq<K>, k: nat): seq<T>
    requires k <= |items| == |keys|
  {
    if fs == [] then [] else Pick(items, keys, fs[0], k) + Together(items, keys, fs[1..], k)
  }

  ghost predicate Distinct<K>(fs: seq<K>) {
    forall i, j :: 0 <= i < j < |fs| ==> fs[i] != fs[j]
  }

  lemma {:induction false} OneMore<T, K>(items: seq<T>, keys: seq<K>, fs: seq<K>, k: nat)
    requires 0 < k <= |items| == |keys| && Distinct(fs)
    ensures multiset(Together(items, keys, fs, k)) == multiset(Together(items, keys, fs, k - 1))
      + if keys[k - 1] in fs then multiset{items[k - 1]} else multiset{}
  {
    if fs != [] {
      OneMore(items, keys, fs[1..], k);
      assert keys[k - 1] in fs <==> keys[k - 1] == fs[0] || keys[k - 1] in fs[1..];
    }
  }

  lemma {:induction false} NothingYet<T, K>(items: seq<T>, keys: seq<K>, fs: seq<K>)
    requires |items| == |keys|
    ensures Together(items, keys, fs, 0) == []
  {
    if fs != [] {
      NothingYet(items, keys, fs[1..]);
    }
  }

  /** Nothing is lost and nothing is doubled, when every key is one of those picked for. */
  lemma {:induction false} Conserved<T, K>(items: seq<T>, keys: seq<K>, fs: seq<K>, k: nat)
    requires k <= |items| == |keys| && Distinct(fs) && forall i :: 0 <= i < k ==> keys[i] in fs
    ensures multiset(Together(items, keys, fs, k)) == multiset(items[..k])
  {
    if k == 0 {
      NothingYet(items, keys, fs);
    } else {
      Conserved(items, keys, fs, k - 1);
      OneMore(items, keys, fs, k);
      OneLonger(items, k);
    }
  }

  lemma OneLonger<T>(s: seq<T>, k: nat)
    requires 0 < k <= |s|
    ensures multiset(s[..k]) == multiset(s[..k - 1]) + multiset{s[k - 1]}
  {
    assert s[..k] == s[..k - 1] + [s[k - 1]];
  }

  function Flat(items: seq<Listed>): (r: seq<byte>)
    ensures |r| == 4 * |items|
  {
    if items == [] then [] else
      var last := items[|items| - 1];
      Flat(items[..|items| - 1]) + [last.port.frame, last.port.tray, last.port.number, last.pair]
  }

  function Front(items: seq<Listed>): seq<byte>
    requires |items| <= 2 * ENTRIES
  {
    [0x7e, 0x00, LengthByte(|items|), 0x0d, 0x07, 0x07] + Flat(items)
  }

  /** The command with the given ports; its length field counts the bytes before the check byte. */
  function Command(items: seq<Listed>): seq<byte>
    requires |items| <= 2 * ENTRIES
  {
    Front(items) + [Crc8.Crc(Front(items)), 0x5a]
  }

  /** A command, byte by byte: start, length, command code, and for each port frame, tray, number and pair. */
  lemma CommandLayout(items: seq<Listed>, j: nat)
    requires j < |items| <= 10
    ensures var c, at := Command(items), 6 + 4 * j;
      && |c| == 8 + 4 * |items| && c[..2] == [0x7e, 0x00] && c[3..6] == [0x0d, 0x07, 0x07] && c[|c| - 1] == 0x5a
      && c[at..at + 4] == [items[j].port.frame, items[j].port.tray, items[j].port.number, items[j].pair]
  {
    FlatAt(items, j);
    var c, f := Command(items), Flat(items);
    assert c[6 + 4 * j..6 + 4 * j + 4] == f[4 * j..4 * j + 4];
  }

  lemma {:induction false} FlatAt(items: seq<Listed>, j: nat)
    requires j < |items|
    ensures Flat(items)[4 * j..4 * j + 4] == [items[j].port.frame, items[j].port.tray, items[j].port.number, items[j].pair]
  {
    var n := |items| - 1;
    var front := Flat(items[..n]);
    if j < n {
      FlatAt(items[..n], j);
      assert Flat(items)[4 * j..4 * j + 4] == front[4 * j..4 * j + 4];
    }
  }

  /** The ports in a command, as a board reads them. */
  function Decode(s: seq<byte>): seq<Listed> {
    if |s| < 4 then [] else Decode(s[..|s| - 4]) + [Listed(Port(s[|s| - 4], s[|s| - 3], s[|s| - 2]), s[|s| - 1])]
  }

  lemma {:induction false} DecodeOfFlat(items: seq<Listed>)
    ensures Decode(Flat(items)) == items
  {
    if items != [] {
      var s, front, last := Flat(items), items[..|items| - 1], items[|items| - 1];
      DecodeOfFlat(front);
      assert s[..|s| - 4] == Flat(front);
      assert items == front + [last];
    }
  }

  /** The length byte of a command with k ports. */
  function LengthByte(k: nat): byte
    requires k <= 2 * ENTRIES
  {
    (HEADER + 4 * k) as byte
  }

  lemma LengthByteIsRight(k: nat)
    requires k <= 2 * ENTRIES
    ensures Crc8.Be16(0, LengthByte(k)) == HEADER + 4 * k
  {
    if k == 0 {
    } else if k == 1 {
    } else if k == 2 {
    } else if k == 3 {
    } else if k == 4 {
    } else if k == 5 {
    } else if k == 6 {
    } else if k == 7 {
    } else if k == 8 {
    } else if k == 9 {
    }
  }

  /** A board takes the command as correct, and finds these ports behind the header. */
  ghost predicate ReadsAs(c: seq<byte>, items: seq<Listed>) {
    && |c| >= HEADER && HEADER <= Crc8.Length(c) < |c| && Crc8.Accepts(c)
    && Decode(c[HEADER..Crc8.Length(c)]) == items
  }

  lemma CommandIsRead(items: seq<Listed>)
    requires |items| <= 2 * ENTRIES
    ensures ReadsAs(Command(items), items) && |Command(items)| == Crc8.Length(Command(items)) + 2
  {
    var c, front, len := Command(items), Front(items), HEADER + 4 * |items|;
    LengthByteIsRight(|items|);
    assert c[1] == 0 && c[2] == LengthByte(|items|);
    assert Crc8.Length(c) == len;
    assert c[..Crc8.Length(c)] == front;
    assert c[HEADER..Crc8.Length(c)] == Flat(items);
    DecodeOfFlat(items);
  }

  /** What belongs to a frame among the first k ports of the list. */
  function Mine(ports: seq<Port>, n: nat, frame: byte, k: nat): (r: seq<Listed>)
    requires k <= |ports| <= 2 * ENTRIES
    ensures |r| <= k
  {
    Pick(Items(ports, n), Frames(ports), frame, k)
  }

  /** The bytes of a command so far: nothing, or the header without its length and the ports. */
  function Draft(items: seq<Listed>): (r: seq<byte>)
    ensures |r| == if items == [] then 0 else HEADER + 4 * |items|
  {
    if items == [] then [] else [0x7e, 0x00, 0x00, 0x0d, 0x07, 0x07] + Flat(items)
  }

  lemma DraftSnoc(items: seq<Listed>, e: Listed, all: seq<Listed>)
    requires all == items + [e]
    ensures Draft(all) == (if items == [] then [0x7e, 0x00, 0x00, 0x0d, 0x07, 0x07] else Draft(items))
      + [e.port.frame, e.port.tray, e.port.number, e.pair]
  {
    assert all[..|all| - 1] == items;
    assert all[|all| - 1] == e;
  }

  /** Four bytes more at the end of the command. */
  method Put(cmd: array<byte>, ofs: nat, e: Listed) returns (next: nat)
    requires ofs + 4 <= cmd.Length
    modifies cmd
    ensures next == ofs + 4 && cmd[..next] == old(cmd[..ofs]) + [e.port.frame, e.port.tray, e.port.number, e.pair]
  {
    cmd[ofs], cmd[ofs + 1], cmd[ofs + 2], cmd[ofs + 3] := e.port.frame, e.port.tray, e.port.number, e.pair;
    next := ofs + 4;
  }

  method PutHeader(cmd: array<byte>) returns (ofs: nat)
    requires cmd.Length >= HEADER
    modifies cmd
    ensures ofs == HEADER && cmd[..ofs] == [0x7e, 0x00, 0x00, 0x0d, 0x07, 0x07]
  {
    cmd[0], cmd[1], cmd[2], cmd[3], cmd[4], cmd[5] := 0x7e, 0x00, 0x00, 0x0d, 0x07, 0x07;
    ofs := HEADER;
  }

  /** One port more in the command, which gets its header with the first one. */
  method Take(cmd: array<byte>, ofs: nat, e: Listed, ghost items: seq<Listed>) returns (next: nat)
    requires cmd.Length == CMD_SIZE && |items| < 2 * ENTRIES
    requires ofs == |Draft(items)| && cmd[..ofs] == Draft(items) && (ofs == 0 ==> cmd[0] == 0)
    modifies cmd
    ensures next == |Draft(items + [e])| && cmd[..next] == Draft(items + [e])
  {
    DraftSnoc(items, e, items + [e]);
    next := ofs;
    if cmd[0] == 0 {
      next := PutHeader(cmd);
    }
    next := Put(cmd, next, e);
  }

  /** How the ports of a frame add up along the list. */
  ghost predicate Growth(want: seq<seq<Listed>>, items: seq<Listed>, frame: byte) {
    && |want| == |items| + 1 && want[0] == []
    && (forall k {:trigger want[k]} :: 0 <= k <= |items| ==> |want[k]| <= k)
    && (forall k {:trigger items[k]} :: 0 <= k < |items| ==>
          want[k + 1] == if items[k].port.frame == frame then want[k] + [items[k]] else want[k])
  }

  lemma GrowthOfMine(ports: seq<Port>, n: nat, frame: byte) returns (want: seq<seq<Listed>>)
    requires |ports| <= 2 * ENTRIES
    ensures Growth(want, Items(ports, n), frame) && want[|ports|] == Mine(ports, n, frame, |ports|)
  {
    want := seq(|ports| + 1, k requires 0 <= k <= |ports| => Mine(ports, n, frame, k));
  }

  /** The number of the pair of the port that starts at the given place. */
  method PairNumber(start: nat, n: nat, ghost k: nat) returns (pair: byte)
    requires start == PORTS_AT + 3 * k && k < 2 * ENTRIES
    ensures pair == PairOf(k, n) as byte
  {
    var p := (start - PORTS_AT + 3) / 3;
    if p > n {
      p := p - n;
    }
    pair := p as byte;
  }

  lemma ItemAt(ports: seq<Port>, n: nat, k: nat)
    requires k < |ports| <= 2 * ENTRIES
    ensures Items(ports, n)[k] == Listed(ports[k], PairOf(k, n) as byte)
  {
  }

  /** The list of the source, with the pair numbers. */
  ghost predicate Lists(src: seq<byte>, count: nat, n: nat, items: seq<Listed>) {
    count <= 2 * ENTRIES && PORTS_AT + 3 * count <= |src| && items == Items(PortsOf(src, count), n)
  }

  /** The port that starts at the given place, as it is to stand in a command. */
  method Read(src: array<byte>, start: nat, ghost k: nat, ghost count: nat, n: nat, ghost items: seq<Listed>) returns (item: Listed)
    requires Lists(src[..], count, n, items) && start == PORTS_AT + 3 * k && k < count == |items|
    ensures item == items[k]
  {
    ItemAt(PortsOf(src[..], count), n, k);
    var pair := PairNumber(start, n, k);
    item := Listed(Port(src[start], src[start + 1], src[start + 2]), pair);
  }

  method ClearCommand(cmd: array<byte>)
    modifies cmd
    ensures forall i :: 0 <= i < cmd.Length ==> cmd[i] == 0
  {
    forall i | 0 <= i < cmd.Length {
      cmd[i] := 0;
    }
  }

  lemma NotYet(start: nat, len: nat, k: nat)
    requires start == PORTS_AT + 3 * k && k <= Walked(len)
    ensures start < len <==> k < Walked(len)
  {
  }

  /** A command that is built up from some ports. */
  ghost predicate Drafted(cmd: array<byte>, ofs: nat, items: seq<Listed>)
    reads cmd
  {
    cmd.Length == CMD_SIZE && ofs == |Draft(items)| <= CMD_SIZE && cmd[..ofs] == Draft(items) && (ofs == 0 ==> cmd[0] == 0)
  }

  /** One turn of the walk: the port belongs to the frame or not. */
  method Turn(src: array<byte>, ghost items: seq<Listed>, start: nat, ghost k: nat, ghost count: nat, n: nat, frame: byte,
              cmd: array<byte>, ofs: nat, ghost want: seq<seq<Listed>>) returns (next: nat)
    requires src != cmd && Lists(src[..], count, n, items) && start == PORTS_AT + 3 * k && k < count == |items|
    requires Growth(want, items, frame) && Drafted(cmd, ofs, want[k])
    modifies cmd
    ensures Drafted(cmd, next, want[k + 1])
  {
    next := ofs;
    var item := Read(src, start, k, count, n, items);
    if item.port.frame == frame {
      next := Take(cmd, ofs, item, want[k]);
    }
  }

  /** The walk through the list for one frame. */
  method Gather(src: array<byte>, ghost items: seq<Listed>, len: nat, ghost count: nat, n: nat, frame: byte,
                cmd: array<byte>, ghost want: seq<seq<Listed>>) returns (ofs: nat)
    requires src != cmd && cmd.Length == CMD_SIZE && count == Walked(len) <= 2 * ENTRIES
    requires Lists(src[..], count, n, items) && |items| == count && Growth(want, items, frame)
    modifies cmd
    ensures ofs == |Draft(want[count])| <= CMD_SIZE && cmd[..ofs] == Draft(want[count])
  {
    ClearCommand(cmd);
    ofs := 0;
    ghost var k := 0;
    var start := PORTS_AT;
    NotYet(start, len, k);
    while start < len
      invariant 0 <= k <= count && start == PORTS_AT + 3 * k && (start < len <==> k < count)
      invariant Drafted(cmd, ofs, want[k])
      decreases count - k
    {
      ofs := Turn(src, items, start, k, count, n, frame, cmd, ofs, want);
      start, k := start + 3, k + 1;
      NotYet(start, len, k);
    }
  }

  /** The draft and the finished front differ in the length alone. */
  lemma FrontOfDraft(items: seq<Listed>)
    requires 0 < |items| <= 2 * ENTRIES
    ensures Front(items) == Draft(items)[2 := LengthByte(|items|)]
  {
  }

  /** The length of a command, written into its third byte. */
  method PutLength(cmd: array<byte>, ofs: nat, len: byte, ghost draft: seq<byte>)
    requires 2 < ofs <= cmd.Length && cmd[..ofs] == draft
    modifies cmd
    ensures cmd[..ofs] == draft[2 := len]
  {
    cmd[2] := len;
  }

  /** The check byte and the end mark. */
  method PutEnd(cmd: array<byte>, ofs: nat, ghost front: seq<byte>)
    requires ofs + 2 <= cmd.Length && cmd[..ofs] == front
    modifies cmd
    ensures cmd[..ofs + 2] == front + [Crc8.Crc(front), 0x5a]
  {
    var crc := Crc8.Calc(cmd, 0, ofs);
    assert cmd[0..ofs] == front;
    cmd[ofs], cmd[ofs + 1] := crc, 0x5a;
    assert cmd[..ofs] == front;
  }

  method Close(cmd: array<byte>, ofs: nat, ghost items: seq<Listed>)
    requires 0 < |items| <= 2 * ENTRIES && ofs == |Draft(items)| && ofs + 2 <= cmd.Length && cmd[..ofs] == Draft(items)
    modifies cmd
    ensures cmd[..ofs + 2] == Command(items)
  {
    FrontOfDraft(items);
    PutLength(cmd, ofs, ofs as byte, Draft(items));
    PutEnd(cmd, ofs, Front(items));
  }

  /** The walk up to the given end stays in the buffer and within the room of a command. */
  ghost predicate Fits(src: seq<byte>, len: int) {
    Walked(len) <= 2 * ENTRIES && PORTS_AT + 3 * Walked(len) <= |src|
  }

  /** What a slot of txBuf holds afterwards: the bytes that were copied into it. */
  function Slot(ports: seq<Port>, n: nat, frame: byte, before: seq<byte>): seq<byte>
    requires |ports| <= 2 * ENTRIES
  {
    var items := Mine(ports, n, frame, |ports|);
    if items == [] then before else Command(items)
  }

  /** The slot of one frame: the new command, or what was there when no port of the list is in it. */
  method OneFrame(src: array<byte>, ghost ports: seq<Port>, len: nat, n: nat, frame: byte, cmd: array<byte>,
                  before: seq<byte>) returns (r: seq<byte>)
    requires src != cmd && Fits(src[..], len) && ports == PortsOf(src[..], Walked(len)) && cmd.Length == CMD_SIZE
    modifies cmd
    ensures r == Slot(ports, n, frame, before)
  {
    ghost var want := GrowthOfMine(ports, n, frame);
    ghost var count := Walked(len);
    var ofs := Gather(src, Items(ports, n), len, count, n, frame, cmd, want);
    if ofs == 0 {
      return before;
    }
    Close(cmd, ofs, want[count]);
    r := cmd[..ofs + 2];
  }

  /** The commands that wait for the boards, one slot for each frame. */
  class Uart {
    var txBuf: seq<seq<byte>>

    /** The commands of all frames that have ports in the list. */
    method AllFrames(src: array<byte>, ghost ports: seq<Port>, len: nat, n: nat, frames: seq<byte>)
      requires Fits(src[..], len) && ports == PortsOf(src[..], Walked(len)) && |txBuf| == |frames|
      modifies this
      ensures |txBuf| == |frames|
      ensures forall f :: 0 <= f < |frames| ==> txBuf[f] == Slot(ports, n, frames[f], old(txBuf[f]))
    {
      ghost var was := txBuf;
      ghost var goal := seq(|frames|, f requires 0 <= f < |frames| => Slot(ports, n, frames[f], was[f]));
      var cmd := new byte[CMD_SIZE];
      for f := 0 to |frames|
        invariant |txBuf| == |frames| && src[..] == old(src[..])
        invariant forall g :: f <= g < |frames| ==> txBuf[g] == was[g]
        invariant forall g :: 0 <= g < f ==> txBuf[g] == goal[g]
      {
        var slot := OneFrame(src, ports, len, n, frames[f], cmd, txBuf[f]);
        assert slot == goal[f];
        txBuf := txBuf[f := slot];
      }
    }

    /** Preparing_cmd0d_to_sim3u146_Boards: the commands of the ports that the program finds in the
        buffer, and the number of pairs that it counts. */
    method Partition(src: array<byte>, ghost n: nat) returns (entries: nat)
      requires Received(src[..], n) && n <= ENTRIES && |txBuf| == FRAMES
      modifies this
      ensures entries == Counted(ListEnd(src[..])) && |txBuf| == FRAMES && Splittable(src[..])
      ensures forall f :: 0 <= f < FRAMES ==>
        txBuf[f] == Slot(Found(src[..]), Counted(ListEnd(src[..])), FRAME_NUMBERS[f], old(txBuf[f]))
      // a slot whose frame has none of the ports keeps its bytes, any other gets a new command
      ensures forall f :: 0 <= f < 16 && Absent(Found(src[..]), f) ==> txBuf[f] == old(txBuf[f])
      ensures forall f :: 0 <= f < 16 && !Absent(Found(src[..]), f) ==> IsCommand(txBuf[f])
    {
      SplitFits(src[..], n);
      var len := DataLength(src, n);
      entries := CountPairs(len);
      ghost var was := txBuf;
      AllFrames(src, Found(src[..]), len, entries, FRAME_NUMBERS);
      ghost var now := txBuf;
      forall f | 0 <= f < 16
        ensures Absent(Found(src[..]), f) ==> now[f] == was[f]
        ensures !Absent(Found(src[..]), f) ==> IsCommand(now[f])
      {
        SlotByFrame(Found(src[..]), entries, f, was[f]);
      }
    }
  }

  /** No port of the list is in the frame of slot f; frames are counted from 1. */
  ghost predicate Absent(ports: seq<Port>, f: nat) {
    forall i :: 0 <= i < |ports| ==> ports[i].frame as int != f + 1
  }

  /** A command that a board takes as correct, with at least one port. */
  ghost predicate IsCommand(c: seq<byte>) {
    exists items :: items != [] && ReadsAs(c, items)
  }

  lemma SlotByFrame(ports: seq<Port>, n: nat, f: nat, before: seq<byte>)
    requires |ports| <= 2 * ENTRIES && f < 16
    ensures |FRAME_NUMBERS| == 16
    ensures Absent(ports, f) ==> Slot(ports, n, FRAME_NUMBERS[f], before) == before
    ensures !Absent(ports, f) ==> IsCommand(Slot(ports, n, FRAME_NUMBERS[f], before))
  {
    NumberOfSlot(f);
    var frame, items := FRAME_NUMBERS[f], Mine(ports, n, FRAME_NUMBERS[f], |ports|);
    SomeMine(ports, n, frame, |ports|);
    assert Absent(ports, f) <==> forall i :: 0 <= i < |ports| ==> ports[i].frame != frame;
    if items != [] {
      CommandIsRead(items);
    }
  }

  lemma NumberOfSlot(f: nat)
    requires f < 16
    ensures |FRAME_NUMBERS| == 16 && FRAME_NUMBERS[f] as int == f + 1
  {
  }

  lemma {:induction false} SomeMine(ports: seq<Port>, n: nat, frame: byte, k: nat)
    requires k <= |ports| <= 2 * ENTRIES
    ensures Mine(ports, n, frame, k) == [] <==> forall i :: 0 <= i < k ==> ports[i].frame != frame
  {
    if k > 0 {
      SomeMine(ports, n, frame, k - 1);
    }
  }

  ghost predicate Splittable(buf: seq<byte>) {
    |buf| >= 1 && Fits(buf, ListEnd(buf))
  }

  /** The ports that the program finds in a buffer, and the list of them with the pair numbers. */
  ghost function Found(buf: seq<byte>): seq<Port>
    requires Splittable(buf)
  {
    PortsOf(buf, Walked(ListEnd(buf)))
  }

  ghost function Listing(buf: seq<byte>): seq<Listed>
    requires Splittable(buf)
  {
    Items(Found(buf), Counted(ListEnd(buf)))
  }

  lemma SplitFits(buf: seq<byte>, n: nat)
    requires Received(buf, n) && n <= ENTRIES
    ensures Splittable(buf) && Walked(ListEnd(buf)) <= 2 * n
    ensures forall i :: 0 <= i < |Found(buf)| ==> Found(buf)[i] == PortsOf(buf, 2 * n)[i]
  {
    EndBounds(buf, n);
    CountsExactly(ListEnd(buf), n);
  }

  lemma SmallPairs(i: nat, j: nat)
    requires i < j <= 2 * ENTRIES
    ensures i as byte != j as byte
  {
    assert (i as byte) as nat == i;
    assert (j as byte) as nat == j;
  }

  /** With one pair less counted, the last port gets a number that no pair has. */
  lemma WrongNumber(ports: seq<Port>, n: nat)
    requires |ports| == 2 * n && 1 <= n <= ENTRIES
    ensures multiset(Items(ports, n - 1)) != multiset(Items(ports, n))
  {
    var wrong, right := Items(ports, n - 1), Items(ports, n);
    var e := wrong[2 * n - 1];
    assert e.pair == (n + 1) as byte;
    forall i | 0 <= i < |right|
      ensures right[i] != e
    {
      SmallPairs(PairOf(i, n), n + 1);
    }
    assert e in multiset(wrong) && e !in multiset(right);
  }

  /** The ports of an order and their pair numbers are found if and only if the frame is clean; else
      not even the right ports with the right numbers in another order. */
  lemma ListingExactly(buf: seq<byte>, n: nat)
    requires Received(buf, n) && 1 <= n <= ENTRIES
    ensures Splittable(buf)
    ensures Clean(buf[..PORTS_AT + 6 * n + 3]) <==> Listing(buf) == Items(PortsOf(buf, 2 * n), n)
    ensures Clean(buf[..PORTS_AT + 6 * n + 3]) <==> multiset(Listing(buf)) == multiset(Items(PortsOf(buf, 2 * n), n))
  {
    var len, all := ListEnd(buf), PortsOf(buf, 2 * n);
    EndBounds(buf, n);
    EndExactly(buf, n);
    CountsExactly(len, n);
    SplitFits(buf, n);
    if Walked(len) == 2 * n {
      assert Found(buf) == all;
    }
    if len < PORTS_AT + 6 * n {
      WrongList(Found(buf), all, len, n);
    }
  }

  lemma WrongList(found: seq<Port>, all: seq<Port>, len: int, n: nat)
    requires 0 <= len < PORTS_AT + 6 * n && |found| == Walked(len) <= |all| == 2 * n && 1 <= n <= ENTRIES
    requires |found| == |all| ==> found == all
    ensures multiset(Items(found, Counted(len))) != multiset(Items(all, n))
  {
    if |found| == |all| {
      assert Counted(len) == n - 1;
      WrongNumber(all, n);
    } else {
      assert |multiset(Items(found, Counted(len)))| == |found|;
      assert |multiset(Items(all, n))| == 2 * n;
    }
  }

  lemma FrameNumbersDistinct()
    ensures Distinct(FRAME_NUMBERS) && |FRAME_NUMBERS| == FRAMES
  {
  }

  /** The commands of all frames together hold each port of a list once, when all its frame numbers
      are real. */
  lemma Gathered(ports: seq<Port>, n: nat, frames: seq<byte>)
    requires |ports| <= 2 * ENTRIES && frames == FRAME_NUMBERS
    requires forall i :: 0 <= i < |ports| ==> ports[i].frame in frames
    ensures multiset(Together(Items(ports, n), Frames(ports), frames, |ports|)) == multiset(Items(ports, n))
  {
    FrameNumbersDistinct();
    var items, keys := Items(ports, n), Frames(ports);
    assert forall i :: 0 <= i < |ports| ==> keys[i] in frames;
    Conserved(items, keys, frames, |ports|);
    assert items[..|ports|] == items;
  }

  /** An order whose frame numbers are real loses no port and doubles none, and each goes out with the
      number of its pair, if and only if the frame is clean. */
  lemma NoPortLost(buf: seq<byte>, n: nat, frames: seq<byte>)
    requires Received(buf, n) && 1 <= n <= ENTRIES && frames == FRAME_NUMBERS
    requires forall i :: 0 <= i < 2 * n ==> PortsOf(buf, 2 * n)[i].frame in frames
    ensures Splittable(buf)
    ensures multiset(Together(Listing(buf), Frames(Found(buf)), frames, |Found(buf)|)) == multiset(Items(PortsOf(buf, 2 * n), n))
      <==> Clean(buf[..PORTS_AT + 6 * n + 3])
  {
    SplitFits(buf, n);
    ListingExactly(buf, n);
    Gathered(Found(buf), Counted(ListEnd(buf)), frames);
  }

  /** Each board takes its command as correct and reads its own ports, in the order of the list; when
      the frame is clean, that is the list of the order. */
  lemma EachBoardReads(buf: seq<byte>, n: nat, frame: byte)
    requires Received(buf, n) && n <= ENTRIES
    ensures Splittable(buf)
    ensures var ports, k := Found(buf), Counted(ListEnd(buf));
      var mine, places := Mine(ports, k, frame, |ports|), Places(Frames(ports), frame, |ports|);
      && ReadsAs(Command(mine), mine) && |mine| == |places|
      && (forall j :: 0 <= j < |mine| ==> mine[j] == Listing(buf)[places[j]])
      && (n > 0 && Clean(buf[..PORTS_AT + 6 * n + 3]) ==> Listing(buf) == Items(PortsOf(buf, 2 * n), n))
  {
    SplitFits(buf, n);
    var ports, k := Found(buf), Counted(ListEnd(buf));
    InOrder(Items(ports, k), Frames(ports), frame, |ports|);
    CommandIsRead(Mine(ports, k, frame, |ports|));
    if n > 0 {
      ListingExactly(buf, n);
    }
  }

  /** The pair number of a listed port is the number under which the order table has it. */
  lemma PairsOfTable(buf: seq<byte>, n: nat, i: nat)
    requires Received(buf, n) && n <= ENTRIES && i < 2 * n && Clean(buf[..PORTS_AT + 6 * n + 3])
    ensures Splittable(buf) && Listable(buf) && |Listing(buf)| == 2 * n
    ensures var item, t, pair := Listing(buf)[i], BatchOrder.Started(AList(buf), ZList(buf)), if i < n then i else i - n;
      item.pair == (pair + 1) as byte && item.port == if i < n then t.ydk[pair].port else t.ddk[pair].port
  {
    RecordExactly(buf, n);
    ListingExactly(buf, n);
    assert i < n ==> AList(buf)[i] == PortsOf(buf, 2 * n)[i];
    assert i >= n ==> ZList(buf)[i - n] == PortsOf(buf, 2 * n)[i];
  }

  /** In the frame of `MisreadOrder` the two ports of the one pair get the numbers 1 and 2. */
  lemma MisreadListing(buf: seq<byte>)
    requires buf == MisreadOrder.FRAME + [0x00]
    ensures Splittable(buf) && Listing(buf) == [Listed(Port(1, 1, 1), 1), Listed(Port(2, 1, 1), 2)]
  {
    MisreadOrder.Misread(buf);
    SplitFits(buf, 1);
    var ports := Found(buf);
    assert ports == [Port(1, 1, 1), Port(2, 1, 1)];
    assert PairOf(0, 0) as byte == 1 && PairOf(1, 0) as byte == 2;
  }
}
