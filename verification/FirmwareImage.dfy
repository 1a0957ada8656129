/** The firmware file on its way to the boards: packets of 1021 bytes are put together
    (dfu_update/ftp.c), cut into pages of 512 bytes, and sent page by page
    (dfu_update/update_sim3u1xx.c). */
module FirmwareImage {
  import opened Register

  const PACKET := 1021
  const BUFFER := 400 * 1024
  const PAGE := 512
  const PAGES := 70
  const FILL: byte := 0xff
  const FIRST_PAGE := 17

  // Packets

  type Packet = p: seq<byte> | |p| == PACKET witness seq(PACKET, i => 0)

  function Concat(ps: seq<Packet>): (r: seq<byte>)
    ensures |r| == |ps| * PACKET
  {
    if ps == [] then [] else Concat(ps[..|ps| - 1]) + ps[|ps| - 1]
  }

  lemma {:induction false} PieceOfConcat(ps: seq<Packet>, k: nat)
    requires k < |ps|
    ensures (k + 1) * PACKET <= |Concat(ps)| && Concat(ps)[k * PACKET..(k + 1) * PACKET] == ps[k]
  {
    var n := |ps| - 1;
    var front := Concat(ps[..n]);
    assert Concat(ps) == front + ps[n];
    if k < n {
      PieceOfConcat(ps[..n], k);
      assert Concat(ps)[k * PACKET..(k + 1) * PACKET] == front[k * PACKET..(k + 1) * PACKET];
    }
  }

  function Placed(buf: seq<byte>, k: nat, p: Packet): (r: seq<byte>)
    requires (k + 1) * PACKET <= |buf|
    ensures |r| == |buf|
  {
    buf[..k * PACKET] + p + buf[(k + 1) * PACKET..]
  }

  /** Packets as they arrive, each with its number. */
  function AllPlaced(buf: seq<byte>, arrivals: seq<(nat, Packet)>): (r: seq<byte>)
    requires forall i :: 0 <= i < |arrivals| ==> (arrivals[i].0 + 1) * PACKET <= |buf|
    ensures |r| == |buf|
  {
    if arrivals == [] then buf
    else
      var n := |arrivals| - 1;
      Placed(AllPlaced(buf, arrivals[..n]), arrivals[n].0, arrivals[n].1)
  }

  /** Every arrival is a packet of the file. */
  ghost predicate OfFile(arrivals: seq<(nat, Packet)>, ps: seq<Packet>) {
    forall i :: 0 <= i < |arrivals| ==> arrivals[i].0 < |ps| && arrivals[i].1 == ps[arrivals[i].0]
  }

  predicate Arrived(arrivals: seq<(nat, Packet)>, k: nat) {
    exists i :: 0 <= i < |arrivals| && arrivals[i].0 == k
  }

  lemma PlacedPieces(buf: seq<byte>, k: nat, p: Packet, j: nat)
    requires (k + 1) * PACKET <= |buf| && (j + 1) * PACKET <= |buf|
    ensures Placed(buf, k, p)[j * PACKET..(j + 1) * PACKET] == if j == k then p else buf[j * PACKET..(j + 1) * PACKET]
  {
    var r := Placed(buf, k, p);
    if j < k {
      assert forall i :: j * PACKET <= i < (j + 1) * PACKET ==> r[i] == buf[i];
    } else if j > k {
      assert forall i :: j * PACKET <= i < (j + 1) * PACKET ==> r[i] == buf[i];
    }
  }

  lemma {:induction false} PieceInPlace(buf: seq<byte>, arrivals: seq<(nat, Packet)>, ps: seq<Packet>, k: nat)
    requires |ps| * PACKET <= |buf| && OfFile(arrivals, ps) && Arrived(arrivals, k)
    ensures k < |ps| && AllPlaced(buf, arrivals)[k * PACKET..(k + 1) * PACKET] == ps[k]
  {
    var n := |arrivals| - 1;
    var front, last := arrivals[..n], arrivals[n];
    assert OfFile(front, ps);
    PlacedPieces(AllPlaced(buf, front), last.0, last.1, k);
    if last.0 != k {
      assert Arrived(front, k) by {
        var i :| 0 <= i < |arrivals| && arrivals[i].0 == k;
        assert front[i].0 == k;
      }
      PieceInPlace(buf, front, ps, k);
    }
  }

  /** Packets may arrive in any order and more than once: as soon as each has arrived the buffer
      begins with the file. */
  lemma AnyOrder(buf: seq<byte>, arrivals: seq<(nat, Packet)>, ps: seq<Packet>)
    requires |ps| * PACKET <= |buf| && OfFile(arrivals, ps) && forall k :: 0 <= k < |ps| ==> Arrived(arrivals, k)
    ensures AllPlaced(buf, arrivals)[..|ps| * PACKET] == Concat(ps)
  {
    SamePieces(AllPlaced(buf, arrivals), ps, |ps|, buf, arrivals);
    assert ps[..|ps|] == ps;
  }

  lemma {:induction false} SamePieces(r: seq<byte>, ps: seq<Packet>, n: nat, buf: seq<byte>, arrivals: seq<(nat, Packet)>)
    requires n <= |ps| && |ps| * PACKET <= |buf| && OfFile(arrivals, ps) && forall k :: 0 <= k < |ps| ==> Arrived(arrivals, k)
    requires r == AllPlaced(buf, arrivals)
    ensures r[..n * PACKET] == Concat(ps[..n])
  {
    if n > 0 {
      SamePieces(r, ps, n - 1, buf, arrivals);
      PieceInPlace(buf, arrivals, ps, n - 1);
      assert r[..n * PACKET] == r[..(n - 1) * PACKET] + r[(n - 1) * PACKET..n * PACKET];
      assert ps[..n][..n - 1] == ps[..n - 1];
    }
  }

  // Pages

  /** How many pages a file fills, and how many are sent: an even number. */
  function Filled(size: nat): nat {
    size / PAGE + if size % PAGE != 0 then 1 else 0
  }

  function Even(n: nat): (r: nat)
    ensures r % 2 == 0 && n <= r <= n + 1
  {
    if n % 2 == 0 then n else n + 1
  }

  function Padding(n: nat): (r: seq<byte>)
    ensures |r| == n
  {
    seq(n, i => FILL)
  }

  /** The file, filled up to an even number of pages. */
  function Padded(file: seq<byte>): (r: seq<byte>)
    ensures |r| == Even(Filled(|file|)) * PAGE && |file| <= |r|
  {
    FilledCovers(|file|);
    file + Padding(Even(Filled(|file|)) * PAGE - |file|)
  }

  /** Whole pages, an even number of them, and none too many: the file, and 0xff behind it. */
  lemma PaddedExactly(file: seq<byte>)
    ensures var r := Padded(file);
      && |r| % 1024 == 0 && |file| <= |r| < |file| + 1024 && r[..|file|] == file
      && forall i :: |file| <= i < |r| ==> r[i] == 0xff
  {
    FilledCovers(|file|);
  }

  lemma FilledCovers(size: nat)
    ensures size <= Filled(size) * PAGE < size + PAGE
  {
  }

  // Sending

  /** A page of the table, by its place, or the command to restart. A number behind the last row of
      the table is not a page. */
  datatype Command = Send(place: nat) | Restart | OffTable

  /** What is sent when a board echoes page number k, of a file of the given number of pages. */
  function Answer(pages: nat, k: nat): Command {
    if k + 1 == pages + 1 then Restart else if k < PAGES then Send(k) else OffTable
  }

  /** All commands to a board that echoes each page number, from an echo of k on. */
  function Following(pages: nat, k: nat): seq<Command>
    decreases PAGES - k
  {
    if Answer(pages, k).Send? then [Answer(pages, k)] + Following(pages, k + 1) else [Answer(pages, k)]
  }

  function Session(pages: nat): seq<Command> {
    [Send(FIRST_PAGE - 1)] + Following(pages, FIRST_PAGE)
  }

  function Sends(from: nat, end: nat): seq<Command>
    decreases end - from
  {
    if from >= end then [] else [Send(from)] + Sends(from + 1, end)
  }

  lemma {:induction false} FollowingSends(pages: nat, k: nat)
    requires k <= pages <= PAGES
    ensures Following(pages, k) == Sends(k, pages) + [Restart]
    decreases pages - k
  {
    if k < pages {
      FollowingSends(pages, k + 1);
    } else {
      assert Sends(k, pages) + [Restart] == [Restart];
    }
  }

  lemma {:induction false} OnlySends(from: nat, end: nat)
    ensures forall c :: c in Sends(from, end) ==> c.Send?
    decreases end - from
  {
    if from < end {
      OnlySends(from + 1, end);
    }
  }

  lemma {:induction false} FollowingRunsOff(pages: nat, k: nat)
    requires pages < k <= PAGES
    ensures Restart !in Following(pages, k) && OffTable in Following(pages, k)
    decreases PAGES - k
  {
    if k < PAGES {
      FollowingRunsOff(pages, k + 1);
    }
  }

  /** With a board that echoes each page number, the pages from the seventeenth on are sent once each
      and in order, then the restart command, provided that there are seventeen. Otherwise the program
      counts on without having sent the restart command, until it reads behind the page table. */
  lemma SessionExactly(pages: nat)
    requires pages <= PAGES
    ensures Session(pages) == Sends(FIRST_PAGE - 1, pages) + [Restart] <==> pages >= FIRST_PAGE
    ensures Restart in Session(pages) <==> pages >= FIRST_PAGE
    ensures OffTable in Session(pages) <==> pages < FIRST_PAGE
  {
    if pages >= FIRST_PAGE {
      FollowingSends(pages, FIRST_PAGE);
      OnlySends(FIRST_PAGE, pages);
      var first, rest := [Send(FIRST_PAGE - 1)], Sends(FIRST_PAGE, pages);
      assert first + (rest + [Restart]) == first + rest + [Restart];
      assert Session(pages)[|Session(pages)| - 1] == Restart;
    } else {
      FollowingRunsOff(pages, FIRST_PAGE);
      var all := Sends(FIRST_PAGE - 1, pages) + [Restart];
      assert all[|all| - 1] == Restart;
    }
  }

  function PageOf(image: seq<byte>, p: nat): seq<byte>
    requires (p + 1) * PAGE <= |image|
  {
    image[p * PAGE..(p + 1) * PAGE]
  }

  /** The pages of some commands lie in the image. */
  ghost predicate Within(image: seq<byte>, cs: seq<Command>) {
    forall i :: 0 <= i < |cs| && cs[i].Send? ==> (cs[i].place + 1) * PAGE <= |image|
  }

  /** The bytes that the pages of some commands hold. */
  ghost function Bytes(image: seq<byte>, cs: seq<Command>): seq<byte>
    requires Within(image, cs)
    decreases |cs|
  {
    if cs == [] then []
    else (if cs[0].Send? then PageOf(image, cs[0].place) else []) + Bytes(image, cs[1..])
  }

  lemma {:induction false} BytesOfSends(image: seq<byte>, from: nat, end: nat)
    requires from <= end && end * PAGE == |image|
    ensures Within(image, Sends(from, end) + [Restart])
    ensures Bytes(image, Sends(from, end) + [Restart]) == image[from * PAGE..]
    decreases end - from
  {
    var cs := Sends(from, end) + [Restart];
    if from < end {
      var rest := Sends(from + 1, end) + [Restart];
      BytesOfSends(image, from + 1, end);
      assert cs == [Send(from)] + rest && cs[1..] == rest;
      forall i | 0 <= i < |cs| && cs[i].Send?
        ensures (cs[i].place + 1) * PAGE <= |image|
      {
        assert i > 0 ==> cs[i] == rest[i - 1];
      }
      assert image[from * PAGE..] == PageOf(image, from) + image[(from + 1) * PAGE..];
    } else {
      assert cs == [Restart] && cs[1..] == [];
    }
  }

  /** From byte 8192 on, the padded file arrives at the board completely and in order. */
  lemma FileArrives(file: seq<byte>)
    requires FIRST_PAGE <= Even(Filled(|file|)) <= PAGES
    ensures var image, cs := Padded(file), Session(Even(Filled(|file|)));
      Within(image, cs) && Bytes(image, cs) == image[8192..]
  {
    var pages := Even(Filled(|file|));
    SessionExactly(pages);
    BytesOfSends(Padded(file), FIRST_PAGE - 1, pages);
  }

  /** What a whole page, the last one and an extra one hold. */
  lemma PagesOfFile(file: seq<byte>, p: nat)
    requires p < Even(Filled(|file|))
    ensures (p + 1) * PAGE <= |Padded(file)|
    ensures PageOf(Padded(file), p) ==
      if p + 1 < Filled(|file|) then file[p * PAGE..(p + 1) * PAGE]
      else if p < Filled(|file|) then file[p * PAGE..] + Padding((p + 1) * PAGE - |file|)
      else Padding(PAGE)
  {
    FilledCovers(|file|);
    var image := Padded(file);
    if p + 1 < Filled(|file|) {
      assert PageOf(image, p) == file[p * PAGE..(p + 1) * PAGE];
    } else if p < Filled(|file|) {
      assert PageOf(image, p) == file[p * PAGE..] + Padding((p + 1) * PAGE - |file|);
    } else {
      assert PageOf(image, p) == Padding(PAGE);
    }
  }

  lemma LastPage(file: seq<byte>, p: nat, filled: nat)
    requires filled == Filled(|file|) && p == if filled == 0 then 0 else filled - 1
    ensures p * PAGE <= |file| <= (p + 1) * PAGE && Even(filled) * PAGE == |Padded(file)|
    ensures filled > 0 ==> PageOf(Padded(file), p) == file[p * PAGE..] + Padding((p + 1) * PAGE - |file|)
    ensures filled % 2 == 1 ==> PageOf(Padded(file), p + 1) == Padding(PAGE)
  {
    FilledCovers(|file|);
    if filled > 0 {
      PagesOfFile(file, p);
    }
    if filled % 2 == 1 {
      PagesOfFile(file, p + 1);
    }
  }

  /** The buffers of the download and the page table. */
  class Dfu {
    const packets: array<byte>
    const table: array2<byte>
    var dataPacketNum: nat

    ghost predicate Shaped()
      reads this
    {
      packets.Length == BUFFER && table.Length0 == PAGES && table.Length1 == PAGE
    }

    constructor ()
      ensures Shaped() && fresh(packets) && fresh(table)
    {
      packets := new byte[BUFFER];
      table := new byte[PAGES, PAGE];
      dataPacketNum := 0;
    }

    function Row(p: nat): (r: seq<byte>)
      requires p < table.Length0
      reads table
      ensures |r| == table.Length1
    {
      seq(table.Length1, j requires 0 <= j < table.Length1 reads table => table[p, j])
    }

    /** Packet k of the file: dfu_request_cmd_type_0x02_handle_routine. The source trusts the number
        to stay inside the buffer. */
    method Place(k: nat, payload: Packet)
      requires Shaped() && (k + 1) * PACKET <= BUFFER
      modifies packets
      ensures packets[..] == Placed(old(packets[..]), k, payload)
    {
      forall i | 0 <= i < PACKET {
        packets[k * PACKET + i] := payload[i];
      }
    }

    /** One page: filled with 0xff, then the bytes of the file over its front. */
    method FillPage(p: nat, start: nat, len: nat)
      requires Shaped() && p < PAGES && len <= PAGE && start + len <= BUFFER
      modifies table
      ensures Row(p) == packets[start..start + len] + Padding(PAGE - len)
      ensures forall q :: 0 <= q < PAGES && q != p ==> Row(q) == old(Row(q))
    {
      forall j | 0 <= j < PAGE {
        table[p, j] := FILL;
      }
      forall j | 0 <= j < len {
        table[p, j] := packets[start + j];
      }
      ghost var row := packets[start..start + len] + Padding(PAGE - len);
      forall j | 0 <= j < PAGE
        ensures Row(p)[j] == row[j]
      {
        assert j < len ==> row[j] == packets[start + j];
      }
      forall q | 0 <= q < PAGES && q != p
        ensures Row(q) == old(Row(q))
      {
        assert forall j :: 0 <= j < PAGE ==> Row(q)[j] == old(Row(q))[j];
      }
    }

    method WholePage(p: nat, size: nat)
      requires Shaped() && size <= BUFFER && p + 1 < Filled(size) <= PAGES
      modifies table
      ensures (p + 1) * PAGE <= |Padded(packets[..size])| && Row(p) == PageOf(Padded(packets[..size]), p)
      ensures forall q :: 0 <= q < PAGES && q != p ==> Row(q) == old(Row(q))
    {
      ghost var file := packets[..size];
      PagesOfFile(file, p);
      FilledCovers(size);
      FillPage(p, p * PAGE, PAGE);
      assert packets[p * PAGE..p * PAGE + PAGE] + Padding(0) == file[p * PAGE..(p + 1) * PAGE];
    }

    /** The last page, and one of fill bytes behind it when the number of pages is odd. */
    method LastPages(p: nat, filled: nat, size: nat)
      requires Shaped() && size <= BUFFER && filled == Filled(size) <= PAGES && p == if filled == 0 then 0 else filled - 1
      modifies table
      ensures Even(filled) * PAGE == |Padded(packets[..size])|
      ensures forall q :: p <= q < Even(filled) ==> Row(q) == PageOf(Padded(packets[..size]), q)
      ensures forall q :: 0 <= q < p ==> Row(q) == old(Row(q))
    {
      ghost var file := packets[..size];
      LastPage(file, p, filled);
      FillPage(p, p * PAGE, size - p * PAGE);
      assert packets[p * PAGE..p * PAGE + (size - p * PAGE)] == file[p * PAGE..];
      if filled % 2 == 1 {
        FillPage(p + 1, 0, 0);
        assert packets[0..0] + Padding(PAGE) == Padding(PAGE);
      }
    }

    /** dfu_distribute_dfu_file_data. */
    method Distribute()
      requires Shaped() && dataPacketNum <= 35
      modifies this, table
      ensures Shaped()
      ensures var file := packets[..old(dataPacketNum) * PACKET];
        dataPacketNum == Even(Filled(|file|)) <= PAGES && dataPacketNum * PAGE == |Padded(file)|
        && forall p :: 0 <= p < dataPacketNum ==> Row(p) == PageOf(Padded(file), p)
    {
      var size := dataPacketNum * PACKET;
      var filled := size / PAGE;
      if size % PAGE != 0 {
        filled := filled + 1;
      }
      ghost var image := Padded(packets[..size]);
      var ofs := 0;
      while ofs < filled - 1
        invariant 0 <= ofs && (ofs < filled || ofs == 0) && Shaped() && dataPacketNum == old(dataPacketNum)
        invariant forall p :: 0 <= p < ofs ==> (p + 1) * PAGE <= |image| && Row(p) == PageOf(image, p)
      {
        WholePage(ofs, size);
        ofs := ofs + 1;
      }
      LastPages(ofs, filled, size);
      dataPacketNum := if filled % 2 == 0 then filled else filled + 1;
    }

    /** What follows the echo of a page number: the stage handler for writing. The update has counted
        the pages up by one before. */
    method Next(echo: nat) returns (c: Command, page: seq<byte>)
      requires Shaped() && dataPacketNum <= PAGES
      ensures c == Answer(dataPacketNum, echo)
      ensures c.Restart? <==> echo == dataPacketNum
      ensures c.Send? <==> echo < 70 && echo != dataPacketNum
      ensures c.Send? ==> c.place == echo
      ensures c.Send? ==> page == Row(c.place)
    {
      var packageIndex := echo + 1;
      page := [];
      if packageIndex == dataPacketNum + 1 {
        c := Restart;
      } else if packageIndex - 1 < PAGES {
        c, page := Send(packageIndex - 1), Row(packageIndex - 1);
      } else {
        c := OffTable;
      }
    }
  }
}
