/** The ring of tasks of queue.c. A task carries its own length, in its second and third byte. */
module TaskQueue {
  import opened Register

  const SIZE := 20480

  /** hi << 8 | lo + 2, which C reads as hi << 8 | (lo + 2). */
  function RawLength(hi: byte, lo: byte): bv16 {
    ((hi as bv16) << 8) | ((lo as bv16) + 2)
  }

  /** It is the length field plus two exactly when adding two to the low byte carries nothing, or
      carries into a bit that is clear. */
  lemma LengthExactly(hi: byte, lo: byte)
    ensures RawLength(hi, lo) == (((hi as bv16) << 8) | (lo as bv16)) + 2 <==> lo <= 253 || hi & 1 == 0
  {
  }

  function LengthOf(hi: byte, lo: byte): nat {
    RawLength(hi, lo) as nat
  }

  /** How a length is read from its two bytes. The ring works with any way, and is made with LengthOf. */
  type Length = (byte, byte) -> nat

  /** A task as it is stored; one with an empty length field would not hold its own length. */
  ghost predicate Task(length: Length, t: seq<byte>) {
    |t| >= 3 && |t| == length(t[1], t[2])
  }

  function Flat(tasks: seq<seq<byte>>): seq<byte> {
    if tasks == [] then [] else tasks[0] + Flat(tasks[1..])
  }

  lemma {:induction false} FlatSnoc(tasks: seq<seq<byte>>, t: seq<byte>)
    ensures Flat(tasks + [t]) == Flat(tasks) + t
  {
    if tasks == [] {
      assert [t][1..] == [];
      assert t + [] == [] + t;
      assert tasks + [t] == [t];
    } else {
      assert (tasks + [t])[0] == tasks[0] && (tasks + [t])[1..] == tasks[1..] + [t];
      FlatSnoc(tasks[1..], t);
      assert tasks[0] + (Flat(tasks[1..]) + t) == tasks[0] + Flat(tasks[1..]) + t;
    }
  }

  function Wrap(i: nat): nat {
    if i < SIZE then i else i - SIZE
  }

  /** What memcpy does: a piece over the bytes from a place on. */
  function Over(s: seq<byte>, at: nat, piece: seq<byte>): (r: seq<byte>)
    requires at + |piece| <= |s|
    ensures |r| == |s|
  {
    s[..at] + piece + s[at + |piece|..]
  }

  /** The ring holds the bytes from rail on. */
  ghost predicate Holds(ring: seq<byte>, rail: nat, bytes: seq<byte>) {
    |ring| == SIZE && rail < SIZE && |bytes| <= SIZE
    && forall i {:trigger bytes[i]} :: 0 <= i < |bytes| ==> ring[Wrap(rail + i)] == bytes[i]
  }

  /** What a straddling download leaves in a buffer: the first part in front, and the second part
      behind as many bytes as it is long itself. */
  function Straddled(p: seq<byte>, t: seq<byte>, a: nat): (r: seq<byte>)
    requires a <= |t| <= |p| && 2 * (|t| - a) <= |p|
    ensures |r| == |p|
  {
    Over(Over(p, 0, t[..a]), |t| - a, t[a..])
  }

  /** A straddling download is right for all tasks and buffers exactly when both parts are equally long. */
  lemma StraddlingExactly(n: nat, size: nat, a: nat)
    requires 0 < a < n <= size && 2 * (n - a) <= size
    ensures (forall p: seq<byte>, t: seq<byte> | |p| == size && |t| == n :: Straddled(p, t, a)[..n] == t) <==> n == 2 * a
  {
    if n == 2 * a {
      forall p: seq<byte>, t: seq<byte> | |p| == size && |t| == n
        ensures Straddled(p, t, a)[..n] == t
      {
        StraddledInHalves(p, t, a);
      }
    } else {
      var p: seq<byte> := seq(size, i => 0);
      var t: seq<byte> := seq(n, i => if i == a then 1 else 0);
      WrongByte(p, t, a);
      assert Straddled(p, t, a)[..n][a] != t[a];
    }
  }

  lemma StraddledInHalves(p: seq<byte>, t: seq<byte>, a: nat)
    requires |t| == 2 * a <= |p|
    ensures Straddled(p, t, a)[..|t|] == t
  {
    assert t == t[..a] + t[a..];
  }

  lemma WrongByte(p: seq<byte>, t: seq<byte>, a: nat)
    requires a < |t| <= |p| && 2 * (|t| - a) <= |p| && |t| != 2 * a
    requires (forall i :: 0 <= i < |p| ==> p[i] == 0) && forall i :: 0 <= i < |t| ==> t[i] == if i == a then 1 else 0
    ensures Straddled(p, t, a)[a] == 0
  {
  }

  /** The ring holds the given tasks, one behind the other, from rail to front. */
  ghost predicate Ring(length: Length, ring: seq<byte>, rail: nat, front: nat, tasks: seq<seq<byte>>) {
    && Holds(ring, rail, Flat(tasks)) && front < SIZE && front == Wrap(rail + |Flat(tasks)|)
    && (forall i {:trigger tasks[i]} :: 0 <= i < |tasks| ==> Task(length, tasks[i]))
  }

  lemma TasksAdded(length: Length, tasks: seq<seq<byte>>, t: seq<byte>)
    requires Task(length, t) && forall i {:trigger tasks[i]} :: 0 <= i < |tasks| ==> Task(length, tasks[i])
    ensures forall i {:trigger (tasks + [t])[i]} :: 0 <= i < |tasks + [t]| ==> Task(length, (tasks + [t])[i])
  {
  }

  lemma RingAdded(length: Length, ring: seq<byte>, ring': seq<byte>, rail: nat, front: nat, tasks: seq<seq<byte>>, t: seq<byte>)
    requires Ring(length, ring, rail, front, tasks) && Task(length, t) && Holds(ring', rail, Flat(tasks) + t)
    ensures Ring(length, ring', rail, Wrap(front + |t|), tasks + [t])
  {
    FlatSnoc(tasks, t);
    TasksAdded(length, tasks, t);
  }

  lemma RingTaken(length: Length, ring: seq<byte>, ring': seq<byte>, rail: nat, front: nat, tasks: seq<seq<byte>>)
    requires Ring(length, ring, rail, front, tasks) && tasks != [] && Cleared(ring, ring', rail, |tasks[0]|)
    ensures Ring(length, ring', Wrap(rail + |tasks[0]|), front, tasks[1..])
  {
    RestOfRing(ring, ring', rail, tasks[0], Flat(tasks[1..]));
  }

  class Queue {
    const length: Length
    const data: array<byte>
    var front: nat
    var rail: nat
    var count: nat
    ghost var tasks: seq<seq<byte>>

    ghost predicate Valid()
      reads this, data
    {
      data.Length == SIZE && Ring(length, data[..], rail, front, tasks) && count == |tasks|
    }

    /** init_queue. */
    constructor ()
      ensures Valid() && fresh(data) && tasks == [] && length == LengthOf
    {
      length := LengthOf;
      data := new byte[SIZE](i => 0);
      front, rail, count, tasks := 0, 0, 0, [];
    }

    /** Bytes into the ring, from a place on. */
    method Store(at: nat, src: seq<byte>)
      requires data.Length == SIZE && at + |src| <= SIZE
      modifies data
      ensures data[..] == Over(old(data[..]), at, src)
    {
      forall i | 0 <= i < |src| {
        data[at + i] := src[i];
      }
    }

    /** A task into the ring, around its end if need be. */
    method StoreAround(src: seq<byte>, datalen: nat)
      requires data.Length == SIZE && front < SIZE && datalen <= |src| && datalen <= SIZE
      modifies data, this`front
      ensures data[..] == Stored(old(data[..]), old(front), src[..datalen])
      ensures front == Wrap(old(front) + datalen)
    {
      if front + datalen > SIZE {
        var szLen := SIZE - front;
        ghost var t := src[..datalen];
        assert src[..szLen] == t[..szLen] && src[szLen..datalen] == t[szLen..];
        Store(front, src[..szLen]);
        Store(0, src[szLen..datalen]);
        front := datalen - szLen;
      } else {
        Store(front, src[..datalen]);
        front := front + datalen;
        if front == SIZE {
          front := 0;
        }
      }
    }

    /** add_a_task. The source does not check that the task fits. */
    method Add(src: seq<byte>)
      requires Valid() && |src| >= 3 && 3 <= length(src[1], src[2]) <= |src|
      requires |Flat(tasks)| + length(src[1], src[2]) <= SIZE
      modifies this, data
      ensures Valid() && tasks == old(tasks) + [src[..length(src[1], src[2])]]
    {
      var datalen := length(src[1], src[2]);
      ghost var t := src[..datalen];
      assert t[1] == src[1] && t[2] == src[2];
      ghost var ring := data[..];
      ghost var ring' := Stored(ring, front, t);
      AddedAfter(ring, ring', rail, Flat(tasks), t);
      RingAdded(length, ring, ring', rail, front, tasks, t);
      StoreAround(src, datalen);
      count := count + 1;
      tasks := tasks + [t];
    }

    /** The length of the oldest task. */
    method NextLength() returns (datalen: nat)
      requires Valid() && count > 0
      ensures datalen == |tasks[0]| && Task(length, tasks[0]) && datalen <= |Flat(tasks)|
    {
      var datalen1, datalen2 := rail + 1, rail + 2;
      if datalen1 >= SIZE {
        datalen1 := datalen1 - SIZE;
      }
      if datalen2 >= SIZE {
        datalen2 := datalen2 - SIZE;
      }
      ghost var all := Flat(tasks);
      assert Task(length, tasks[0]) && all == tasks[0] + Flat(tasks[1..]);
      assert all[1] == tasks[0][1] && all[2] == tasks[0][2];
      datalen := length(data[datalen1], data[datalen2]);
    }

    /** Bytes of the ring into a buffer; what is left behind is cleared. */
    method Take(pdata: array<byte>, place: nat, from: nat, n: nat, ghost piece: seq<byte>)
      requires data.Length == SIZE && pdata != data && place + n <= pdata.Length && from + n <= SIZE
      requires data[from..from + n] == piece
      modifies pdata, data
      ensures pdata[..] == Over(old(pdata[..]), place, piece)
      ensures forall i :: 0 <= i < SIZE ==> data[i] == if from <= i < from + n then 0 else old(data[i])
    {
      assert forall i :: 0 <= i < n ==> data[from + i] == piece[i];
      forall i | 0 <= i < n {
        pdata[place + i] := data[from + i];
      }
      forall i | 0 <= i < n {
        data[from + i] := 0;
      }
    }

    /** The two parts of a task around the end of the ring. */
    method TakeAround(pdata: array<byte>, datalen: nat, ghost t: seq<byte>) returns (szLen: nat)
      requires data.Length == SIZE && pdata != data && datalen == |t| <= SIZE && rail < SIZE < rail + datalen && Room(pdata.Length, |t|, rail)
      requires data[rail..] == t[..SIZE - rail] && data[..datalen - (SIZE - rail)] == t[SIZE - rail..]
      modifies data, pdata
      ensures szLen == datalen - (SIZE - rail)
      ensures pdata[..] == Delivered(old(pdata[..]), t, rail)
      ensures forall i :: 0 <= i < SIZE ==> data[i] == if rail <= i || i < szLen then 0 else old(data[i])
    {
      var a := SIZE - rail;
      szLen := datalen - a;
      assert data[rail..rail + a] == t[..a];
      assert data[0..0 + szLen] == t[a..];
      assert forall i :: 0 <= i < szLen ==> data[i] == t[a..][i];
      Take(pdata, 0, rail, a, t[..a]);
      assert data[0..0 + szLen] == t[a..];
      Take(pdata, szLen, 0, szLen, t[a..]);
    }

    /** The bytes of the oldest task out of the ring. */
    method Fetch(pdata: array<byte>, datalen: nat, ghost t: seq<byte>, ghost rest: seq<byte>)
      requires Holds(data[..], rail, t + rest) && datalen == |t| && pdata != data && data.Length == SIZE && Room(pdata.Length, |t|, rail)
      modifies this`rail, data, pdata
      ensures rail == Wrap(old(rail) + datalen) && Cleared(old(data[..]), data[..], old(rail), datalen)
      ensures pdata[..] == Delivered(old(pdata[..]), t, old(rail))
    {
      HeadOfRing(data[..], rail, t, rest);
      if rail + datalen > SIZE {
        assert data[rail..] == data[..][rail..];
        rail := TakeAround(pdata, datalen, t);
      } else {
        assert data[rail..rail + datalen] == t;
        Take(pdata, 0, rail, datalen, t);
        rail := rail + datalen;
        if rail == SIZE {
          rail := 0;
        }
      }
    }

    /** download_a_task. */
    method Download(pdata: array<byte>) returns (datalen: nat)
      requires Valid() && count > 0 && pdata != data && Room(pdata.Length, |tasks[0]|, rail)
      modifies this, data, pdata
      ensures Valid() && tasks == old(tasks)[1..] && datalen == |old(tasks)[0]|
      ensures pdata[..] == Delivered(old(pdata[..]), old(tasks)[0], old(rail))
      // a task in one piece arrives; of one that straddles the end the second part has the wrong place
      ensures old(rail) + datalen <= 20480 ==> pdata[..datalen] == old(tasks)[0]
      ensures old(rail) + datalen > 20480 ==> var a := 20480 - old(rail);
        pdata[datalen - a..2 * (datalen - a)] == old(tasks)[0][a..]
    {
      datalen := NextLength();
      ghost var t, rest, ring, start := tasks[0], Flat(tasks[1..]), data[..], rail;
      Fetch(pdata, datalen, t, rest);
      RingTaken(length, ring, data[..], start, front, tasks);
      DeliveredWhere(old(pdata[..]), t, start);
      count := count - 1;
      tasks := tasks[1..];
    }
  }

  /** A buffer takes the task, and its second part at the place where a straddling download puts it. */
  predicate Room(size: nat, n: nat, rail: nat) {
    n <= size && (rail < SIZE < rail + n ==> 2 * (n - (SIZE - rail)) <= size)
  }

  /** What a download leaves in the buffer, for a task that begins at the given place of the ring. */
  function Delivered(p: seq<byte>, t: seq<byte>, rail: nat): seq<byte>
    requires rail <= SIZE && Room(|p|, |t|, rail)
  {
    if rail < SIZE < rail + |t| then Straddled(p, t, SIZE - rail) else Over(p, 0, t)
  }

  /** A task in one piece begins the buffer; the second part of a straddling one begins at its own length. */
  lemma DeliveredWhere(p: seq<byte>, t: seq<byte>, rail: nat)
    requires rail < SIZE && Room(|p|, |t|, rail)
    ensures |Delivered(p, t, rail)| == |p|
    ensures rail + |t| <= 20480 ==> Delivered(p, t, rail)[..|t|] == t
    ensures rail + |t| > 20480 ==>
      var n := |t| - (20480 - rail); Delivered(p, t, rail)[n..2 * n] == t[20480 - rail..]
  {
  }

  /** Where the oldest task lies. */
  lemma HeadOfRing(ring: seq<byte>, rail: nat, t: seq<byte>, rest: seq<byte>)
    requires Holds(ring, rail, t + rest)
    ensures rail + |t| <= SIZE ==> ring[rail..rail + |t|] == t
    ensures rail + |t| > SIZE ==> ring[rail..] == t[..SIZE - rail] && ring[..|t| - (SIZE - rail)] == t[SIZE - rail..]
  {
    var all := t + rest;
    forall i | 0 <= i < |t|
      ensures ring[Wrap(rail + i)] == t[i]
    {
      assert all[i] == t[i];
    }
  }

  /** n bytes of the ring from rail on are cleared, and nothing else has changed. */
  ghost predicate Cleared(ring: seq<byte>, ring': seq<byte>, rail: nat, n: nat) {
    |ring| == |ring'| == SIZE && forall i :: 0 <= i < SIZE ==>
      ring'[i] == if (rail <= i < rail + n) || i + SIZE < rail + n then 0 else ring[i]
  }

  /** The rest stays when the head is cleared. */
  lemma RestOfRing(ring: seq<byte>, ring': seq<byte>, rail: nat, t: seq<byte>, rest: seq<byte>)
    requires Holds(ring, rail, t + rest) && Cleared(ring, ring', rail, |t|)
    ensures Holds(ring', Wrap(rail + |t|), rest)
  {
    var all := t + rest;
    forall i | 0 <= i < |rest|
      ensures ring'[Wrap(Wrap(rail + |t|) + i)] == rest[i]
    {
      assert all[|t| + i] == rest[i];
    }
  }

  /** The ring with t stored from front on, around its end if need be. */
  function Stored(ring: seq<byte>, front: nat, t: seq<byte>): seq<byte>
    requires |ring| == SIZE && front < SIZE && |t| <= SIZE
  {
    if front + |t| > SIZE then Over(Over(ring, front, t[..SIZE - front]), 0, t[SIZE - front..])
    else Over(ring, front, t)
  }

  /** The ring after t was stored behind the bytes it held, around its end if need be. */
  lemma AddedAfter(ring: seq<byte>, ring': seq<byte>, rail: nat, bytes: seq<byte>, t: seq<byte>)
    requires Holds(ring, rail, bytes) && |bytes| + |t| <= SIZE
    requires ring' == Stored(ring, Wrap(rail + |bytes|), t)
    ensures Holds(ring', rail, bytes + t)
  {
    var front, all := Wrap(rail + |bytes|), bytes + t;
    forall i | 0 <= i < |all|
      ensures ring'[Wrap(rail + i)] == all[i]
    {
      if i < |bytes| {
        assert ring[Wrap(rail + i)] == bytes[i];
      }
    }
  }
}
