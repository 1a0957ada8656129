/** The batch order of lib_orders/Jianei_Order_new_5_ports.c: up to five pairs of ports, each pair to
    be joined by one cord whose two ends carry the same tag. */
module BatchOrder {
  import opened Register
  import opened Options
  import opened OrderFrame
  import opened Tags

  const OFFLINE: byte := 0x00
  const ONLINE: byte := 0x44
  const ACKED: byte := 0x0a
  const REFUSED: byte := 0x0e

  datatype End = End(port: Port, tag: Tag, stat: byte)

  const UNUSED := End(Port(0, 0, 0), NO_TAG, OFFLINE)

  /** The two ends of every pair. */
  datatype Table = Table(ydk: seq<End>, ddk: seq<End>) {
    ghost predicate Valid() {
      |ydk| == ENTRIES && |ddk| == ENTRIES
    }
  }

  const CLEARED := Table([UNUSED, UNUSED, UNUSED, UNUSED, UNUSED], [UNUSED, UNUSED, UNUSED, UNUSED, UNUSED])

  type Pair = p: int | 0 <= p < ENTRIES

  /** The first entry from k on whose tag has the given field, or the number of entries. */
  function FirstHolder(ends: seq<End>, f: seq<byte>, k: nat): (r: nat)
    requires k <= |ends|
    ensures k <= r <= |ends| && (r < |ends| ==> Field(ends[r].tag) == f)
    ensures forall j :: k <= j < r ==> Field(ends[j].tag) != f
    decreases |ends| - k
  {
    if k == |ends| || Field(ends[k].tag) == f then k else FirstHolder(ends, f, k + 1)
  }

  /** Whether the tag is taken to sit in the wrong pair: the source ports are searched first, the
      other ends only if none of them has it. */
  predicate Misplaced(t: Table, p: Pair, f: seq<byte>)
    requires t.Valid()
  {
    var y, d := FirstHolder(t.ydk, f, 0), FirstHolder(t.ddk, f, 0);
    if y < ENTRIES then y != p else d < ENTRIES && d != p
  }

  /** A command to a board: the tag to be expected at a port, or that ports are joined. */
  datatype Command = Expect(port: Port, tag: Tag) | Confirm(ports: seq<Port>)

  /** A command that is copied into the transmit slot of a frame. */
  datatype Write = Write(slot: byte, command: Command)

  datatype Outcome = Wrong | Done(writes: seq<Write>)

  predicate AutoConfirm(t: Table, p: Pair)
    requires t.Valid()
  {
    Field(t.ydk[p].tag) == Field(t.ddk[p].tag) && t.ydk[p].tag != NO_TAG
  }

  /** The confirmation of a pair: one command for both ports of one frame, or one for each port. All
      of them are copied into the slot of the source port's frame. */
  function Confirmation(y: Port, d: Port): seq<Write> {
    if y.frame == d.frame then [Write(y.frame, Confirm([y, d]))]
    else [Write(y.frame, Confirm([y])), Write(y.frame, Confirm([d]))]
  }

  function Confirmations(t: Table, p: Pair): seq<Write>
    requires t.Valid()
  {
    if AutoConfirm(t, p) then Confirmation(t.ydk[p].port, t.ddk[p].port) else []
  }

  /** One end of a pair gets a tag: it is kept if the end has none and the other end has none or an
      equal one. */
  function Placed(here: End, other: End, tag: Tag): End {
    if here.tag == NO_TAG && (other.tag == NO_TAG || Field(other.tag) == Field(tag)) then here.(tag := tag, stat := ONLINE)
    else here
  }

  /** What is told to the boards: the other end is to expect the tag, or, after a mismatch, this end
      is to expect the tag that the first pair has on the other side. */
  function Told(port: Port, here: End, other: End, first: End, tag: Tag): seq<Write> {
    if here.tag != NO_TAG then []
    else if other.tag == NO_TAG then [Write(other.port.frame, Expect(other.port, tag))]
    else if Field(other.tag) == Field(tag) then []
    else [Write(port.frame, Expect(port, first.tag))]
  }

  function Inserted(t: Table, port: Port, p: Pair, tag: Tag): (r: Table)
    requires t.Valid()
    ensures r.Valid()
  {
    if Misplaced(t, p, Field(tag)) then t
    else if t.ydk[p].port == port then t.(ydk := t.ydk[p := Placed(t.ydk[p], t.ddk[p], tag)])
    else if t.ddk[p].port == port then t.(ddk := t.ddk[p := Placed(t.ddk[p], t.ydk[p], tag)])
    else t
  }

  function InsertOutcome(t: Table, port: Port, p: Pair, tag: Tag): Outcome
    requires t.Valid()
  {
    if Misplaced(t, p, Field(tag)) then Wrong
    else
      var told :=
        if t.ydk[p].port == port then Told(port, t.ydk[p], t.ddk[p], t.ddk[0], tag)
        else if t.ddk[p].port == port then Told(port, t.ddk[p], t.ydk[p], t.ydk[0], tag)
        else [];
      Done(told + Confirmations(Inserted(t, port, p, tag), p))
  }

  function Removed(t: Table, port: Port, p: Pair): (r: Table)
    requires t.Valid()
    ensures r.Valid()
  {
    if t.ydk[p].port == port then t.(ydk := t.ydk[p := t.ydk[p].(tag := NO_TAG, stat := OFFLINE)])
    else if t.ddk[p].port == port then t.(ddk := t.ddk[p := t.ddk[p].(tag := NO_TAG, stat := OFFLINE)])
    else t
  }

  function Acked(t: Table, port: Port, p: Pair, code: byte): (r: Table)
    requires t.Valid()
    ensures r.Valid()
  {
    var s := if code == 0 then ACKED else REFUSED;
    if t.ydk[p].port == port then t.(ydk := t.ydk[p := t.ydk[p].(stat := s)])
    else if t.ddk[p].port == port then t.(ddk := t.ddk[p := t.ddk[p].(stat := s)])
    else t
  }

  /** The ports of an order, A ends first, then Z ends. */
  function Started(a: seq<Port>, z: seq<Port>): (r: Table)
    requires |a| == |z| <= ENTRIES
    ensures r.Valid()
  {
    Table(seq(ENTRIES, i => if 0 <= i < |a| then UNUSED.(port := a[i]) else UNUSED),
          seq(ENTRIES, i => if 0 <= i < |z| then UNUSED.(port := z[i]) else UNUSED))
  }

  /** An order that the boards take over, one that they do not, or a cancelled one; and what the
      boards report. */
  datatype Event =
    | Start(a: seq<Port>, z: seq<Port>)
    | Clear
    | Insert(port: Port, pair: Pair, tag: Tag)
    | Remove(port: Port, pair: Pair)
    | Ack(port: Port, pair: Pair, code: byte)
  {
    predicate Possible() {
      Start? ==> |a| == |z| <= ENTRIES
    }
  }

  function Next(t: Table, e: Event): (r: Table)
    requires t.Valid() && e.Possible()
    ensures r.Valid()
  {
    match e
    case Start(a, z) => Started(a, z)
    case Clear => CLEARED
    case Insert(port, p, tag) => Inserted(t, port, p, tag)
    case Remove(port, p) => Removed(t, port, p)
    case Ack(port, p, code) => Acked(t, port, p, code)
  }

  function Run(t: Table, es: seq<Event>): (r: Table)
    requires t.Valid() && Possible(es)
    ensures r.Valid()
    decreases |es|
  {
    if es == [] then t else Run(Next(t, es[0]), es[1..])
  }

  /** The two ends of a pair agree when both hold a tag. */
  ghost predicate Agree(t: Table)
    requires t.Valid()
  {
    forall p: Pair {:trigger t.ydk[p]} {:trigger t.ddk[p]} :: AgreeAt(t.ydk[p], t.ddk[p])
  }

  predicate Holds(t: Table, p: Pair, f: seq<byte>)
    requires t.Valid()
  {
    Field(t.ydk[p].tag) == f || Field(t.ddk[p].tag) == f
  }

  /** No field but the one of zeros is in two pairs. */
  ghost predicate Apart(t: Table)
    requires t.Valid()
  {
    forall p: Pair, q: Pair, f | p != q && Holds(t, p, f) && Holds(t, q, f) :: f == NO_FIELD
  }

  /** The search answers for the whole table: a tag with a real field is placed wrongly exactly when
      another pair has it. */
  lemma SearchIsExact(t: Table, p: Pair, f: seq<byte>)
    requires t.Valid() && Apart(t) && f != NO_FIELD
    ensures Misplaced(t, p, f) <==> exists q: Pair :: q != p && Holds(t, q, f)
  {
    var y, d := FirstHolder(t.ydk, f, 0), FirstHolder(t.ddk, f, 0);
    if y < ENTRIES {
      assert Holds(t, y, f);
    } else if d < ENTRIES {
      assert Holds(t, d, f);
    }
  }

  ghost predicate AgreeAt(y: End, d: End) {
    y.tag != NO_TAG && d.tag != NO_TAG ==> Field(y.tag) == Field(d.tag)
  }

  lemma PlacedAgrees(here: End, other: End, tag: Tag)
    requires AgreeAt(here, other)
    ensures AgreeAt(Placed(here, other, tag), other) && AgreeAt(other, Placed(here, other, tag))
  {
  }

  lemma InsertKeepsAgree(t: Table, port: Port, i: Pair, tag: Tag, p: Pair)
    requires t.Valid() && AgreeAt(t.ydk[p], t.ddk[p])
    ensures AgreeAt(Inserted(t, port, i, tag).ydk[p], Inserted(t, port, i, tag).ddk[p])
  {
    var y, d, t' := t.ydk[p], t.ddk[p], Inserted(t, port, i, tag);
    PlacedAgrees(y, d, tag);
    PlacedAgrees(d, y, tag);
    assert t'.ydk[p] == y || (t'.ydk[p] == Placed(y, d, tag) && t'.ddk[p] == d);
    assert t'.ddk[p] == d || (t'.ddk[p] == Placed(d, y, tag) && t'.ydk[p] == y);
  }

  /** No other event gives an end a tag that it did not hold. */
  lemma NoNewTag(t: Table, e: Event, p: Pair)
    requires t.Valid() && e.Possible() && !e.Insert?
    ensures Next(t, e).ydk[p].tag == t.ydk[p].tag || Next(t, e).ydk[p].tag == NO_TAG
    ensures Next(t, e).ddk[p].tag == t.ddk[p].tag || Next(t, e).ddk[p].tag == NO_TAG
  {
  }

  lemma StepKeepsAgree(t: Table, e: Event)
    requires t.Valid() && e.Possible() && Agree(t)
    ensures Agree(Next(t, e))
  {
    forall p: Pair
      ensures AgreeAt(Next(t, e).ydk[p], Next(t, e).ddk[p])
    {
      assert AgreeAt(t.ydk[p], t.ddk[p]);
      if e.Insert? {
        InsertKeepsAgree(t, e.port, e.pair, e.tag, p);
      } else {
        NoNewTag(t, e, p);
      }
    }
  }

  /** Any event but an insertion brings no field to any pair. */
  lemma NothingNew(t: Table, e: Event, p: Pair, f: seq<byte>)
    requires t.Valid() && e.Possible() && !e.Insert? && f != NO_FIELD && Holds(Next(t, e), p, f)
    ensures Holds(t, p, f)
  {
    NoNewTag(t, e, p);
  }

  /** An insertion brings its field to its pair alone, and only if no other pair has it. */
  lemma OnlyThere(t: Table, port: Port, i: Pair, tag: Tag, p: Pair, f: seq<byte>)
    requires t.Valid() && Holds(Inserted(t, port, i, tag), p, f)
    ensures Holds(t, p, f) || (p == i && f == Field(tag) && !Misplaced(t, i, f))
  {
  }

  lemma StepKeepsApart(t: Table, e: Event)
    requires t.Valid() && e.Possible() && Apart(t)
    ensures Apart(Next(t, e))
  {
    var t' := Next(t, e);
    forall p: Pair, q: Pair, f | p != q && Holds(t', p, f) && Holds(t', q, f)
      ensures f == NO_FIELD
    {
      if f != NO_FIELD {
        if e.Insert? {
          OnlyThere(t, e.port, e.pair, e.tag, p, f);
          OnlyThere(t, e.port, e.pair, e.tag, q, f);
          SearchIsExact(t, e.pair, f);
        } else {
          NothingNew(t, e, p, f);
          NothingNew(t, e, q, f);
        }
      }
    }
  }

  ghost predicate Possible(es: seq<Event>) {
    forall k :: 0 <= k < |es| ==> es[k].Possible()
  }

  lemma {:induction false} RunKeeps(t: Table, es: seq<Event>)
    requires t.Valid() && Possible(es) && Agree(t) && Apart(t)
    ensures Agree(Run(t, es)) && Apart(Run(t, es))
    decreases |es|
  {
    if es != [] {
      assert es[0].Possible();
      StepKeepsAgree(t, es[0]);
      StepKeepsApart(t, es[0]);
      RunKeeps(Next(t, es[0]), es[1..]);
    }
  }

  /** After every run from the cleared table: the two ends of a pair agree when both hold a tag, and
      no tag with a field other than zeros is in two pairs. */
  lemma EveryRun(es: seq<Event>)
    requires Possible(es)
    ensures Agree(Run(CLEARED, es)) && Apart(Run(CLEARED, es))
  {
    RunKeeps(CLEARED, es);
  }

  /** A tag of the given field in two pairs. */
  ghost predicate Twice(t: Table, f: seq<byte>)
    requires t.Valid()
  {
    exists p: Pair, q: Pair :: p != q && Bears(t, p, f) && Bears(t, q, f)
  }

  predicate Bears(t: Table, p: Pair, f: seq<byte>)
    requires t.Valid()
  {
    (t.ydk[p].tag != NO_TAG && Field(t.ydk[p].tag) == f) || (t.ddk[p].tag != NO_TAG && Field(t.ddk[p].tag) == f)
  }

  const BLANK: Tag := NO_TAG[0 := 1]
  const MARKED: Tag := NO_TAG[5 := 1]
  const A1 := Port(1, 1, 1)
  const A2 := Port(1, 1, 2)
  const Z1 := Port(2, 1, 1)
  const Z2 := Port(2, 1, 2)

  /** A tag whose field is all zeros passes for an empty entry of the first pair. */
  const ZERO_RUN := [Start([A1, A2], [Z1, Z2]), Insert(A1, 0, MARKED), Insert(A2, 1, BLANK), Remove(A1, 0), Insert(A1, 0, BLANK)]

  lemma ZeroTags()
    ensures BLANK != NO_TAG && Field(BLANK) == NO_FIELD && Field(MARKED) != NO_FIELD
  {
    assert BLANK[0] == 1;
    assert Field(MARKED)[0] == MARKED[5] == 1;
    assert NO_FIELD[0] == NO_TAG[5] == 0;
  }

  lemma ZeroRunTables(t1: Table, blank: Tag, marked: Tag) returns (t2: Table, t3: Table, t4: Table, t5: Table)
    requires t1 == Started([A1, A2], [Z1, Z2]) && blank != NO_TAG && Field(blank) == NO_FIELD && Field(marked) != NO_FIELD
    ensures t2 == Inserted(t1, A1, 0, marked) && t2.Valid() && t3 == Inserted(t2, A2, 1, blank) && t3.Valid()
    ensures t4 == Removed(t3, A1, 0) && t4.Valid() && t5 == Inserted(t4, A1, 0, blank) && t5.Valid()
    ensures t5.ydk[0].tag == t5.ydk[1].tag == blank
  {
    t2 := Inserted(t1, A1, 0, marked);
    assert t2 == t1.(ydk := t1.ydk[0 := End(A1, marked, ONLINE)]);
    t3 := Inserted(t2, A2, 1, blank);
    assert FirstHolder(t2.ydk, NO_FIELD, 0) == 1;
    assert t3 == t2.(ydk := t2.ydk[1 := End(A2, blank, ONLINE)]);
    t4 := Removed(t3, A1, 0);
    assert t4 == t3.(ydk := t3.ydk[0 := End(A1, NO_TAG, OFFLINE)]);
    assert FirstHolder(t4.ydk, NO_FIELD, 0) == 0;
    t5 := Inserted(t4, A1, 0, blank);
    assert t5 == t4.(ydk := t4.ydk[0 := End(A1, blank, ONLINE)]);
  }

  lemma ZeroFieldTwice()
    ensures Possible(ZERO_RUN) && BLANK != NO_TAG && Twice(Run(CLEARED, ZERO_RUN), NO_FIELD)
  {
    ZeroTags();
    var t1 := Started([A1, A2], [Z1, Z2]);
    var t2, t3, t4, t5 := ZeroRunTables(t1, BLANK, MARKED);
    assert Bears(t5, 0, NO_FIELD) && Bears(t5, 1, NO_FIELD);
    ZeroRunUnrolled(t1, t2, t3, t4, t5);
  }

  lemma ZeroRunUnrolled(t1: Table, t2: Table, t3: Table, t4: Table, t5: Table)
    requires t1.Valid() && t2.Valid() && t3.Valid() && t4.Valid() && t1 == Next(CLEARED, ZERO_RUN[0])
    requires t2 == Next(t1, ZERO_RUN[1]) && t3 == Next(t2, ZERO_RUN[2]) && t4 == Next(t3, ZERO_RUN[3]) && t5 == Next(t4, ZERO_RUN[4])
    ensures Possible(ZERO_RUN) && Run(CLEARED, ZERO_RUN) == t5
  {
    var es := ZERO_RUN;
    assert es[0..] == es && es[5..] == [];
    RunOn(CLEARED, es, 0);
    RunOn(t1, es, 1);
    RunOn(t2, es, 2);
    RunOn(t3, es, 3);
    RunOn(t4, es, 4);
  }

  /** A field can come to be borne in two pairs exactly when it is all zeros. */
  lemma TwiceExactly(f: seq<byte>)
    ensures (exists es :: Possible(es) && Twice(Run(CLEARED, es), f)) <==> f == NO_FIELD
  {
    if f == NO_FIELD {
      ZeroFieldTwice();
    } else {
      forall es | Possible(es)
        ensures !Twice(Run(CLEARED, es), f)
      {
        EveryRun(es);
        var t := Run(CLEARED, es);
        assert forall p: Pair :: Bears(t, p, f) ==> Holds(t, p, f);
      }
    }
  }

  lemma RunOn(t: Table, es: seq<Event>, k: nat)
    requires t.Valid() && Possible(es) && k < |es|
    ensures es[k].Possible() && Possible(es[k..]) && Possible(es[k + 1..])
    ensures Run(t, es[k..]) == Run(Next(t, es[k]), es[k + 1..])
  {
    assert es[k..][0] == es[k] && es[k..][1..] == es[k + 1..];
  }

  /** The automatic confirmation is prepared exactly when both ends hold a tag, which then agree;
      only that a source end whose field is all zeros also passes when the other end holds none. */
  lemma ConfirmExactly(es: seq<Event>, p: Pair)
    requires Possible(es)
    ensures var t := Run(CLEARED, es);
      AutoConfirm(t, p) <==>
        t.ydk[p].tag != NO_TAG && (t.ddk[p].tag != NO_TAG || Field(t.ydk[p].tag) == NO_FIELD)
  {
    EveryRun(es);
    var t := Run(CLEARED, es);
    assert AgreeAt(t.ydk[p], t.ddk[p]);
  }

  /** The rest of the table. */
  ghost predicate SameButAt(t: Table, t': Table, p: Pair)
    requires t.Valid() && t'.Valid()
  {
    forall q: Pair {:trigger t'.ydk[q]} {:trigger t'.ddk[q]} | q != p :: t'.ydk[q] == t.ydk[q] && t'.ddk[q] == t.ddk[q]
  }

  /** When a tag with a real field is put into a free source port, it is recorded for that end exactly
      when no other pair bears its field and the other end of the pair holds none or an agreeing one. */
  lemma RecordedExactly(es: seq<Event>, p: Pair, port: Port, tag: Tag)
    requires Possible(es) && Field(tag) != NO_FIELD
    requires Run(CLEARED, es).ydk[p].port == port && Run(CLEARED, es).ydk[p].tag == NO_TAG
    ensures var t := Run(CLEARED, es);
      var t' := Inserted(t, port, p, tag);
      && (t'.ydk[p] == End(port, tag, 0x44) <==>
            (forall q: Pair | q != p :: !Bears(t, q, Field(tag)))
            && (t.ddk[p].tag == NO_TAG || Field(t.ddk[p].tag) == Field(tag)))
      && (t'.ydk[p] == t.ydk[p] || t'.ydk[p] == End(port, tag, 0x44))
      && t'.ddk[p] == t.ddk[p] && SameButAt(t, t', p)
  {
    var t := Run(CLEARED, es);
    EveryRun(es);
    SearchIsExact(t, p, Field(tag));
    BearsIsHolds(t, Field(tag));
  }

  /** The same for the other end. */
  lemma RecordedExactlyThere(es: seq<Event>, p: Pair, port: Port, tag: Tag)
    requires Possible(es) && Field(tag) != NO_FIELD && Run(CLEARED, es).ydk[p].port != port
    requires Run(CLEARED, es).ddk[p].port == port && Run(CLEARED, es).ddk[p].tag == NO_TAG
    ensures var t := Run(CLEARED, es);
      var t' := Inserted(t, port, p, tag);
      && (t'.ddk[p] == End(port, tag, 0x44) <==>
            (forall q: Pair | q != p :: !Bears(t, q, Field(tag)))
            && (t.ydk[p].tag == NO_TAG || Field(t.ydk[p].tag) == Field(tag)))
      && (t'.ddk[p] == t.ddk[p] || t'.ddk[p] == End(port, tag, 0x44))
      && t'.ydk[p] == t.ydk[p] && SameButAt(t, t', p)
  {
    var t := Run(CLEARED, es);
    EveryRun(es);
    SearchIsExact(t, p, Field(tag));
    BearsIsHolds(t, Field(tag));
  }

  /** A tag at an end that has one already, or at a port that is not in the pair, changes nothing. */
  lemma OccupiedStays(t: Table, p: Pair, port: Port, tag: Tag)
    requires t.Valid()
    requires t.ydk[p].port == port ==> t.ydk[p].tag != NO_TAG
    requires t.ydk[p].port != port && t.ddk[p].port == port ==> t.ddk[p].tag != NO_TAG
    ensures Inserted(t, port, p, tag) == t
  {
    assert t.ydk[p := t.ydk[p]] == t.ydk && t.ddk[p := t.ddk[p]] == t.ddk;
  }

  /** In every reachable table the answer to a tag with a real field is that it is wrong exactly when
      another pair bears it. */
  lemma WrongExactly(es: seq<Event>, port: Port, p: Pair, tag: Tag)
    requires Possible(es) && Field(tag) != NO_FIELD
    ensures InsertOutcome(Run(CLEARED, es), port, p, tag) == Wrong <==>
      exists q: Pair :: q != p && Bears(Run(CLEARED, es), q, Field(tag))
  {
    EveryRun(es);
    SearchIsExact(Run(CLEARED, es), p, Field(tag));
    BearsIsHolds(Run(CLEARED, es), Field(tag));
  }

  /** A confirmation goes out exactly when both ends hold a tag afterwards, with the exception that
      `ConfirmExactly` states. */
  lemma ConfirmedExactly(es: seq<Event>, port: Port, p: Pair, tag: Tag)
    requires Possible(es) && InsertOutcome(Run(CLEARED, es), port, p, tag).Done?
    ensures var t, o := Inserted(Run(CLEARED, es), port, p, tag), InsertOutcome(Run(CLEARED, es), port, p, tag);
      (exists w :: w in o.writes && w.command.Confirm?)
      <==> t.ydk[p].tag != NO_TAG && (t.ddk[p].tag != NO_TAG || Field(t.ydk[p].tag) == NO_FIELD)
  {
    var t0 := Run(CLEARED, es);
    var t, o := Inserted(t0, port, p, tag), InsertOutcome(t0, port, p, tag);
    EveryRun(es);
    StepKeepsAgree(t0, Event.Insert(port, p, tag));
    assert AgreeAt(t.ydk[p], t.ddk[p]);
    var c := Confirmations(t, p);
    assert AutoConfirm(t, p) ==> c[0] in o.writes && c[0].command.Confirm?;
    assert !AutoConfirm(t, p) ==> c == [];
  }

  lemma BearsIsHolds(t: Table, f: seq<byte>)
    requires t.Valid() && f != NO_FIELD
    ensures forall q: Pair :: Bears(t, q, f) <==> Holds(t, q, f)
  {
  }

  /** After a mismatch this end is told to expect a tag. In every reachable table, when its partner
      holds a tag with a real field, that is the partner's tag if and only if the pair is the first. */
  lemma HintIsPartners(es: seq<Event>, p: Pair, tag: Tag)
    requires Possible(es)
    requires var t := Run(CLEARED, es);
      && t.ydk[p].tag == NO_TAG && t.ddk[p].tag != NO_TAG && Field(t.ddk[p].tag) != NO_FIELD
      && Field(t.ddk[p].tag) != Field(tag) && !Misplaced(t, p, Field(tag))
    ensures var t := Run(CLEARED, es);
      var port := t.ydk[p].port;
      InsertOutcome(t, port, p, tag) == Done([Write(port.frame, Expect(port, t.ddk[p].tag))]) <==> p == 0
  {
    var t := Run(CLEARED, es);
    EveryRun(es);
    HintOutcome(t, p, t.ydk[p].port, tag);
    assert Holds(t, p, Field(t.ddk[p].tag));
    assert t.ddk[0].tag == t.ddk[p].tag ==> Holds(t, 0, Field(t.ddk[p].tag));
  }

  /** The same at the other end. */
  lemma HintIsPartnersThere(es: seq<Event>, p: Pair, tag: Tag)
    requires Possible(es)
    requires var t := Run(CLEARED, es);
      && t.ydk[p].port != t.ddk[p].port
      && t.ddk[p].tag == NO_TAG && t.ydk[p].tag != NO_TAG && Field(t.ydk[p].tag) != NO_FIELD
      && Field(t.ydk[p].tag) != Field(tag) && !Misplaced(t, p, Field(tag))
    ensures var t := Run(CLEARED, es);
      var port := t.ddk[p].port;
      InsertOutcome(t, port, p, tag) == Done([Write(port.frame, Expect(port, t.ydk[p].tag))]) <==> p == 0
  {
    var t := Run(CLEARED, es);
    EveryRun(es);
    HintOutcomeThere(t, p, t.ddk[p].port, tag);
    assert Holds(t, p, Field(t.ydk[p].tag));
    assert t.ydk[0].tag == t.ydk[p].tag ==> Holds(t, 0, Field(t.ydk[p].tag));
  }

  lemma HintOutcome(t: Table, p: Pair, port: Port, tag: Tag)
    requires t.Valid() && port == t.ydk[p].port && t.ydk[p].tag == NO_TAG && t.ddk[p].tag != NO_TAG
    requires Field(t.ddk[p].tag) != Field(tag) && !Misplaced(t, p, Field(tag))
    ensures InsertOutcome(t, port, p, tag) == Done([Write(port.frame, Expect(port, t.ddk[0].tag))])
    ensures forall x, y :: [Write(port.frame, Expect(port, x))] == [Write(port.frame, Expect(port, y))] ==> x == y
  {
    assert Inserted(t, port, p, tag).ydk[p] == t.ydk[p];
    var hint := [Write(port.frame, Expect(port, t.ddk[0].tag))];
    assert hint + [] == hint;
    OneHint(port);
  }

  lemma HintOutcomeThere(t: Table, p: Pair, port: Port, tag: Tag)
    requires t.Valid() && port == t.ddk[p].port != t.ydk[p].port && t.ddk[p].tag == NO_TAG && t.ydk[p].tag != NO_TAG
    requires Field(t.ydk[p].tag) != Field(tag) && Field(t.ydk[p].tag) != NO_FIELD && !Misplaced(t, p, Field(tag))
    ensures InsertOutcome(t, port, p, tag) == Done([Write(port.frame, Expect(port, t.ydk[0].tag))])
    ensures forall x, y :: [Write(port.frame, Expect(port, x))] == [Write(port.frame, Expect(port, y))] ==> x == y
  {
    assert Inserted(t, port, p, tag).ydk[p] == t.ydk[p] && Inserted(t, port, p, tag).ddk[p] == t.ddk[p];
    var hint := [Write(port.frame, Expect(port, t.ydk[0].tag))];
    assert hint + [] == hint;
    OneHint(port);
  }

  const OTHER: Tag := NO_TAG[5 := 2]

  /** The first pair is still empty when the two ends of the second get different tags. */
  const HINT_RUN := [Start([A1, A2], [Z1, Z2]), Insert(A2, 1, MARKED)]

  /** So the port is told to expect no tag at all, while its partner holds one. */
  lemma WrongHint()
    ensures Possible(HINT_RUN) && Run(CLEARED, HINT_RUN).ydk[1] == End(A2, MARKED, ONLINE) && MARKED != NO_TAG
    ensures InsertOutcome(Run(CLEARED, HINT_RUN), Z2, 1, OTHER) == Done([Write(2, Expect(Z2, NO_TAG))])
  {
    ZeroTags();
    assert Field(OTHER)[0] == OTHER[5] == 2 && Field(MARKED)[0] == MARKED[5] == 1 && NO_FIELD[0] == NO_TAG[5] == 0;
    var t1, es := Started([A1, A2], [Z1, Z2]), HINT_RUN;
    assert es[0..] == es && es[2..] == [];
    RunOn(CLEARED, es, 0);
    RunOn(t1, es, 1);
    var t2 := Inserted(t1, A2, 1, MARKED);
    assert t2 == t1.(ydk := t1.ydk[1 := End(A2, MARKED, ONLINE)]);
    HintOutcomeThere(t2, 1, Z2, OTHER);
  }

  lemma OneHint(port: Port)
    ensures forall x, y :: [Write(port.frame, Expect(port, x))] == [Write(port.frame, Expect(port, y))] ==> x == y
  {
    forall x, y | [Write(port.frame, Expect(port, x))] == [Write(port.frame, Expect(port, y))]
      ensures x == y
    {
      assert [Write(port.frame, Expect(port, x))][0] == [Write(port.frame, Expect(port, y))][0];
    }
  }

  /** The command that waits in a slot: the one written last. */
  function InSlot(ws: seq<Write>, slot: byte): Option<Command> {
    if ws == [] then None
    else
      var last := ws[|ws| - 1];
      if last.slot == slot then Some(last.command) else InSlot(ws[..|ws| - 1], slot)
  }

  /** The command that waits for the port's own board confirms the port. */
  predicate BoardConfirms(ws: seq<Write>, port: Port) {
    var c := InSlot(ws, port.frame);
    c.Some? && c.value.Confirm? && port in c.value.ports
  }

  /** The board of either end gets the confirmation of its port if and only if both ends are in one
      frame. Otherwise the command for the Z end takes the place of the one for the source end, in the
      slot of the source frame, and the other slot gets none. */
  lemma BothConfirmedExactly(y: Port, d: Port)
    requires y != d
    ensures BoardConfirms(Confirmation(y, d), y) <==> y.frame == d.frame
    ensures BoardConfirms(Confirmation(y, d), d) <==> y.frame == d.frame
    ensures y.frame != d.frame ==> InSlot(Confirmation(y, d), y.frame) == Some(Confirm([d])) && InSlot(Confirmation(y, d), d.frame) == None
  {
    var ws := Confirmation(y, d);
    assert InSlot(ws, y.frame) == Some(ws[|ws| - 1].command);
    if y.frame != d.frame {
      assert ws[..1][..0] == [] && InSlot(ws[..1], d.frame) == None;
    }
  }

  /** In every reachable table: the first tag of a pair is announced to the other end; the second one,
      which agrees, is taken where it belongs and brings the confirmation, which reaches both boards if
      and only if both ends are in one frame. */
  lemma TwoTagsInTurn(es: seq<Event>, p: Pair, first: Tag, second: Tag)
    requires Possible(es) && Field(first) != NO_FIELD && Field(second) == Field(first)
    requires var t := Run(CLEARED, es);
      && t.ydk[p].tag == NO_TAG && t.ddk[p].tag == NO_TAG && t.ydk[p].port != t.ddk[p].port
      && !Misplaced(t, p, Field(first))
    ensures var t := Run(CLEARED, es);
      var y, d := t.ydk[p].port, t.ddk[p].port;
      && InsertOutcome(t, y, p, first) == Done([Write(d.frame, Expect(d, first))])
      && InsertOutcome(Inserted(t, y, p, first), d, p, second) == Done(Confirmation(y, d))
      && (BoardConfirms(Confirmation(y, d), y) && BoardConfirms(Confirmation(y, d), d) <==> y.frame == d.frame)
  {
    EveryRun(es);
    var t := Run(CLEARED, es);
    var y, d := t.ydk[p], t.ddk[p];
    var t1 := Inserted(t, y.port, p, first);
    assert t1 == t.(ydk := t.ydk[p := y.(tag := first, stat := ONLINE)]);
    StaysInPlace(t, y.port, p, first);
    var hint := [Write(d.port.frame, Expect(d.port, first))];
    assert hint + [] == hint;
    var t2 := Inserted(t1, d.port, p, second);
    assert t2 == t1.(ddk := t1.ddk[p := d.(tag := second, stat := ONLINE)]);
    assert [] + Confirmation(y.port, d.port) == Confirmation(y.port, d.port);
    BothConfirmedExactly(y.port, d.port);
  }

  /** A tag that was taken is not misplaced afterwards. */
  lemma StaysInPlace(t: Table, port: Port, p: Pair, tag: Tag)
    requires t.Valid() && Apart(t) && Field(tag) != NO_FIELD && !Misplaced(t, p, Field(tag))
    ensures !Misplaced(Inserted(t, port, p, tag), p, Field(tag))
  {
    var t1, f := Inserted(t, port, p, tag), Field(tag);
    SearchIsExact(t, p, f);
    StepKeepsApart(t, Event.Insert(port, p, tag));
    SearchIsExact(t1, p, f);
    forall q: Pair | q != p
      ensures !Holds(t1, q, f)
    {
      assert t1.ydk[q] == t.ydk[q] && t1.ddk[q] == t.ddk[q] && !Holds(t, q, f);
    }
  }

  lemma {:induction false} RunThen(t: Table, es: seq<Event>, e: Event)
    requires t.Valid() && Possible(es + [e]) && e.Possible() && Possible(es)
    ensures Run(t, es + [e]) == Next(Run(t, es), e)
    decreases |es|
  {
    var all := es + [e];
    if es == [] {
      assert all[0] == e && all[1..] == [];
    } else {
      assert all[0] == es[0] && all[1..] == es[1..] + [e];
      RunThen(Next(t, es[0]), es[1..], e);
    }
  }

  /** In every run: when the boards of both ends of a pair acknowledge, one after the other and in
      either order, the pair is done if and only if both codes are 0. */
  lemma DoneExactly(es: seq<Event>, p: Pair, y: Port, d: Port, c: byte, e: byte, yFirst: bool)
    requires Possible(es) && y != d && Run(CLEARED, es).ydk[p].port == y && Run(CLEARED, es).ddk[p].port == d
    ensures var acks := if yFirst then [Ack(y, p, c), Ack(d, p, e)] else [Ack(d, p, e), Ack(y, p, c)];
      && Possible(es + acks)
      && var t := Run(CLEARED, es + acks);
         (t.ydk[p].stat == 0x0a && t.ddk[p].stat == 0x0a <==> c == 0 && e == 0)
  {
    var a, b := if yFirst then Ack(y, p, c) else Ack(d, p, e), if yFirst then Ack(d, p, e) else Ack(y, p, c);
    var one := es + [a];
    assert es + [a, b] == one + [b];
    RunThen(CLEARED, es, a);
    RunThen(CLEARED, one, b);
  }

  /** The order in memory. */
  class Batch {
    const ydk: array<End>
    const ddk: array<End>

    ghost predicate Valid()
      reads this
    {
      ydk != ddk && ydk.Length == ENTRIES && ddk.Length == ENTRIES
    }

    ghost function State(): (t: Table)
      requires Valid()
      reads this, ydk, ddk
      ensures t.Valid()
    {
      Table(ydk[..], ddk[..])
    }

    constructor ()
      ensures Valid() && fresh(ydk) && fresh(ddk) && State() == CLEARED
    {
      ydk := new End[ENTRIES](i => UNUSED);
      ddk := new End[ENTRIES](i => UNUSED);
    }

    /** The structure is cleared: a cancelled order, or one that the boards did not take over. */
    method Clear()
      requires Valid()
      modifies ydk, ddk
      ensures State() == Next(old(State()), Event.Clear)
    {
      for i := 0 to ENTRIES
        invariant forall j :: 0 <= j < i ==> ydk[j] == UNUSED && ddk[j] == UNUSED
      {
        ydk[i], ddk[i] := UNUSED, UNUSED;
      }
    }

    /** Preparing_record_5_ports_relationship, after the structure was cleared: the ports where the
        program finds them in the frame. When it counts more pairs than the table has rows it writes
        beyond the table, which is as far as the model goes. */
    method Start(src: array<byte>, ghost n: nat) returns (inside: bool)
      requires Valid() && Received(src[..], n) && n <= ENTRIES
      modifies ydk, ddk
      ensures inside <==> Counted(ListEnd(src[..])) <= ENTRIES
      ensures inside ==> Listable(src[..])
      ensures inside ==> State() == Next(old(State()), Event.Start(AList(src[..]), ZList(src[..])))
      ensures forall j :: 0 <= j < ENTRIES ==>
        ydk[j].tag == NO_TAG && ddk[j].tag == NO_TAG && ydk[j].stat == 0x00 && ddk[j].stat == 0x00
    {
      Clear();
      var len := DataLength(src, n);
      ListsFit(src[..], n);
      var entries := CountPairs(len);
      if entries > ENTRIES {
        Empty();
        return false;
      }
      var zAt := BeginZ(len);
      Empty();
      Record(src, entries, PORTS_AT, zAt, AList(src[..]), ZList(src[..]), UNUSED);
      inside := true;
    }

    lemma Empty()
      requires Valid() && State() == CLEARED
      ensures forall j :: 0 <= j < ENTRIES ==> ydk[j] == UNUSED && ddk[j] == UNUSED
    {
      assert forall j :: 0 <= j < ENTRIES ==> CLEARED.ydk[j] == UNUSED && CLEARED.ddk[j] == UNUSED;
      assert forall j :: 0 <= j < ENTRIES ==> ydk[j] == State().ydk[j] && ddk[j] == State().ddk[j];
    }

    /** The copying of the ports, pair by pair. */
    method Record(src: array<byte>, entries: nat, at0: nat, zAt0: nat, ghost a: seq<Port>, ghost z: seq<Port>,
                  ghost none: End)
      requires Valid() && entries <= ENTRIES && forall j :: 0 <= j < ENTRIES ==> ydk[j] == none && ddk[j] == none
      requires at0 + 3 * entries <= src.Length && zAt0 + 3 * entries <= src.Length
      requires a == PortsFrom(src[..], at0, entries) && z == PortsFrom(src[..], zAt0, entries)
      modifies ydk, ddk
      ensures forall j :: 0 <= j < ENTRIES ==>
        && ydk[j] == (if j < entries then none.(port := a[j]) else none)
        && ddk[j] == (if j < entries then none.(port := z[j]) else none)
    {
      for i := 0 to entries
        invariant forall j :: 0 <= j < i ==> ydk[j] == none.(port := a[j]) && ddk[j] == none.(port := z[j])
        invariant forall j :: i <= j < ENTRIES ==> ydk[j] == none && ddk[j] == none
      {
        var p := ReadPort(src, at0 + 3 * i, at0, i, entries);
        var q := ReadPort(src, zAt0 + 3 * i, zAt0, i, entries);
        Fill(i, p, q, none);
      }
    }

    method Fill(i: nat, p: Port, q: Port, ghost none: End)
      requires Valid() && i < ENTRIES && ydk[i] == none && ddk[i] == none
      modifies ydk, ddk
      ensures ydk[i] == none.(port := p) && ddk[i] == none.(port := q)
      ensures forall j :: 0 <= j < ENTRIES && j != i ==> ydk[j] == old(ydk[j]) && ddk[j] == old(ddk[j])
    {
      ydk[i], ddk[i] := ydk[i].(port := p), ddk[i].(port := q);
    }

    /** The search of Preparing_cmd88_to_sim3u146_Borads. */
    method Search(p: Pair, f: seq<byte>) returns (wrong: bool)
      requires Valid()
      ensures wrong == Misplaced(State(), p, f)
    {
      var k := 0;
      while k < ENTRIES
        invariant 0 <= k <= ENTRIES && FirstHolder(ydk[..], f, 0) == FirstHolder(ydk[..], f, k)
      {
        if Field(ydk[k].tag) == f {
          return k != p;
        }
        k := k + 1;
      }
      k := 0;
      while k < ENTRIES
        invariant 0 <= k <= ENTRIES && FirstHolder(ddk[..], f, 0) == FirstHolder(ddk[..], f, k)
      {
        if Field(ddk[k].tag) == f {
          return k != p;
        }
        k := k + 1;
      }
      wrong := false;
    }

    /** A tag was put into the port of one end. */
    static method Place(mine: array<End>, other: array<End>, port: Port, p: Pair, tag: Tag) returns (told: seq<Write>)
      requires mine != other && mine.Length == ENTRIES && other.Length == ENTRIES
      modifies mine
      ensures mine[..] == old(mine[..])[p := Placed(old(mine[p]), other[p], tag)]
      ensures told == Told(port, old(mine[p]), other[p], other[0], tag)
    {
      told := [];
      if mine[p].tag == NO_TAG {
        if other[p].tag == NO_TAG {
          mine[p] := mine[p].(tag := tag, stat := ONLINE);
          told := [Write(other[p].port.frame, Expect(other[p].port, tag))];
        } else if Field(other[p].tag) == Field(tag) {
          mine[p] := mine[p].(tag := tag, stat := ONLINE);
        } else {
          told := [Write(port.frame, Expect(port, other[0].tag))];
        }
      }
    }

    /** A tag that is not in the wrong pair, at the end whose port is named. */
    method Admit(port: Port, p: Pair, tag: Tag) returns (told: seq<Write>)
      requires Valid() && !Misplaced(State(), p, Field(tag))
      modifies ydk, ddk
      ensures State() == Inserted(old(State()), port, p, tag)
      ensures told == (if old(ydk[p].port) == port then Told(port, old(ydk[p]), old(ddk[p]), old(ddk[0]), tag)
                       else if old(ddk[p].port) == port then Told(port, old(ddk[p]), old(ydk[p]), old(ydk[0]), tag) else [])
    {
      told := [];
      if ydk[p].port == port {
        told := Place(ydk, ddk, port, p, tag);
      } else if ddk[p].port == port {
        told := Place(ddk, ydk, port, p, tag);
      }
    }

    /** The automatic confirmation, if both ends agree. */
    method ConfirmPair(p: Pair) returns (writes: seq<Write>)
      requires Valid()
      ensures writes == Confirmations(State(), p)
    {
      writes := [];
      if Field(ydk[p].tag) == Field(ddk[p].tag) && ydk[p].tag != NO_TAG {
        var y, d := ydk[p].port, ddk[p].port;
        if y.frame == d.frame {
          writes := [Write(y.frame, Confirm([y, d]))];
        } else {
          writes := [Write(y.frame, Confirm([y])), Write(y.frame, Confirm([d]))];
        }
      }
    }

    /** A tag was put into a port: event 0x03 of Jianei_Batch_new_5_ports. */
    method Insert(port: Port, p: Pair, tag: Tag) returns (outcome: Outcome)
      requires Valid()
      modifies ydk, ddk
      ensures State() == Next(old(State()), Event.Insert(port, p, tag))
      ensures outcome == InsertOutcome(old(State()), port, p, tag)
    {
      var wrong := Search(p, Field(tag));
      if wrong {
        return Wrong;
      }
      var told := Admit(port, p, tag);
      var confirmations := ConfirmPair(p);
      outcome := Done(told + confirmations);
    }

    /** A tag was pulled out: event 0x8c. The result tells whether both ends are now without one, so
        that the boards are told to forget it. */
    method Remove(port: Port, p: Pair) returns (forget: bool)
      requires Valid()
      modifies ydk, ddk
      ensures State() == Next(old(State()), Event.Remove(port, p))
      ensures forget <==> ydk[p].stat == 0x00 && ddk[p].stat == 0x00
      // the end whose port is named, the source end first, has no tag and is offline
      ensures old(ydk[p].port) == port ==> ydk[p] == End(port, NO_TAG, 0x00) && ddk[p] == old(ddk[p])
      ensures old(ydk[p].port) != port && old(ddk[p].port) == port ==> ydk[p] == old(ydk[p]) && ddk[p] == End(port, NO_TAG, 0x00)
      ensures old(ydk[p].port) != port && old(ddk[p].port) != port ==> ydk[p] == old(ydk[p]) && ddk[p] == old(ddk[p])
      ensures forall q :: 0 <= q < ENTRIES && q != p ==> ydk[q] == old(ydk[q]) && ddk[q] == old(ddk[q])
    {
      if ydk[p].port == port {
        ydk[p] := ydk[p].(tag := NO_TAG, stat := OFFLINE);
      } else if ddk[p].port == port {
        ddk[p] := ddk[p].(tag := NO_TAG, stat := OFFLINE);
      }
      forget := ddk[p].stat == OFFLINE && ydk[p].stat == OFFLINE;
    }

    /** A board acknowledged a confirmation: event 0x0a. The result tells whether the pair is done. */
    method Ack(port: Port, p: Pair, code: byte) returns (done: bool)
      requires Valid()
      modifies ydk, ddk
      ensures State() == Next(old(State()), Event.Ack(port, p, code))
      ensures done <==> ydk[p].stat == 0x0a && ddk[p].stat == 0x0a
      // the end whose port is named, the source end first, keeps its tag and notes the code
      ensures old(ydk[p].port) == port ==> ydk[p] == old(ydk[p]).(stat := if code == 0 then 0x0a else 0x0e) && ddk[p] == old(ddk[p])
      ensures old(ydk[p].port) != port && old(ddk[p].port) == port ==>
        ydk[p] == old(ydk[p]) && ddk[p] == old(ddk[p]).(stat := if code == 0 then 0x0a else 0x0e)
      ensures old(ydk[p].port) != port && old(ddk[p].port) != port ==> ydk[p] == old(ydk[p]) && ddk[p] == old(ddk[p])
      ensures forall q :: 0 <= q < ENTRIES && q != p ==> ydk[q] == old(ydk[q]) && ddk[q] == old(ddk[q])
    {
      var stat := if code == 0 then ACKED else REFUSED;
      if ydk[p].port == port {
        ydk[p] := ydk[p].(stat := stat);
      } else if ddk[p].port == port {
        ddk[p] := ddk[p].(stat := stat);
      }
      done := ydk[p].stat == ACKED && ddk[p].stat == ACKED;
    }
  }
}
