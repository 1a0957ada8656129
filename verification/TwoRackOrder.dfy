/** The order over two racks of lib_orders/Jiajian_Order_new_2_ports.c: the master joins a port of its
    own to one of a second rack, the slave, over a connection made for the order. */
module TwoRackOrder {
  import opened Register
  import opened Tags

  datatype Reply = Success(tag: Tag) | Failure

  /** DYB_PORT_IS_EMPTY and DYB_PORT_IS_USED; a cleared structure says neither. */
  datatype PortStat = Unknown | Empty | Used

  /** What an end has acknowledged, kept behind its tag. */
  datatype AckStat = Nothing | Fine | Bad

  /** The order structure of the master. Only an order of the network manager is ever answered. */
  datatype Master = Master(hosting: bool, fromNet: bool, connected: bool, localTag: Tag, remoteTag: Tag,
                           localStat: PortStat, remoteStat: PortStat, localAck: AckStat, remoteAck: AckStat)

  const IDLE := Master(false, false, false, NO_TAG, NO_TAG, Unknown, Unknown, Nothing, Nothing)

  /** From the slave: a tag was put in, pulled out, a confirmation was acknowledged. */
  datatype ToMaster = TagIn(tag: Tag) | TagOut | Acked(code: byte)

  const UUID_LENGTH := 30

  type Uuid = u: seq<byte> | |u| == UUID_LENGTH
    witness [0, 0, 0, 0, 0, 0, 0, 0, 0, 0, 0, 0, 0, 0, 0, 0, 0, 0, 0, 0, 0, 0, 0, 0, 0, 0, 0, 0, 0, 0]

  const NO_UUID: Uuid :=
    [0, 0, 0, 0, 0, 0, 0, 0, 0, 0, 0, 0, 0, 0, 0, 0, 0, 0, 0, 0, 0, 0, 0, 0, 0, 0, 0, 0, 0, 0]

  /** To the slave: the order with the id of the rack it is for, a tag to be expected, to forget it, to
      confirm, the end of the order. */
  datatype ToSlave = Open(uuid: Uuid) | Await(tag: Tag) | Forget | Confirm | Cancel

  const CANCEL_CODE: byte := 0xa3

  /** What a step of the master puts out. */
  datatype Output = Output(sent: seq<ToSlave>, reply: seq<Reply>)

  const SILENT := Output([], [])

  predicate Match(m: Master) {
    Field(m.localTag) == Field(m.remoteTag)
  }

  /** Sending needs a connection. */
  function Sending(m: Master, msgs: seq<ToSlave>): Output {
    Output(if m.connected then msgs else [], [])
  }

  function Then(a: seq<ToSlave>, m: Master): Output {
    Sending(m, a + if Match(m) then [Confirm] else [])
  }

  /** Jiajian_order_reply_routine: no answer to an order that did not come from the network manager. */
  function Answer(m: Master, r: Reply): Output {
    Output([], if m.fromNet then [r] else [])
  }

  /** After an acknowledgement: both fine, or one of them bad, ends the order. */
  function Judge(m: Master): (Master, Output) {
    if m.localAck == Fine && m.remoteAck == Fine then (IDLE, Answer(m, Success(m.localTag)))
    else if m.localAck == Bad || m.remoteAck == Bad then (IDLE, Answer(m, Failure))
    else (m, SILENT)
  }

  function AckOf(code: byte): AckStat {
    if code == 0 then Fine else Bad
  }

  /** master_part_2_handle_routine. */
  function OnRemote(m: Master, msg: ToMaster): (Master, Output) {
    match msg
    case TagIn(tag) =>
      if m.localTag == NO_TAG then
        var m' := m.(remoteTag := tag, remoteStat := Used);
        (m', Then([], m'))
      else if Field(m.localTag) != Field(tag) then (m, Then([Await(m.localTag)], m))
      else
        var m' := m.(remoteTag := tag, remoteStat := Used);
        (m', Then([], m'))
    case TagOut =>
      var m' := m.(remoteTag := NO_TAG, remoteStat := Empty);
      if m.localStat == Empty then (m'.(localTag := NO_TAG), Sending(m', [Forget])) else (m', SILENT)
    case Acked(code) => Judge(m.(remoteAck := AckOf(code)))
  }

  /** What the boards of a rack report. */
  datatype Board = Put(tag: Tag) | Pulled | Confirmed(code: byte)

  /** master_part_3_handle_routine. */
  function OnLocal(m: Master, b: Board): (Master, Output) {
    match b
    case Put(tag) =>
      if m.remoteTag == NO_TAG then
        var m' := m.(localTag := tag, localStat := Used);
        (m', Then([Await(tag)], m'))
      else if Field(tag) != Field(m.remoteTag) then
        var m' := m.(localTag := NO_TAG);
        (m', Then([], m'))
      else
        var m' := m.(localTag := tag, localStat := Used);
        (m', Then([], m'))
    case Pulled =>
      var m' := m.(localTag := NO_TAG, localStat := Empty);
      if m.remoteStat == Empty then (m'.(remoteTag := NO_TAG), Sending(m', [Forget])) else (m', SILENT)
    case Confirmed(code) => Judge(m.(localAck := AckOf(code)))
  }

  /** slave_part_3_handle_routine: the message sent, and whether the slave is still in the order; its
      acknowledgement ends the order for it. */
  function OnSlaveBoard(b: Board): (ToMaster, bool) {
    match b
    case Put(tag) => (TagIn(tag), true)
    case Pulled => (TagOut, true)
    case Confirmed(code) => (Acked(code), false)
  }

  /** The command code of an order is looked for where its id begins, so an id can be read as a cancel. */
  predicate Joins(box: Uuid, uuid: Uuid) {
    uuid[0] != CANCEL_CODE && uuid == box
  }

  /** slave_part_1 and slave_part_2_handle_routine: which order the slave is in after a message of the
      master; all others than the first and the last only go on to its boards. */
  function OnSlave(box: Uuid, slaveOrder: nat, order: nat, msg: ToSlave): nat {
    match msg
    case Open(uuid) => if Joins(box, uuid) then order else 0
    case Cancel => 0
    case _ => slaveOrder
  }

  /** Both racks and the connection between them. Orders are numbered; the slave knows by number the
      order whose connection it has (0 for none), so that what it sends on an old one gets lost. The
      slave has the id box, and the order names the id wanted. The other fields are the history of the
      order: among them the tags that either end has reported since it last reported a tag pulled out. */
  datatype System = System(master: Master, order: nat, slaveOrder: nat, down: seq<ToSlave>, up: seq<ToMaster>,
                           box: Uuid, wanted: Uuid, byNet: bool,
                           localFine: bool, slaveFine: bool, refused: bool, replies: seq<Reply>,
                           localPut: set<Tag>, remotePut: set<Tag>)

  function AtRest(box: Uuid): System {
    System(IDLE, 0, 0, [], [], box, NO_UUID, false, false, false, false, [], {}, {})
  }

  datatype Event =
    | Start(fromNet: bool, mine: bool, uuid: Uuid)
    | Connect
    | Stop
    | Local(board: Board)
    | Slave(board: Board, lost: bool)
    | DeliverUp
    | DeliverDown
    | LoseDown

  /** The history with a report of the master's board, or with the next message of the slave. */
  function Told(s: System, b: Board): System {
    match b
    case Put(tag) => s.(localPut := s.localPut + {tag})
    case Pulled => s.(localPut := {})
    case Confirmed(code) => s.(localFine := s.localFine || code == 0)
  }

  function Heard(s: System, msg: ToMaster): System {
    match msg
    case TagIn(tag) => s.(remotePut := s.remotePut + {tag})
    case TagOut => s.(remotePut := {})
    case Acked(code) => s
  }

  function WithOutput(s: System, r: (Master, Output)): System {
    s.(master := r.0, down := s.down + r.1.sent, replies := s.replies + r.1.reply)
  }

  function Next(s: System, e: Event): System {
    match e
    case Start(fromNet, mine, uuid) =>
      // a new order clears the structure; one with a foreign rack number is answered at once
      var m := IDLE.(fromNet := fromNet, hosting := mine);
      System(m, s.order + 1, s.slaveOrder, [], [], s.box, uuid, fromNet,
             false, false, !mine, if mine then [] else Answer(m, Failure).reply, {}, {})
    case Connect =>
      if !s.master.hosting || s.master.connected then s
      else s.(master := s.master.(connected := true), down := [Open(s.wanted)], up := [])
    case Stop =>
      // a connection is made for the cancel when there is none
      s.(master := IDLE, down := s.down + [Cancel])
    case Local(b) =>
      WithOutput(Told(s, b), OnLocal(s.master, b))
    case Slave(b, lost) =>
      if s.slaveOrder == 0 then s
      else
        var (msg, stays) := OnSlaveBoard(b);
        var arrives := s.slaveOrder == s.order && !lost;
        s.(up := if arrives then s.up + [msg] else s.up,
           slaveOrder := if stays then s.slaveOrder else 0,
           slaveFine := s.slaveFine || (s.slaveOrder == s.order && b == Confirmed(0)))
    case DeliverUp =>
      if s.up == [] || !s.master.connected then s
      else WithOutput(Heard(s.(up := s.up[1..]), s.up[0]), OnRemote(s.master, s.up[0]))
    case DeliverDown =>
      if s.down == [] then s
      else s.(down := s.down[1..], slaveOrder := OnSlave(s.box, s.slaveOrder, s.order, s.down[0]))
    case LoseDown => if s.down == [] then s else s.(down := s.down[1..])
  }

  function Run(s: System, es: seq<Event>): System
    decreases |es|
  {
    if es == [] then s else Run(Next(s, es[0]), es[1..])
  }

  /** The recorded tags agree when both ends have one. */
  predicate Agree(m: Master) {
    m.localTag != NO_TAG && m.remoteTag != NO_TAG ==> Field(m.localTag) == Field(m.remoteTag)
  }

  /** What holds in every reachable state. An acknowledgement that the master has counted was given
      in this order, by the board it is counted for; and an order that was answered is over. */
  ghost predicate Inv(s: System) {
    var m := s.master;
    && Agree(m) && m.localAck != Bad && m.remoteAck != Bad
    && (m.localAck == Fine ==> s.localFine)
    && (m.remoteAck == Fine ==> s.slaveFine)
    && (Acked(0) in s.up ==> s.slaveFine)
    && (s.refused ==> !m.hosting && !m.connected && m.remoteAck == Nothing)
    && (s.refused ==> forall r :: r in s.replies ==> r == Failure)
    && (!s.refused && s.replies != [] ==> !m.fromNet && |s.replies| == 1)
    && (forall r :: r in s.replies && r.Success? ==> s.localFine && s.slaveFine)
    && (m.localTag == NO_TAG || m.localTag in s.localPut)
    && (m.remoteTag == NO_TAG || m.remoteTag in s.remotePut)
    && (m.fromNet ==> s.byNet) && (s.replies != [] ==> s.byNet)
  }

  /** The slave is in the current order only if that order names it; and a slave that has confirmed was
      in the order. */
  ghost predicate Joined(s: System) {
    && s.slaveOrder <= s.order
    && (forall msg :: msg in s.down && msg.Open? ==> !s.refused && msg.uuid == s.wanted)
    && (s.slaveOrder == s.order != 0 ==> !s.refused && Joins(s.box, s.wanted))
    && (s.slaveFine ==> !s.refused && Joins(s.box, s.wanted))
    && (s.refused ==> !s.master.hosting)
  }

  /** What a step of the master may do to acknowledgements and answers: it counts at most the one
      that came in, and an answer needs the network manager and ends the order. */
  ghost predicate Fair(m: Master, localIn: bool, remoteIn: bool, r: (Master, Output)) {
    var (m', out) := r;
    && (m'.localAck == Fine ==> m.localAck == Fine || localIn)
    && (m'.remoteAck == Fine ==> m.remoteAck == Fine || remoteIn)
    && (m' == IDLE || (m'.fromNet == m.fromNet && m'.hosting == m.hosting && m'.connected == m.connected))
    && (out.reply == [] || (m' == IDLE && m.fromNet && |out.reply| == 1))
    && m'.localAck != Bad && m'.remoteAck != Bad
    && (out.reply != [] && out.reply[0].Success? ==> (m.localAck == Fine || localIn) && (m.remoteAck == Fine || remoteIn))
  }

  lemma ConfirmedIsFair(m: Master, code: byte)
    requires Agree(m) && m.localAck != Bad && m.remoteAck != Bad
    ensures var r := Judge(m.(localAck := AckOf(code)));
      Fair(m, code == 0, false, r) && Agree(r.0) && (m.remoteAck == Nothing ==> r.0.remoteAck == Nothing)
  {
  }

  lemma PutIsFair(m: Master, tag: Tag)
    requires Agree(m) && m.localAck != Bad && m.remoteAck != Bad
    ensures Fair(m, false, false, OnLocal(m, Put(tag))) && Agree(OnLocal(m, Put(tag)).0)
    ensures OnLocal(m, Put(tag)).0.remoteAck == m.remoteAck
  {
    assert OnLocal(m, Put(tag)).1.reply == [];
  }

  lemma LocalIsFair(m: Master, b: Board)
    requires Agree(m) && m.localAck != Bad && m.remoteAck != Bad
    ensures Fair(m, b == Confirmed(0), false, OnLocal(m, b)) && Agree(OnLocal(m, b).0)
    ensures m.remoteAck == Nothing ==> OnLocal(m, b).0.remoteAck == Nothing
  {
    match b
    case Put(tag) => PutIsFair(m, tag);
    case Pulled =>
    case Confirmed(code) => ConfirmedIsFair(m, code);
  }

  lemma RemoteIsFair(m: Master, msg: ToMaster)
    requires Agree(m) && m.localAck != Bad && m.remoteAck != Bad
    ensures Fair(m, false, msg == Acked(0), OnRemote(m, msg)) && Agree(OnRemote(m, msg).0)
  {
    match msg
    case TagIn(tag) => assert OnRemote(m, msg).1.reply == [];
    case TagOut => assert OnRemote(m, msg).1.reply == [];
    case Acked(code) => assert OnRemote(m, msg) == Judge(m.(remoteAck := AckOf(code)));
  }

  /** Where a recorded tag comes from. */
  lemma LocalTags(m: Master, b: Board)
    ensures var m' := OnLocal(m, b).0;
      (m'.remoteTag == m.remoteTag || m'.remoteTag == NO_TAG)
      && (m'.localTag == NO_TAG || (m'.localTag == m.localTag && !b.Pulled?) || b == Put(m'.localTag))
  {
  }

  lemma RemoteTags(m: Master, msg: ToMaster)
    ensures var m' := OnRemote(m, msg).0;
      (m'.localTag == m.localTag || m'.localTag == NO_TAG)
      && (m'.remoteTag == NO_TAG || (m'.remoteTag == m.remoteTag && !msg.TagOut?) || msg == TagIn(m'.remoteTag))
  {
  }

  /** The invariant but for the tags, which the history has already been told about. */
  ghost predicate InvButTags(s: System) {
    Inv(s.(master := s.master.(localTag := NO_TAG, remoteTag := NO_TAG)))
  }

  lemma FairKeepsInv(s: System, localIn: bool, remoteIn: bool, r: (Master, Output), t: System)
    requires InvButTags(s) && Fair(s.master, localIn, remoteIn, r) && Agree(r.0) && t == WithOutput(s, r)
    requires (localIn ==> s.localFine) && (remoteIn ==> s.slaveFine) && (s.refused ==> r.0.remoteAck == Nothing && !remoteIn)
    requires (r.0.localTag == NO_TAG || r.0.localTag in s.localPut) && (r.0.remoteTag == NO_TAG || r.0.remoteTag in s.remotePut)
    ensures Inv(t)
  {
    if r.1.reply != [] {
      assert r.1.reply == [r.1.reply[0]];
    }
  }

  lemma LocalKeepsInv(s: System, b: Board)
    requires Inv(s)
    ensures Inv(Next(s, Local(b)))
  {
    LocalIsFair(s.master, b);
    LocalTags(s.master, b);
    FairKeepsInv(Told(s, b), b == Confirmed(0), false, OnLocal(s.master, b), Next(s, Local(b)));
  }

  lemma HeardInv(s: System, msg: ToMaster)
    requires Inv(s)
    ensures InvButTags(Heard(s, msg))
  {
  }

  lemma PoppedInv(s: System)
    requires Inv(s) && s.up != []
    ensures Inv(s.(up := s.up[1..])) && (s.up[0] == Acked(0) ==> s.slaveFine)
  {
    assert s.up[0] in s.up;
    assert forall msg :: msg in s.up[1..] ==> msg in s.up;
  }

  lemma HeardKeepsInv(s: System, msg: ToMaster)
    requires Inv(s) && (msg == Acked(0) ==> s.slaveFine) && s.master.connected
    ensures Inv(WithOutput(Heard(s, msg), OnRemote(s.master, msg)))
  {
    HeardInv(s, msg);
    RemoteIsFair(s.master, msg);
    RemoteTags(s.master, msg);
    FairKeepsInv(Heard(s, msg), false, msg == Acked(0), OnRemote(s.master, msg), WithOutput(Heard(s, msg), OnRemote(s.master, msg)));
  }

  lemma UpKeepsInv(s: System)
    requires Inv(s)
    ensures Inv(Next(s, DeliverUp))
  {
    if s.up != [] && s.master.connected {
      PoppedInv(s);
      HeardKeepsInv(s.(up := s.up[1..]), s.up[0]);
    }
  }

  lemma StepKeepsInv(s: System, e: Event)
    requires Inv(s)
    ensures Inv(Next(s, e))
  {
    match e
    case Local(b) => LocalKeepsInv(s, b);
    case DeliverUp => UpKeepsInv(s);
    case Start(fromNet, mine, uuid) =>
    case Connect =>
    case Stop =>
    case Slave(b, lost) =>
    case DeliverDown =>
    case LoseDown =>
  }

  lemma {:induction false} RunKeepsInv(s: System, es: seq<Event>)
    requires Inv(s)
    ensures Inv(Run(s, es))
    decreases |es|
  {
    if es != [] {
      StepKeepsInv(s, es[0]);
      RunKeepsInv(Next(s, es[0]), es[1..]);
    }
  }

  lemma OutputKeepsJoined(s: System, r: (Master, Output))
    requires Joined(s) && (forall msg :: msg in r.1.sent ==> !msg.Open?) && (r.0.hosting ==> s.master.hosting)
    ensures Joined(WithOutput(s, r))
  {
  }

  lemma LocalKeepsJoined(s: System, b: Board)
    requires Joined(s)
    ensures Joined(Next(s, Local(b)))
  {
    OpensNothingHere(s.master, b);
    OutputKeepsJoined(Told(s, b), OnLocal(s.master, b));
  }

  lemma HeardKeepsJoined(s: System, msg: ToMaster)
    requires Joined(s)
    ensures Joined(WithOutput(Heard(s, msg), OnRemote(s.master, msg)))
  {
    OpensNothingThere(s.master, msg);
    OutputKeepsJoined(Heard(s, msg), OnRemote(s.master, msg));
  }

  lemma UpKeepsJoined(s: System)
    requires Joined(s)
    ensures Joined(Next(s, DeliverUp))
  {
    if s.up != [] && s.master.connected {
      HeardKeepsJoined(s.(up := s.up[1..]), s.up[0]);
    }
  }

  lemma DownKeepsJoined(s: System)
    requires Joined(s)
    ensures Joined(Next(s, DeliverDown)) && Joined(Next(s, LoseDown))
  {
    if s.down != [] {
      assert s.down[0] in s.down;
      assert forall msg :: msg in s.down[1..] ==> msg in s.down;
    }
  }

  lemma StepKeepsJoined(s: System, e: Event)
    requires Joined(s)
    ensures Joined(Next(s, e))
  {
    match e
    case Local(b) => LocalKeepsJoined(s, b);
    case DeliverUp => UpKeepsJoined(s);
    case DeliverDown => DownKeepsJoined(s);
    case LoseDown => DownKeepsJoined(s);
    case Start(fromNet, mine, uuid) =>
    case Connect =>
    case Stop =>
    case Slave(b, lost) =>
  }

  lemma OpensNothingHere(m: Master, b: Board)
    ensures var (m', out) := OnLocal(m, b);
      (forall msg :: msg in out.sent ==> !msg.Open?) && (m'.hosting ==> m.hosting)
  {
  }

  lemma OpensNothingThere(m: Master, msg: ToMaster)
    ensures var (m', out) := OnRemote(m, msg);
      (forall msg :: msg in out.sent ==> !msg.Open?) && (m'.hosting ==> m.hosting)
  {
  }

  lemma {:induction false} RunKeepsJoined(s: System, es: seq<Event>)
    requires Joined(s)
    ensures Joined(Run(s, es))
    decreases |es|
  {
    if es != [] {
      StepKeepsJoined(s, es[0]);
      RunKeepsJoined(Next(s, es[0]), es[1..]);
    }
  }

  predicate Succeeded(s: System) {
    exists r :: r in s.replies && r.Success?
  }

  /** In every interleaving: the recorded tags agree whenever both ends have one, and each is one that
      its end has reported since it was last without; success is reported
      only if in this order the master's board and the slave's board both acknowledged with code 0;
      success and failure are never both reported, an accepted order is answered at most once, and one
      that did not come from the network manager never. */
  lemma EveryInterleaving(box: Uuid, es: seq<Event>)
    ensures var s := Run(AtRest(box), es);
      && Agree(s.master)
      && (s.master.localTag == NO_TAG || s.master.localTag in s.localPut)
      && (s.master.remoteTag == NO_TAG || s.master.remoteTag in s.remotePut)
      && (forall r :: r in s.replies && r.Success? ==> s.localFine && s.slaveFine)
      && !(Failure in s.replies && Succeeded(s))
      && (!s.refused ==> |s.replies| <= 1)
      && (!s.byNet ==> s.replies == [])
  {
    RunKeepsInv(AtRest(box), es);
    var s := Run(AtRest(box), es);
    if !s.refused && s.replies != [] {
      assert s.replies == [s.replies[0]];
    }
  }

  /** In every reachable state, an acknowledgement of the master's board is answered exactly when the
      order came from the network manager, and the board refuses or the slave has acknowledged. */
  lemma AnsweredLocally(box: Uuid, es: seq<Event>, code: byte)
    ensures var m := Run(AtRest(box), es).master;
      var reply := OnLocal(m, Confirmed(code)).1.reply;
      && (reply != [] <==> m.fromNet && (code != 0 || m.remoteAck == Fine))
      && (reply != [] ==> reply == [if code == 0 then Success(m.localTag) else Failure])
  {
    RunKeepsInv(AtRest(box), es);
  }

  /** The same for one of the slave. */
  lemma AnsweredRemotely(box: Uuid, es: seq<Event>, code: byte)
    ensures var m := Run(AtRest(box), es).master;
      var reply := OnRemote(m, Acked(code)).1.reply;
      && (reply != [] <==> m.fromNet && (code != 0 || m.localAck == Fine))
      && (reply != [] ==> reply == [if code == 0 then Success(m.localTag) else Failure])
  {
    RunKeepsInv(AtRest(box), es);
  }

  /** The shortest run in which both racks acknowledge. */
  const BOTH_FINE := [Connect, DeliverDown, Local(Confirmed(0)), Slave(Confirmed(0), false), DeliverUp]

  lemma BothFine(box: Uuid, fromNet: bool)
    requires box[0] != CANCEL_CODE
    ensures var s := Run(AtRest(box), [Start(fromNet, true, box)] + BOTH_FINE);
      s.localFine && s.slaveFine && s.replies == if fromNet then [Success(NO_TAG)] else []
  {
    var es := BOTH_FINE;
    StartThen(AtRest(box), Start(fromNet, true, box), es);
    var s0 := Next(AtRest(box), Start(fromNet, true, box));
    var s1 := Next(s0, Connect);
    var s2 := Next(s1, DeliverDown);
    assert s1.down == [Open(box)] && Joins(box, box) && s2.slaveOrder == s2.order == 1;
    var s3 := Next(s2, Local(Confirmed(0)));
    assert s3.master == s2.master.(localAck := Fine) && s3.replies == [];
    var s4 := Next(s3, Slave(Confirmed(0), false));
    assert s4.up == [Acked(0)];
    var s5 := Next(s4, DeliverUp);
    assert s5.replies == if fromNet then [Success(NO_TAG)] else [];
    assert es[1..][1..] == es[2..] && es[2..][1..] == es[3..] && es[3..][1..] == es[4..] && es[4..][1..] == [];
    assert Run(s4, es[4..]) == s5 && Run(s3, es[3..]) == s5 && Run(s2, es[2..]) == s5 && Run(s1, es[1..]) == s5;
  }

  lemma StartThen(s: System, e: Event, es: seq<Event>)
    ensures Run(s, [e] + es) == Run(Next(s, e), es)
  {
    assert ([e] + es)[0] == e && ([e] + es)[1..] == es;
  }

  /** So an order of a mobile terminal that both racks carry out ends without an answer. */
  lemma MobileUnanswered(box: Uuid)
    requires box[0] != CANCEL_CODE
    ensures var s := Run(AtRest(box), [Start(false, true, box)] + BOTH_FINE);
      s.localFine && s.slaveFine && s.replies == []
  {
    BothFine(box, false);
  }

  predicate OneOrder(es: seq<Event>) {
    forall k :: 0 <= k < |es| ==> !es[k].Start?
  }

  predicate SameOrder(s: System, t: System) {
    t.box == s.box && t.wanted == s.wanted && t.byNet == s.byNet && t.refused == s.refused
  }

  lemma HeardStays(s: System)
    ensures SameOrder(s, Next(s, DeliverUp))
  {
    if s.up != [] {
      assert SameOrder(s, Heard(s.(up := s.up[1..]), s.up[0]));
    }
  }

  lemma StepStays(s: System, e: Event)
    requires !e.Start?
    ensures SameOrder(s, Next(s, e))
  {
    match e
    case Local(b) => assert SameOrder(s, Told(s, b));
    case DeliverUp => HeardStays(s);
    case _ =>
  }

  lemma {:induction false} OrderStays(s: System, es: seq<Event>)
    requires OneOrder(es)
    ensures SameOrder(s, Run(s, es))
    decreases |es|
  {
    if es != [] {
      StepStays(s, es[0]);
      OrderStays(Next(s, es[0]), es[1..]);
    }
  }

  /** An order can end with success if and only if it came from the network manager, names a port of the
      master, and names the slave by an id that does not begin with the code of a cancel. */
  lemma SuccessExactly(box: Uuid, fromNet: bool, mine: bool, uuid: Uuid)
    ensures (exists es :: OneOrder(es) && Succeeded(Run(AtRest(box), [Start(fromNet, mine, uuid)] + es)))
      <==> fromNet && mine && uuid == box && uuid[0] != 0xa3
  {
    var start := Start(fromNet, mine, uuid);
    if fromNet && mine && Joins(box, uuid) {
      BothFine(box, true);
      assert Success(NO_TAG) in Run(AtRest(box), [start] + BOTH_FINE).replies;
      assert OneOrder(BOTH_FINE);
    }
    forall es | OneOrder(es) && Succeeded(Run(AtRest(box), [start] + es))
      ensures fromNet && mine && Joins(box, uuid)
    {
      EveryInterleaving(box, [start] + es);
      RunKeepsJoined(AtRest(box), [start] + es);
      StartThen(AtRest(box), start, es);
      OrderStays(Next(AtRest(box), start), es);
    }
  }

  /** In every reachable state a tag that is heard from the slave is recorded, unless the master's end
      has one with another field: then nothing changes and the slave is told to expect that one. */
  lemma HeardIsRecorded(box: Uuid, es: seq<Event>, tag: Tag)
    requires var s := Run(AtRest(box), es); s.master.connected && s.up != [] && s.up[0] == TagIn(tag)
    ensures var s := Run(AtRest(box), es);
      var m, s' := s.master, Next(s, DeliverUp);
      && (m.localTag == NO_TAG || Field(m.localTag) == Field(tag) ==>
            s'.master == m.(remoteTag := tag, remoteStat := Used))
      && (m.localTag != NO_TAG && Field(m.localTag) != Field(tag) ==>
            s'.master == m && |s'.down| > |s.down| && s'.down[|s.down|] == Await(m.localTag))
  {
  }

  /** So a tag that is then put in at the master's end and has another field is caught: it is neither
      recorded nor announced, and the slave's tag stays. */
  lemma MismatchCaught(box: Uuid, es: seq<Event>, theirs: Tag, mine: Tag)
    requires var s := Run(AtRest(box), es);
      s.master.connected && s.up != [] && s.up[0] == TagIn(theirs) && s.master.localTag == NO_TAG
    requires Field(theirs) != NO_FIELD && Field(mine) != Field(theirs)
    ensures var s1 := Next(Run(AtRest(box), es), DeliverUp);
      var s2 := Next(s1, Local(Put(mine)));
      && s2.master.localTag == NO_TAG && s2.master.remoteTag == theirs && s2.down == s1.down
  {
    var s1 := Next(Run(AtRest(box), es), DeliverUp);
    assert s1.master.remoteTag == theirs != NO_TAG && s1.master.localTag == NO_TAG;
    assert !Match(OnLocal(s1.master, Put(mine)).0);
    assert s1.down + [] == s1.down;
  }

  predicate BothHold(m: Master) {
    m.localTag != NO_TAG && m.remoteTag != NO_TAG
  }

  predicate BothBlank(m: Master) {
    Field(m.localTag) == NO_FIELD && Field(m.remoteTag) == NO_FIELD
  }

  lemma MatchExactly(m: Master)
    requires Agree(m)
    ensures Match(m) <==> BothHold(m) || BothBlank(m)
  {
    assert m.localTag == NO_TAG ==> Field(m.localTag) == NO_FIELD;
  }

  /** A confirmation is asked for, when a tag comes in, exactly when both ends have a tag, which then
      agree; or when the fields of both ends are all zeros. */
  lemma LocalConfirm(box: Uuid, es: seq<Event>, tag: Tag)
    ensures var m := Run(AtRest(box), es).master;
      var (m', out) := OnLocal(m, Put(tag));
      Confirm in out.sent <==> m.connected && (BothHold(m') || BothBlank(m'))
  {
    RunKeepsInv(AtRest(box), es);
    ConfirmedWhenMatching(Run(AtRest(box), es).master, tag);
  }

  lemma ConfirmedWhenMatching(m: Master, tag: Tag)
    requires Agree(m) && m.localAck != Bad && m.remoteAck != Bad
    ensures var (m', out) := OnLocal(m, Put(tag));
      Confirm in out.sent <==> m.connected && (BothHold(m') || BothBlank(m'))
  {
    PutIsFair(m, tag);
    MatchExactly(OnLocal(m, Put(tag)).0);
  }

  lemma RemoteConfirm(box: Uuid, es: seq<Event>, tag: Tag)
    ensures var m := Run(AtRest(box), es).master;
      var (m', out) := OnRemote(m, TagIn(tag));
      Confirm in out.sent <==> m.connected && (BothHold(m') || BothBlank(m'))
  {
    RunKeepsInv(AtRest(box), es);
    var m := Run(AtRest(box), es).master;
    RemoteIsFair(m, TagIn(tag));
    MatchExactly(OnRemote(m, TagIn(tag)).0);
  }

  /** What the slave is told fits what the master holds afterwards: a tag to be expected is the one at
      the master's end, and a tag is to be forgotten only when both ends are without one. */
  ghost predicate Truthful(r: (Master, Output)) {
    forall msg :: msg in r.1.sent ==>
      (msg.Await? ==> msg.tag == r.0.localTag) && (msg.Forget? ==> r.0.localTag == NO_TAG && r.0.remoteTag == NO_TAG)
  }

  lemma LocalIsTruthful(m: Master, b: Board)
    ensures Truthful(OnLocal(m, b))
  {
  }

  lemma RemoteIsTruthful(m: Master, msg: ToMaster)
    ensures Truthful(OnRemote(m, msg))
  {
  }

  /** The order structure of the slave: all that it keeps is the order whose connection it has. */
  class Slave {
    const box: Uuid
    var order: nat

    constructor (id: Uuid)
      ensures order == 0 && box == id
    {
      box, order := id, 0;
    }

    /** slave_part_3_handle_routine: a report of the slave's boards goes to the master if there is a
        connection; an acknowledgement ends the order. */
    method FromBoard(b: Board) returns (sent: seq<ToMaster>)
      modifies this
      ensures sent == if old(order) == 0 then [] else [OnSlaveBoard(b).0]
      ensures order == if OnSlaveBoard(b).1 then old(order) else 0
      ensures b.Put? && old(order) != 0 ==> sent == [TagIn(b.tag)] && order == old(order)
      ensures b.Pulled? && old(order) != 0 ==> sent == [TagOut] && order == old(order)
      ensures b.Confirmed? && old(order) != 0 ==> sent == [ToMaster.Acked(b.code)] && order == 0
    {
      var connected := order != 0;
      var msg;
      match b {
        case Put(tag) => msg := TagIn(tag);
        case Pulled => msg := TagOut;
        case Confirmed(code) =>
          msg := ToMaster.Acked(code);
          order := 0;
      }
      sent := if connected then [msg] else [];
    }

    /** A message of the master: a new order on its connection, the end of it, or one for the boards. */
    method FromMaster(msg: ToSlave, number: nat)
      modifies this
      ensures order == OnSlave(box, old(order), number, msg)
      ensures msg.Open? ==> order == if msg.uuid[0] != 0xa3 && msg.uuid == box then number else 0
      ensures msg.Cancel? ==> order == 0
      ensures msg.Await? || msg.Forget? || msg.Confirm? ==> order == old(order)
    {
      match msg {
        case Open(uuid) =>
          order := 0;
          if uuid[0] != CANCEL_CODE && uuid == box {
            order := number;
          }
        case Cancel => order := 0;
        case _ =>
      }
    }
  }

  /** The order structure of the master in memory. */
  class Rack {
    var hosting: bool
    var fromNet: bool
    var connected: bool
    var localTag: Tag
    var remoteTag: Tag
    var localStat: PortStat
    var remoteStat: PortStat
    var localAck: AckStat
    var remoteAck: AckStat

    function State(): Master
      reads this
    {
      Master(hosting, fromNet, connected, localTag, remoteTag, localStat, remoteStat, localAck, remoteAck)
    }

    constructor ()
      ensures State() == IDLE
    {
      hosting, fromNet, connected := false, false, false;
      localTag, remoteTag := NO_TAG, NO_TAG;
      localStat, remoteStat, localAck, remoteAck := Unknown, Unknown, Nothing, Nothing;
    }

    method Clear()
      modifies this
      ensures State() == IDLE
    {
      hosting, fromNet, connected := false, false, false;
      localTag, remoteTag := NO_TAG, NO_TAG;
      localStat, remoteStat, localAck, remoteAck := Unknown, Unknown, Nothing, Nothing;
    }

    /** A new order: master_part_1_handle_routine. One that does not name this rack is answered at once. */
    method Accept(fromNet: bool, mine: bool, ghost s: System, ghost uuid: Uuid) returns (out: Output)
      modifies this
      ensures State() == Next(s, Start(fromNet, mine, uuid)).master && out.reply == Next(s, Start(fromNet, mine, uuid)).replies
      ensures hosting == mine && this.fromNet == fromNet && !connected && localTag == NO_TAG && remoteTag == NO_TAG
      ensures localStat == Unknown && remoteStat == Unknown && localAck == Nothing && remoteAck == Nothing
      ensures out == Output([], if fromNet && !mine then [Failure] else [])
    {
      Clear();
      this.fromNet := fromNet;
      out := SILENT;
      if !mine {
        return Answer(State(), Failure);
      }
      hosting := true;
    }

    /** The cancel of an order. */
    method Withdraw(ghost s: System) returns (out: Output)
      modifies this
      ensures State() == IDLE == Next(s, Stop).master && out == Output([Cancel], [])
      ensures Next(s, Stop).down == s.down + out.sent
    {
      out := Output([Cancel], []);
      Clear();
    }

    /** Both ends have acknowledged, or one of them badly: the answer, and the end of the order. */
    method Finish() returns (out: Output)
      modifies this
      ensures (State(), out) == Judge(old(State()))
    {
      out := SILENT;
      if localAck == Fine && remoteAck == Fine {
        out := Answer(State(), Success(localTag));
        Clear();
      } else {
        if localAck == Bad || remoteAck == Bad {
          out := Answer(State(), Failure);
          Clear();
        }
      }
    }

    /** master_part_2_handle_routine: a message of the slave. */
    method Remote(msg: ToMaster) returns (out: Output)
      modifies this
      ensures (State(), out) == OnRemote(old(State()), msg)
      // a tag of the slave is recorded unless the master's end has another one
      ensures msg.TagIn? && (old(localTag) == NO_TAG || Field(old(localTag)) == Field(msg.tag)) ==>
        State() == old(State()).(remoteTag := msg.tag, remoteStat := Used)
      ensures msg.TagIn? && old(localTag) != NO_TAG && Field(old(localTag)) != Field(msg.tag) ==>
        State() == old(State()) && (connected ==> out.sent != [] && out.sent[0] == Await(localTag))
      ensures msg.TagIn? && (old(localTag) == NO_TAG || Field(old(localTag)) == Field(msg.tag)) ==>
        forall o :: o in out.sent ==> o == Confirm
      // pulling out clears its own end; only when both ends are empty all is forgotten
      ensures msg.TagOut? ==> State() == old(State()).(remoteTag := NO_TAG, remoteStat := Empty, localTag := localTag)
      ensures msg.TagOut? ==> localTag == if old(localStat) == Empty then NO_TAG else old(localTag)
      ensures msg.TagOut? ==> out.sent == (if connected && localStat == Empty && remoteStat == Empty then [Forget] else [])
      // code 0 from both ends is success, any other code a failure
      ensures msg.Acked? && msg.code == 0 && old(localAck) == Nothing ==>
        State() == old(State()).(remoteAck := Fine) && out == Output([], [])
      ensures msg.Acked? && msg.code == 0 && old(localAck) == Fine && old(fromNet) ==> out == Output([], [Success(old(localTag))])
      ensures msg.Acked? && msg.code != 0 && old(fromNet) ==> out == Output([], [Failure])
      ensures msg.Acked? && (msg.code != 0 || old(localAck) != Nothing) ==> State() == IDLE
      ensures !msg.Acked? ==> out.reply == []
      ensures !old(connected) ==> out.sent == []
    {
      match msg
      case TagIn(tag) =>
        var sent := [];
        if localTag == NO_TAG {
          remoteTag, remoteStat := tag, Used;
        } else {
          if Field(localTag) != Field(tag) {
            sent := [Await(localTag)];
          } else {
            remoteTag, remoteStat := tag, Used;
          }
        }
        out := Then(sent, State());
      case TagOut =>
        remoteTag, remoteStat := NO_TAG, Empty;
        out := SILENT;
        if localStat == Empty {
          localTag := NO_TAG;
          out := Sending(State(), [Forget]);
        }
      case Acked(code) =>
        remoteAck := AckOf(code);
        out := Finish();
    }

    /** master_part_3_handle_routine: a report of the rack's own boards. */
    method Local(b: Board) returns (out: Output)
      modifies this
      ensures (State(), out) == OnLocal(old(State()), b)
      // a tag is recorded unless the slave's end has another one; then this end has none
      ensures b.Put? && (old(remoteTag) == NO_TAG || Field(b.tag) == Field(old(remoteTag))) ==>
        State() == old(State()).(localTag := b.tag, localStat := Used)
      ensures b.Put? && old(remoteTag) != NO_TAG && Field(b.tag) != Field(old(remoteTag)) ==>
        State() == old(State()).(localTag := NO_TAG)
      // it is announced to the slave exactly when that has none
      ensures b.Put? && connected ==> (Await(b.tag) in out.sent <==> old(remoteTag) == NO_TAG)
      ensures b.Put? ==> forall o :: o in out.sent ==> o == Await(b.tag) || o == Confirm
      ensures b.Pulled? ==> State() == old(State()).(localTag := NO_TAG, localStat := Empty, remoteTag := remoteTag)
      ensures b.Pulled? ==> remoteTag == if old(remoteStat) == Empty then NO_TAG else old(remoteTag)
      ensures b.Pulled? ==> out.sent == (if connected && localStat == Empty && remoteStat == Empty then [Forget] else [])
      ensures b.Confirmed? && b.code == 0 && old(remoteAck) == Nothing ==>
        State() == old(State()).(localAck := Fine) && out == Output([], [])
      ensures b.Confirmed? && b.code == 0 && old(remoteAck) == Fine && old(fromNet) ==> out == Output([], [Success(old(localTag))])
      ensures b.Confirmed? && b.code != 0 && old(fromNet) ==> out == Output([], [Failure])
      ensures b.Confirmed? && (b.code != 0 || old(remoteAck) != Nothing) ==> State() == IDLE
      ensures !b.Confirmed? ==> out.reply == []
      ensures !old(connected) ==> out.sent == []
    {
      match b
      case Put(tag) =>
        var sent := [];
        if remoteTag == NO_TAG {
          localTag, localStat := tag, Used;
          sent := [Await(tag)];
        } else {
          if Field(tag) != Field(remoteTag) {
            localTag := NO_TAG;
          } else {
            localTag, localStat := tag, Used;
          }
        }
        out := Then(sent, State());
      case Pulled =>
        localTag, localStat := NO_TAG, Empty;
        out := SILENT;
        if remoteStat == Empty {
          remoteTag := NO_TAG;
          out := Sending(State(), [Forget]);
        }
      case Confirmed(code) =>
        localAck := AckOf(code);
        out := Finish();
    }
  }
}
