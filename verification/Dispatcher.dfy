/** Sending the waiting commands to the interface boards, with retries:
    module_order_tasks_to_sim3u1xx_board of lib_orders/Jianei_common.c. */
module Dispatcher {
  import opened Register

  const BOARDS := 16
  const ROUNDS := 3
  const SLOT := 600
  const CANCEL: byte := 0xa2

  /** The transmit buffer of a board. */
  type Slot = s: seq<byte> | |s| == SLOT witness seq(SLOT, i => 0)

  predicate Waits(s: Slot) {
    s[3] != 0
  }

  /** Whether a board acknowledges in a round. */
  type Replies = (nat, nat) -> bool

  predicate AckedBefore(replies: Replies, b: nat, round: nat) {
    exists j: nat :: j < round && replies(j, b)
  }

  datatype Write = Write(round: nat, board: nat)

  /** A board is written in a round if it waits and has not acknowledged before. */
  predicate Due(waits: seq<bool>, replies: Replies, w: Write) {
    w.board < |waits| && waits[w.board] && !AckedBefore(replies, w.board, w.round)
  }

  /** The writes of one round to the boards below b. */
  function InRound(waits: seq<bool>, replies: Replies, round: nat, b: nat): seq<Write> {
    if b == 0 then []
    else
      var w := Write(round, b - 1);
      InRound(waits, replies, round, b - 1) + if Due(waits, replies, w) then [w] else []
  }

  /** The writes of the rounds below the given one. */
  function Writes(waits: seq<bool>, replies: Replies, round: nat): seq<Write> {
    if round == 0 then [] else Writes(waits, replies, round - 1) + InRound(waits, replies, round - 1, |waits|)
  }

  predicate Earlier(a: Write, b: Write) {
    a.round < b.round || (a.round == b.round && a.board < b.board)
  }

  ghost predicate Increasing(ws: seq<Write>) {
    forall i, j :: 0 <= i < j < |ws| ==> Earlier(ws[i], ws[j])
  }

  lemma {:induction false} InRoundMembers(waits: seq<bool>, replies: Replies, round: nat, b: nat, w: Write)
    ensures w in InRound(waits, replies, round, b) <==> w.round == round && w.board < b && Due(waits, replies, w)
  {
    if b > 0 {
      InRoundMembers(waits, replies, round, b - 1, w);
    }
  }

  lemma {:induction false} WritesMembers(waits: seq<bool>, replies: Replies, round: nat, w: Write)
    ensures w in Writes(waits, replies, round) <==> w.round < round && Due(waits, replies, w)
  {
    if round > 0 {
      WritesMembers(waits, replies, round - 1, w);
      InRoundMembers(waits, replies, round - 1, |waits|, w);
    }
  }

  lemma {:induction false} InRoundIncreasing(waits: seq<bool>, replies: Replies, round: nat, b: nat)
    ensures var ws := InRound(waits, replies, round, b);
      Increasing(ws) && forall i :: 0 <= i < |ws| ==> ws[i].round == round && ws[i].board < b
  {
    if b > 0 {
      InRoundIncreasing(waits, replies, round, b - 1);
    }
  }

  lemma {:induction false} WritesIncreasing(waits: seq<bool>, replies: Replies, round: nat)
    ensures var ws := Writes(waits, replies, round);
      Increasing(ws) && forall i :: 0 <= i < |ws| ==> ws[i].round < round
  {
    if round > 0 {
      WritesIncreasing(waits, replies, round - 1);
      InRoundIncreasing(waits, replies, round - 1, |waits|);
    }
  }

  function CountOf(ws: seq<Write>, b: nat): nat {
    if ws == [] then 0 else CountOf(ws[..|ws| - 1], b) + if ws[|ws| - 1].board == b then 1 else 0
  }

  lemma {:induction false} CountConcat(a: seq<Write>, c: seq<Write>, b: nat)
    ensures CountOf(a + c, b) == CountOf(a, b) + CountOf(c, b)
  {
    if c == [] {
      assert a + c == a;
    } else {
      assert (a + c)[..|a + c| - 1] == a + c[..|c| - 1];
      CountConcat(a, c[..|c| - 1], b);
    }
  }

  lemma {:induction false} CountInRound(waits: seq<bool>, replies: Replies, round: nat, k: nat, b: nat)
    ensures CountOf(InRound(waits, replies, round, k), b) == if b < k && Due(waits, replies, Write(round, b)) then 1 else 0
  {
    if k > 0 {
      CountInRound(waits, replies, round, k - 1, b);
      var w := Write(round, k - 1);
      var last := if Due(waits, replies, w) then [w] else [];
      CountConcat(InRound(waits, replies, round, k - 1), last, b);
    }
  }

  lemma {:induction false} CountInRounds(waits: seq<bool>, replies: Replies, n: nat, b: nat)
    requires b < |waits|
    ensures CountOf(Writes(waits, replies, n), b) == if waits[b] then Tries(replies, b, n) else 0
  {
    if n > 0 {
      CountInRounds(waits, replies, n - 1, b);
      var last := InRound(waits, replies, n - 1, |waits|);
      CountInLast(waits, replies, n - 1, b, last);
      CountTogether(Writes(waits, replies, n - 1), last, Writes(waits, replies, n), b);
    }
  }

  lemma CountInLast(waits: seq<bool>, replies: Replies, round: nat, b: nat, last: seq<Write>)
    requires b < |waits| && last == InRound(waits, replies, round, |waits|)
    ensures CountOf(last, b) == if waits[b] && !AckedBefore(replies, b, round) then 1 else 0
  {
    CountInRound(waits, replies, round, |waits|, b);
  }

  lemma CountTogether(before: seq<Write>, last: seq<Write>, all: seq<Write>, b: nat)
    requires all == before + last
    ensures CountOf(all, b) == CountOf(before, b) + CountOf(last, b)
  {
    CountConcat(before, last, b);
  }

  /** How many of n tries a board needs: one more than it leaves unanswered, or all. */
  function Tries(replies: Replies, b: nat, n: nat): nat {
    if n == 0 then 0 else Tries(replies, b, n - 1) + if AckedBefore(replies, b, n - 1) then 0 else 1
  }

  lemma {:induction false} TriesBounds(replies: Replies, b: nat, n: nat)
    ensures Tries(replies, b, n) <= n && (n > 0 ==> Tries(replies, b, n) >= 1)
  {
    if n > 0 {
      TriesBounds(replies, b, n - 1);
    }
  }

  /** The number of writes to a waiting board: up to the first acknowledgement, and three at most. */
  lemma WritesExactly(waits: seq<bool>, replies: Replies, b: nat)
    requires b < |waits| && waits[b]
    ensures var n := CountOf(Writes(waits, replies, ROUNDS), b);
      && (replies(0, b) ==> n == 1)
      && (!replies(0, b) && replies(1, b) ==> n == 2)
      && (!replies(0, b) && !replies(1, b) ==> n == 3)
  {
    CountInRounds(waits, replies, ROUNDS, b);
    assert Tries(replies, b, 1) == 1;
    AckedNext(replies, b, 0);
    AckedNext(replies, b, 1);
    assert Tries(replies, b, 3) == Tries(replies, b, 2) + if AckedBefore(replies, b, 2) then 0 else 1;
    assert Tries(replies, b, 2) == Tries(replies, b, 1) + if AckedBefore(replies, b, 1) then 0 else 1;
  }

  /** Every waiting board is written at least once and at most three times, never after its
      acknowledgement, and no other board is written; the rounds follow one another, and in each the
      boards are taken in order. */
  lemma DispatchWrites(waits: seq<bool>, replies: Replies, b: nat)
    requires b < |waits|
    ensures var ws := Writes(waits, replies, ROUNDS);
      && Increasing(ws)
      && (waits[b] ==> 1 <= CountOf(ws, b) <= 3) && (!waits[b] ==> CountOf(ws, b) == 0)
      && (forall w :: w in ws ==> w.round < ROUNDS && !AckedBefore(replies, w.board, w.round))
  {
    WritesIncreasing(waits, replies, ROUNDS);
    CountInRounds(waits, replies, ROUNDS, b);
    TriesBounds(replies, b, ROUNDS);
    forall w | w in Writes(waits, replies, ROUNDS)
      ensures w.round < ROUNDS && !AckedBefore(replies, w.board, w.round)
    {
      WritesMembers(waits, replies, ROUNDS, w);
    }
  }

  const BLANK: Slot := seq(SLOT, i => 0)

  function Waiting(slots: seq<Slot>): (r: seq<bool>)
    ensures |r| == |slots|
  {
    seq(|slots|, i requires 0 <= i < |slots| => Waits(slots[i]))
  }

  predicate AllAcked(waits: seq<bool>, replies: Replies) {
    forall b :: 0 <= b < |waits| && waits[b] ==> AckedBefore(replies, b, ROUNDS)
  }

  lemma BlankDoesNotWait()
    ensures !Waits(BLANK)
  {
  }

  lemma AckedNext(replies: Replies, b: nat, round: nat)
    ensures AckedBefore(replies, b, round + 1) <==> AckedBefore(replies, b, round) || replies(round, b)
  {
  }

  class Uart {
    const txBuf: array<Slot>
    const inOrder: array<bool>

    ghost predicate Shaped() {
      txBuf.Length == BOARDS && inOrder.Length == BOARDS
    }

    constructor ()
      ensures Shaped() && fresh(txBuf) && fresh(inOrder)
    {
      txBuf := new Slot[BOARDS](i => BLANK);
      inOrder := new bool[BOARDS](i => false);
    }

    /** The first loop: which boards have a command, and are to be marked as busy with an order, which
        a cancelled order does not make them. */
    method Mark() returns (tasks: array<bool>)
      requires Shaped()
      modifies inOrder
      ensures fresh(tasks) && tasks[..] == Waiting(txBuf[..])
      ensures forall b :: 0 <= b < BOARDS ==> (tasks[b] <==> txBuf[b][3] != 0)
      ensures forall b :: 0 <= b < BOARDS ==> inOrder[b] == (old(inOrder[b]) || (txBuf[b][3] != 0 && txBuf[b][4] != 0xa2))
    {
      tasks := new bool[BOARDS](i => false);
      for b := 0 to BOARDS
        invariant forall c :: b <= c < BOARDS ==> inOrder[c] == old(inOrder[c])
        invariant forall c :: 0 <= c < b ==> tasks[c] == Waits(txBuf[c])
        invariant forall c :: b <= c < BOARDS ==> !tasks[c]
        invariant forall c :: 0 <= c < b ==> inOrder[c] == (old(inOrder[c]) || (Waits(txBuf[c]) && txBuf[c][4] != CANCEL))
      {
        if Waits(txBuf[b]) {
          tasks[b] := true;
          if txBuf[b][4] != CANCEL {
            inOrder[b] := true;
          }
        }
      }
    }

    /** One round: every board that still has its task is written, and loses it when it acknowledges. */
    method Round(tasks: array<bool>, ghost waits: seq<bool>, replies: Replies, round: nat, ghost log0: seq<Write>)
      returns (ghost log: seq<Write>)
      requires Shaped() && tasks != inOrder && tasks.Length == BOARDS == |waits|
      requires forall b :: 0 <= b < BOARDS ==> tasks[b] == (waits[b] && !AckedBefore(replies, b, round))
      requires forall b :: 0 <= b < BOARDS ==> tasks[b] == Waits(txBuf[b])
      modifies tasks, txBuf
      ensures forall b :: 0 <= b < BOARDS ==> tasks[b] == (waits[b] && !AckedBefore(replies, b, round + 1))
      ensures forall b :: 0 <= b < BOARDS ==> tasks[b] == Waits(txBuf[b])
      ensures log == log0 + InRound(waits, replies, round, |waits|)
    {
      log := log0;
      BlankDoesNotWait();
      assert log0 + [] == log0;
      for b := 0 to BOARDS
        invariant forall c :: b <= c < BOARDS ==> tasks[c] == (waits[c] && !AckedBefore(replies, c, round))
        invariant forall c :: 0 <= c < b ==> tasks[c] == (waits[c] && !AckedBefore(replies, c, round + 1))
        invariant forall c :: 0 <= c < BOARDS ==> tasks[c] == Waits(txBuf[c])
        invariant log == log0 + InRound(waits, replies, round, b)
      {
        AckedNext(replies, b, round);
        ghost var before := InRound(waits, replies, round, b);
        if tasks[b] {
          log := log + [Write(round, b)];
          assert log == log0 + (before + [Write(round, b)]);
          if replies(round, b) {
            tasks[b] := false;
            txBuf[b] := BLANK;
          }
        } else {
          assert before + [] == before;
        }
      }
    }

    /** module_order_tasks_to_sim3u1xx_board: whether every command was acknowledged. In any case no
        command waits afterwards. */
    method Dispatch(replies: Replies) returns (ok: bool, ghost log: seq<Write>)
      requires Shaped()
      modifies txBuf, inOrder
      ensures log == Writes(Waiting(old(txBuf[..])), replies, ROUNDS)
      ensures ok <==> AllAcked(Waiting(old(txBuf[..])), replies)
      ensures ok <==> forall b :: 0 <= b < 16 && old(txBuf[b])[3] != 0 ==> exists j: nat :: j < 3 && replies(j, b)
      ensures forall b :: 0 <= b < BOARDS ==> txBuf[b][3] == 0
      ensures ok ==> forall b :: 0 <= b < BOARDS ==>
        inOrder[b] == (old(inOrder[b]) || (old(txBuf[b])[3] != 0 && old(txBuf[b])[4] != 0xa2))
      ensures !ok ==> forall b :: 0 <= b < BOARDS ==> !inOrder[b]
    {
      ghost var waits := Waiting(txBuf[..]);
      var tasks := Mark();
      log := [];
      for round := 0 to ROUNDS
        invariant tasks.Length == BOARDS && fresh(tasks)
        invariant forall b :: 0 <= b < BOARDS ==> tasks[b] == (waits[b] && !AckedBefore(replies, b, round))
        invariant forall b :: 0 <= b < BOARDS ==> tasks[b] == Waits(txBuf[b])
        invariant log == Writes(waits, replies, round)
        invariant forall b :: 0 <= b < BOARDS ==>
          inOrder[b] == (old(inOrder[b]) || (Waits(old(txBuf[b])) && old(txBuf[b])[4] != CANCEL))
      {
        log := Round(tasks, waits, replies, round, log);
      }
      ok := true;
      for b := 0 to BOARDS
        invariant ok <==> forall c :: 0 <= c < b ==> !tasks[c]
      {
        if tasks[b] {
          ok := false;
        }
      }
      if !ok {
        BlankDoesNotWait();
        for b := 0 to BOARDS
          invariant forall c :: 0 <= c < b ==> !Waits(txBuf[c])
        {
          if Waits(txBuf[b]) {
            txBuf[b] := BLANK;
          }
        }
        for b := 0 to BOARDS
          invariant forall c :: 0 <= c < b ==> !inOrder[c]
          invariant forall c :: 0 <= c < BOARDS ==> !Waits(txBuf[c])
        {
          inOrder[b] := false;
        }
      }
    }
  }
}
