/** The update of the interface boards of dfu_update/update_sim3u1xx.c: one board after the other is
    started, fed with packets and restarted; what is left to do is counted. */
module FirmwareUpdate {
  const BOARDS := 16
  const FOUND_BOARDS := 8
  const TRIES := 3

  const DONE := 0
  const FAIL := 3
  const NOW := 5

  /** struct DFU_SIM3U1XX. The count is a byte. */
  datatype Table = Table(updating: seq<int>, status: seq<int>, result: seq<int>, total: int, current: int) {
    ghost predicate Valid() {
      |updating| == |status| == |result| == BOARDS && 0 <= total < 256
    }

    predicate Waits(b: nat)
      requires b < |updating| && b < |status|
    {
      updating[b] == NOW && status[b] == NOW
    }
  }

  const CLEARED := Table(seq(BOARDS, i => 0), seq(BOARDS, i => 0), seq(BOARDS, i => 0), 0, 0)

  /** How many of the boards from b on still wait. */
  function Pending(t: Table, b: nat): (n: nat)
    requires t.Valid() && b <= BOARDS
    ensures n <= BOARDS - b
    decreases BOARDS - b
  {
    if b == BOARDS then 0 else (if t.Waits(b) then 1 else 0) + Pending(t, b + 1)
  }

  /** The count is right. */
  ghost predicate Consistent(t: Table) {
    t.Valid() && t.total == Pending(t, 0)
  }

  /** The first waiting board from b on, or the number of boards looked through. */
  function FirstWaiting(t: Table, b: nat): (r: nat)
    requires t.Valid() && b <= FOUND_BOARDS
    ensures b <= r <= FOUND_BOARDS
    ensures r < FOUND_BOARDS ==> t.Waits(r)
    ensures forall k :: b <= k < r ==> !t.Waits(k)
    decreases FOUND_BOARDS - b
  {
    if b == FOUND_BOARDS || t.Waits(b) then b else FirstWaiting(t, b + 1)
  }

  /** A byte counted down. */
  function Minus1(n: int): int {
    if n == 0 then 255 else n - 1
  }

  /** A board is done with a result, and no longer counted. */
  function Finished(t: Table, b: nat, result: int): (r: Table)
    requires t.Valid() && b < BOARDS
    ensures r.Valid()
  {
    t.(status := t.status[b := DONE], result := t.result[b := result], total := Minus1(t.total))
  }

  lemma WaitsAfter(t: Table, b: nat, result: int, c: nat)
    requires t.Valid() && b < BOARDS && c < BOARDS
    ensures Finished(t, b, result).Waits(c) <==> t.Waits(c) && c != b
  {
  }

  lemma {:induction false} PendingFrom(t: Table, b: nat, result: int, c: nat)
    requires t.Valid() && b < BOARDS && c <= BOARDS
    ensures Pending(Finished(t, b, result), c) == Pending(t, c) - if c <= b && t.Waits(b) then 1 else 0
    decreases BOARDS - c
  {
    if c < BOARDS {
      PendingFrom(t, b, result, c + 1);
      WaitsAfter(t, b, result, c);
    }
  }

  /** The count stays right exactly when the board that is finished was still waiting. */
  lemma CountExactly(t: Table, b: nat, result: int)
    requires Consistent(t) && b < BOARDS
    ensures Consistent(Finished(t, b, result)) <==> t.Waits(b)
  {
    PendingFrom(t, b, result, 0);
    if t.Waits(b) {
      SomePending(t, b, 0);
    }
  }

  lemma {:induction false} SomePending(t: Table, b: nat, c: nat)
    requires t.Valid() && c <= b < BOARDS && t.Waits(b)
    ensures Pending(t, c) > 0
    decreases b - c
  {
    if c < b {
      SomePending(t, b, c + 1);
    }
  }

  lemma {:induction false} NonePending(t: Table, c: nat)
    requires t.Valid() && c <= BOARDS && Pending(t, c) == 0
    ensures forall b :: c <= b < BOARDS ==> !t.Waits(b)
    decreases BOARDS - c
  {
    if c < BOARDS {
      NonePending(t, c + 1);
    }
  }

  /** Whether a board acknowledges one of the tries of a command. */
  type Answers = (nat, nat) -> bool

  predicate Acknowledged(answers: Answers, b: nat) {
    answers(b, 0) || answers(b, 1) || answers(b, 2)
  }

  /** sim3u146_startup_service_routine on a right count: boards are started, in order, until one
      acknowledges; true when there is one. The boards tried are told too. */
  function Service(t: Table, answers: Answers): (r: (Table, bool, seq<nat>))
    requires Consistent(t)
    ensures r.0.Valid()
    decreases t.total
  {
    var b := FirstWaiting(t, 0);
    if t.total == 0 || b == FOUND_BOARDS then (t, false, [])
    else if Acknowledged(answers, b) then (t.(current := b + 1), true, [b])
    else
      var t' := Finished(t, b, FAIL).(current := b + 1);
      FailedTry(t, b);
      if Pending(t', 0) == 0 then (t', false, [b])
      else
        var (t'', on, tried) := Service(t', answers);
        (t'', on, [b] + tried)
  }

  /** The service, by what comes of its first board. */
  lemma ServiceTurn(t: Table, answers: Answers, b: nat)
    requires Consistent(t) && t.total > 0 && b == FirstWaiting(t, 0)
    ensures b == FOUND_BOARDS ==> Service(t, answers) == (t, false, [])
    ensures b < FOUND_BOARDS && Acknowledged(answers, b) ==> Service(t, answers) == (t.(current := b + 1), true, [b])
    ensures b < FOUND_BOARDS && !Acknowledged(answers, b) ==>
      var t' := Finished(t, b, FAIL).(current := b + 1);
      && Consistent(t') && t'.total == t.total - 1
      && (Pending(t', 0) == 0 ==> Service(t, answers) == (t', false, [b]))
      && (Pending(t', 0) > 0 ==> var r := Service(t', answers); Service(t, answers) == (r.0, r.1, [b] + r.2))
  {
    if b < FOUND_BOARDS {
      FailedTry(t, b);
    }
  }

  lemma FailedTry(t: Table, b: nat)
    requires Consistent(t) && b < BOARDS && t.Waits(b)
    ensures var t' := Finished(t, b, FAIL).(current := b + 1);
      Consistent(t') && t'.total == t.total - 1
  {
    CountExactly(t, b, FAIL);
    SomePending(t, b, 0);
    SameWaiting(Finished(t, b, FAIL), b + 1, 0);
  }

  /** Which board is current has no part in the count. */
  lemma {:induction false} SameWaiting(t: Table, current: int, c: nat)
    requires t.Valid() && c <= BOARDS
    ensures Pending(t.(current := current), c) == Pending(t, c)
    decreases BOARDS - c
  {
    if c < BOARDS {
      SameWaiting(t, current, c + 1);
    }
  }

  // Whole runs

  /** The found boards below k, in order. */
  function FoundBelow(found: seq<bool>, k: nat): (r: seq<nat>)
    requires k <= |found|
    ensures |r| <= k
    ensures forall i :: 0 <= i < |r| ==> r[i] < k && found[r[i]]
    ensures forall i, j :: 0 <= i < j < |r| ==> r[i] < r[j]
    ensures forall b :: 0 <= b < k && found[b] ==> b in r
  {
    if k == 0 then [] else FoundBelow(found, k - 1) + (if found[k - 1] then [k - 1] else [])
  }

  lemma {:induction false} SkipUnfound(found: seq<bool>, k: nat, b: nat)
    requires k <= b < |found| && found[b] && forall j :: k <= j < b ==> !found[j]
    ensures FoundBelow(found, b + 1) == FoundBelow(found, k) + [b]
    decreases b
  {
    NoneFound(found, k, b);
  }

  lemma {:induction false} NoneFound(found: seq<bool>, k: nat, b: nat)
    requires k <= b <= |found| && forall j :: k <= j < b ==> !found[j]
    ensures FoundBelow(found, b) == FoundBelow(found, k)
  {
    if k < b {
      NoneFound(found, k, b - 1);
    }
  }

  /** get_frames_which_needs_to_update: what answered the search is to be updated. */
  function Discovered(found: seq<bool>): (t: Table)
    requires |found| == FOUND_BOARDS
    ensures t.Valid()
  {
    var marks := seq(BOARDS, i => if 0 <= i < FOUND_BOARDS && found[i] then NOW else 0);
    Table(marks, marks, marks, |FoundBelow(found, FOUND_BOARDS)|, 0)
  }

  /** The state of a run: the table, the boards started so far and the results of those that are
      done; after the last one also the result that the manager gets. */
  datatype Run = Active(t: Table, tried: seq<nat>, results: seq<int>)
               | Over(t: Table, tried: seq<nat>, results: seq<int>, outcome: int)

  /** filling_data_and_send_to_webmaster. */
  function Outcome(t: Table): int
    requires t.Valid()
  {
    if exists b :: 0 <= b < FOUND_BOARDS && t.updating[b] == NOW && t.result[b] == FAIL then 1 else 0
  }

  function Fails(n: int): (r: seq<int>)
    ensures |r| == (if n < 0 then 0 else n) && forall i :: 0 <= i < |r| ==> r[i] == FAIL
  {
    if n <= 0 then [] else [FAIL] + Fails(n - 1)
  }

  /** The next board is started after one is done, or the run ends. */
  function GoOn(t: Table, tried: seq<nat>, results: seq<int>, answers: Answers): Run
    requires Consistent(t)
  {
    var (t', on, more) := Service(t, answers);
    if on then Active(t', tried + more, results + Fails(|more| - 1))
    else Over(t', tried + more, results + Fails(|more|), Outcome(t'))
  }

  /** What a board in the update reports. */
  datatype Message = Ready | Written | Restarted(result: int)

  /** A message of the current board, how it answers the tries of the packet or command that follows,
      and how the boards answer when the next one has to be started. */
  datatype Event = Event(msg: Message, sending: Answers, answers: Answers)

  function Next(r: Run, e: Event): Run
    requires r.Active? ==> Consistent(r.t) && 1 <= r.t.current <= FOUND_BOARDS && r.t.Waits(r.t.current - 1)
  {
    if r.Over? then r
    else if !e.msg.Restarted? && Acknowledged(e.sending, r.t.current - 1) then r
    else
      var result := if e.msg.Restarted? then e.msg.result else FAIL;
      CountExactly(r.t, r.t.current - 1, result);
      GoOn(Finished(r.t, r.t.current - 1, result), r.tried, r.results + [result], e.answers)
  }

  /** The table belongs to the search result: those found are updating, and no other board. */
  ghost predicate Fits(t: Table, found: seq<bool>) {
    && t.Valid() && |found| == FOUND_BOARDS
    && (forall b :: 0 <= b < BOARDS ==> (t.updating[b] == NOW <==> b < FOUND_BOARDS && found[b]))
  }

  /** Between two boards: those below k are done, with the given results, and the others wait. */
  ghost predicate Between(t: Table, found: seq<bool>, k: nat, tried: seq<nat>, results: seq<int>) {
    && Fits(t, found) && Consistent(t) && k <= FOUND_BOARDS
    && tried == FoundBelow(found, k) && |results| == |tried|
    && (forall b {:trigger t.Waits(b)} :: 0 <= b < FOUND_BOARDS ==> (t.Waits(b) <==> found[b] && b >= k))
    && (forall b {:trigger t.status[b]} :: 0 <= b < k && found[b] ==> t.status[b] == DONE)
    && (forall i :: 0 <= i < |tried| ==> t.result[tried[i]] == results[i])
  }

  /** A board is in its update: all before it are done. */
  ghost predicate During(t: Table, found: seq<bool>, tried: seq<nat>, results: seq<int>) {
    && 1 <= t.current <= FOUND_BOARDS && tried != [] && tried[|tried| - 1] == t.current - 1
    && Fits(t, found) && Consistent(t) && found[t.current - 1]
    && tried == FoundBelow(found, t.current) && |results| == |tried| - 1
    && (forall b {:trigger t.Waits(b)} :: 0 <= b < FOUND_BOARDS ==> (t.Waits(b) <==> found[b] && b >= t.current - 1))
    && (forall b {:trigger t.status[b]} :: 0 <= b < t.current - 1 && found[b] ==> t.status[b] == DONE)
    && (forall i :: 0 <= i < |results| ==> t.result[tried[i]] == results[i])
  }

  ghost predicate Inv(r: Run, found: seq<bool>) {
    match r
    case Active(t, tried, results) => During(t, found, tried, results)
    case Over(t, tried, results, outcome) => Between(t, found, FOUND_BOARDS, tried, results) && outcome == Outcome(t)
  }

  /** The current board is done. */
  lemma DuringToBetween(t: Table, found: seq<bool>, tried: seq<nat>, results: seq<int>, result: int)
    requires During(t, found, tried, results)
    ensures Between(Finished(t, t.current - 1, result), found, t.current, tried, results + [result])
  {
    var d := t.current - 1;
    var t' := Finished(t, d, result);
    CountExactly(t, d, result);
    forall b | 0 <= b < FOUND_BOARDS
      ensures t'.Waits(b) <==> found[b] && b >= t.current
    {
      WaitsAfter(t, d, result, b);
      assert t.Waits(b) <==> found[b] && b >= d;
    }
    forall b | 0 <= b < t.current && found[b]
      ensures t'.status[b] == DONE
    {
      assert b < d ==> t.status[b] == DONE;
    }
    ResultsAfter(t, tried, results, d, result);
  }

  lemma ResultsAfter(t: Table, tried: seq<nat>, results: seq<int>, d: nat, result: int)
    requires t.Valid() && d < BOARDS && |tried| == |results| + 1 && tried[|results|] == d
    requires forall i, j :: 0 <= i < j < |tried| ==> tried[i] < tried[j]
    requires forall i :: 0 <= i < |results| ==> t.result[tried[i]] == results[i]
    ensures forall i :: 0 <= i < |tried| ==> Finished(t, d, result).result[tried[i]] == (results + [result])[i]
  {
    forall i | 0 <= i < |tried|
      ensures Finished(t, d, result).result[tried[i]] == (results + [result])[i]
    {
      assert i < |results| ==> tried[i] < tried[|results|];
    }
  }

  /** The first waiting board is the next one found. */
  lemma NextFound(t: Table, found: seq<bool>, k: nat, tried: seq<nat>, results: seq<int>)
    requires Between(t, found, k, tried, results)
    ensures var b := FirstWaiting(t, 0);
      k <= b && (b < FOUND_BOARDS ==> found[b] && FoundBelow(found, b + 1) == tried + [b])
      && (b == FOUND_BOARDS ==> tried == FoundBelow(found, FOUND_BOARDS))
    ensures forall b :: k <= b < FirstWaiting(t, 0) ==> !found[b]
  {
    var b := FirstWaiting(t, 0);
    assert b < FOUND_BOARDS ==> t.Waits(b);
    forall j | k <= j < b
      ensures !found[j]
    {
      assert !t.Waits(j);
    }
    if b < FOUND_BOARDS {
      SkipUnfound(found, k, b);
    } else {
      NoneFound(found, k, b);
    }
  }

  /** With no board waiting the update is complete. */
  lemma NothingLeft(t: Table, found: seq<bool>, k: nat, tried: seq<nat>, results: seq<int>)
    requires Between(t, found, k, tried, results) && FirstWaiting(t, 0) == FOUND_BOARDS
    ensures Between(t, found, FOUND_BOARDS, tried, results)
  {
    NextFound(t, found, k, tried, results);
  }

  lemma NoneWaiting(t: Table)
    requires t.Valid() && Pending(t, 0) == 0
    ensures FirstWaiting(t, 0) == FOUND_BOARDS
  {
    NonePending(t, 0);
  }

  lemma StartedNext(t: Table, found: seq<bool>, k: nat, tried: seq<nat>, results: seq<int>, b: nat)
    requires Between(t, found, k, tried, results) && b == FirstWaiting(t, 0) < FOUND_BOARDS
    ensures During(t.(current := b + 1), found, tried + [b], results)
  {
    NextFound(t, found, k, tried, results);
    SameWaiting(t, b + 1, 0);
    var t1, all := t.(current := b + 1), tried + [b];
    assert all[|all| - 1] == b && t.Waits(b);
    forall c | 0 <= c < FOUND_BOARDS
      ensures t1.Waits(c) <==> found[c] && c >= b
    {
      assert t1.Waits(c) == t.Waits(c);
    }
    forall c | 0 <= c < b && found[c]
      ensures t1.status[c] == DONE
    {
      assert c < k;
    }
  }

  /** What the service leaves: a board in its update, or all done; the boards it tried are the next
      ones found, and those that did not acknowledge have failed. */
  ghost predicate Served(r: (Table, bool, seq<nat>), found: seq<bool>, tried: seq<nat>, results: seq<int>) {
    var (t', on, more) := r;
    if on then more != [] && During(t', found, tried + more, results + Fails(|more| - 1))
    else Between(t', found, FOUND_BOARDS, tried + more, results + Fails(|more|))
  }

  lemma ServedOneMore(r: (Table, bool, seq<nat>), found: seq<bool>, tried: seq<nat>, results: seq<int>, b: nat)
    requires Served(r, found, tried + [b], results + [FAIL])
    ensures Served((r.0, r.1, [b] + r.2), found, tried, results)
  {
    var more := r.2;
    assert tried + ([b] + more) == tried + [b] + more;
    assert results + ([FAIL] + Fails(|more| - 1)) == results + [FAIL] + Fails(|more| - 1);
    assert results + ([FAIL] + Fails(|more|)) == results + [FAIL] + Fails(|more|);
  }

  lemma ServedAtOnce(t: Table, found: seq<bool>, k: nat, tried: seq<nat>, results: seq<int>, b: nat)
    requires Between(t, found, k, tried, results) && b == FirstWaiting(t, 0) < FOUND_BOARDS
    ensures Served((t.(current := b + 1), true, [b]), found, tried, results)
  {
    StartedNext(t, found, k, tried, results, b);
    assert results + Fails(0) == results;
  }

  lemma ServedNothing(t: Table, found: seq<bool>, k: nat, tried: seq<nat>, results: seq<int>)
    requires Between(t, found, k, tried, results) && (t.total == 0 || FirstWaiting(t, 0) == FOUND_BOARDS)
    ensures Served((t, false, []), found, tried, results)
  {
    if t.total == 0 {
      NoneWaiting(t);
    }
    NothingLeft(t, found, k, tried, results);
    assert tried + [] == tried && results + Fails(0) == results;
  }

  lemma FailedBetween(t: Table, found: seq<bool>, k: nat, tried: seq<nat>, results: seq<int>, b: nat, t': Table)
    requires Between(t, found, k, tried, results) && b == FirstWaiting(t, 0) < FOUND_BOARDS
    requires t' == Finished(t, b, FAIL).(current := b + 1)
    ensures Between(t', found, b + 1, tried + [b], results + [FAIL])
  {
    StartedNext(t, found, k, tried, results, b);
    var t1 := t.(current := b + 1);
    DuringToBetween(t1, found, tried + [b], results, FAIL);
    assert t' == Finished(t1, b, FAIL);
  }

  lemma {:induction false} ServiceEffect(t: Table, found: seq<bool>, k: nat, tried: seq<nat>, results: seq<int>, answers: Answers)
    requires Between(t, found, k, tried, results)
    ensures Served(Service(t, answers), found, tried, results)
    decreases t.total
  {
    var b := FirstWaiting(t, 0);
    if t.total == 0 || b == FOUND_BOARDS {
      ServedNothing(t, found, k, tried, results);
    } else if Acknowledged(answers, b) {
      ServedAtOnce(t, found, k, tried, results, b);
    } else {
      var t' := Finished(t, b, FAIL).(current := b + 1);
      FailedTry(t, b);
      FailedBetween(t, found, k, tried, results, b, t');
      if Pending(t', 0) == 0 {
        ServedNothing(t', found, b + 1, tried + [b], results + [FAIL]);
        ServedOneMore((t', false, []), found, tried, results, b);
      } else {
        ServiceEffect(t', found, b + 1, tried + [b], results + [FAIL], answers);
        ServedOneMore(Service(t', answers), found, tried, results, b);
      }
    }
  }

  lemma GoOnKeepsInv(t: Table, found: seq<bool>, k: nat, tried: seq<nat>, results: seq<int>, answers: Answers)
    requires Between(t, found, k, tried, results)
    ensures Inv(GoOn(t, tried, results, answers), found)
  {
    ServiceEffect(t, found, k, tried, results, answers);
  }

  lemma DoneKeepsInv(t: Table, found: seq<bool>, tried: seq<nat>, results: seq<int>, result: int, answers: Answers)
    requires During(t, found, tried, results)
    ensures Consistent(Finished(t, t.current - 1, result))
    ensures Inv(GoOn(Finished(t, t.current - 1, result), tried, results + [result], answers), found)
  {
    DuringToBetween(t, found, tried, results, result);
    GoOnKeepsInv(Finished(t, t.current - 1, result), found, t.current, tried, results + [result], answers);
  }

  lemma StepKeepsInv(r: Run, found: seq<bool>, e: Event)
    requires Inv(r, found)
    ensures Inv(Next(r, e), found)
  {
    match r
    case Over(t, tried, results, outcome) =>
    case Active(t, tried, results) =>
      if e.msg.Restarted? || !Acknowledged(e.sending, t.current - 1) {
        DoneKeepsInv(t, found, tried, results, if e.msg.Restarted? then e.msg.result else FAIL, e.answers);
      }
  }

  lemma {:induction false} PendingFound(found: seq<bool>, c: nat)
    requires |found| == FOUND_BOARDS && c <= BOARDS
    ensures Pending(Discovered(found), c)
         == if c < FOUND_BOARDS then |FoundBelow(found, FOUND_BOARDS)| - |FoundBelow(found, c)| else 0
    decreases BOARDS - c
  {
    if c < BOARDS {
      PendingFound(found, c + 1);
    }
  }

  function Begin(found: seq<bool>, answers: Answers): Run
    requires |found| == FOUND_BOARDS
  {
    PendingFound(found, 0);
    GoOn(Discovered(found), [], [], answers)
  }

  lemma BeginInv(found: seq<bool>, answers: Answers)
    requires |found| == FOUND_BOARDS
    ensures Inv(Begin(found, answers), found)
  {
    PendingFound(found, 0);
    assert FoundBelow(found, 0) == [];
    GoOnKeepsInv(Discovered(found), found, 0, [], [], answers);
  }

  /** A run, event by event. */
  ghost function RunOn(r: Run, found: seq<bool>, es: seq<Event>): (r': Run)
    requires Inv(r, found)
    ensures Inv(r', found)
    decreases |es|
  {
    if es == [] then r
    else
      StepKeepsInv(r, found, es[0]);
      RunOn(Next(r, es[0]), found, es[1..])
  }

  ghost function Ran(found: seq<bool>, answers: Answers, es: seq<Event>): Run
    requires |found| == FOUND_BOARDS
  {
    BeginInv(found, answers);
    RunOn(Begin(found, answers), found, es)
  }

  lemma OutcomeOfResults(t: Table, found: seq<bool>, results: seq<int>)
    requires |found| == FOUND_BOARDS && Between(t, found, FOUND_BOARDS, FoundBelow(found, FOUND_BOARDS), results)
    ensures Outcome(t) == 1 <==> FAIL in results
  {
    var tried := FoundBelow(found, FOUND_BOARDS);
    if FAIL in results {
      var i :| 0 <= i < |results| && results[i] == FAIL;
      assert t.updating[tried[i]] == NOW && t.result[tried[i]] == FAIL;
    }
    if Outcome(t) == 1 {
      var b :| 0 <= b < FOUND_BOARDS && t.updating[b] == NOW && t.result[b] == FAIL;
      assert b in tried;
      var i :| 0 <= i < |tried| && tried[i] == b;
      assert results[i] == FAIL;
    }
  }

  /** Every run of an update: the boards are started in increasing order, each found board at most
      once; the count is the number of boards that wait, at least one while a board is in its update. */
  lemma EveryRun(found: seq<bool>, answers: Answers, es: seq<Event>)
    requires |found| == FOUND_BOARDS
    ensures var r := Ran(found, answers, es);
      && (forall i, j :: 0 <= i < j < |r.tried| ==> r.tried[i] < r.tried[j])
      && (forall b :: b in r.tried ==> b < FOUND_BOARDS && found[b])
      && r.t.total == Pending(r.t, 0) && (r.Active? ==> r.t.total >= 1)
  {
    var r := Ran(found, answers, es);
    if r.Active? {
      SomePending(r.t, r.t.current - 1, 0);
    }
  }

  // What the events decide

  /** A board is done for good: those before the current one, or all. */
  predicate Settled(r: Run, b: nat) {
    r.Over? || b < r.t.current - 1
  }

  /** What the service decides about the boards from k on: those passed over have left all three tries
      unanswered, and the one that is started has not. */
  ghost predicate Decided(r: (Table, bool, seq<nat>), t: Table, found: seq<bool>, k: nat, answers: Answers)
    requires t.Valid() && r.0.Valid() && |found| == FOUND_BOARDS
  {
    var (t', on, more) := r;
    && (forall b :: 0 <= b < k && b < FOUND_BOARDS && found[b] ==> t'.result[b] == t.result[b])
    && (forall b :: k <= b < FOUND_BOARDS && found[b] && (on ==> b < t'.current - 1) ==>
          t'.result[b] == FAIL && !Acknowledged(answers, b))
    && (on ==> k < t'.current && Acknowledged(answers, t'.current - 1))
  }

  lemma DecidedOneMore(r: (Table, bool, seq<nat>), t: Table, found: seq<bool>, k: nat, answers: Answers, b: nat, more: seq<nat>)
    requires t.Valid() && r.0.Valid() && |found| == FOUND_BOARDS && k <= b < FOUND_BOARDS && !Acknowledged(answers, b)
    requires forall j :: k <= j < b ==> !found[j]
    requires Decided(r, Finished(t, b, FAIL).(current := b + 1), found, b + 1, answers)
    ensures Decided((r.0, r.1, more), t, found, k, answers)
  {
  }

  lemma DecidedNothing(t: Table, found: seq<bool>, k: nat, answers: Answers)
    requires t.Valid() && |found| == FOUND_BOARDS && forall j :: k <= j < FOUND_BOARDS ==> !found[j]
    ensures Decided((t, false, []), t, found, k, answers)
  {
  }

  lemma DecidedAtOnce(t: Table, found: seq<bool>, k: nat, answers: Answers, b: nat)
    requires t.Valid() && |found| == FOUND_BOARDS && k <= b && Acknowledged(answers, b)
    requires forall j :: k <= j < b && j < FOUND_BOARDS ==> !found[j]
    ensures Decided((t.(current := b + 1), true, [b]), t, found, k, answers)
  {
  }

  /** Nothing is left to be found when no board waits. */
  lemma NoneLeft(t: Table, found: seq<bool>, k: nat, tried: seq<nat>, results: seq<int>)
    requires Between(t, found, k, tried, results) && (t.total == 0 || FirstWaiting(t, 0) == FOUND_BOARDS)
    ensures forall j :: k <= j < FOUND_BOARDS ==> !found[j]
  {
    if t.total == 0 {
      NoneWaiting(t);
    }
    NextFound(t, found, k, tried, results);
  }

  lemma {:induction false} ServiceDecides(t: Table, found: seq<bool>, k: nat, tried: seq<nat>, results: seq<int>, answers: Answers)
    requires Between(t, found, k, tried, results)
    ensures Decided(Service(t, answers), t, found, k, answers)
    decreases t.total
  {
    var b := FirstWaiting(t, 0);
    if t.total == 0 || b == FOUND_BOARDS {
      NoneLeft(t, found, k, tried, results);
      DecidedNothing(t, found, k, answers);
    } else {
      NextFound(t, found, k, tried, results);
      if Acknowledged(answers, b) {
        DecidedAtOnce(t, found, k, answers, b);
      } else {
        var t' := Finished(t, b, FAIL).(current := b + 1);
        FailedTry(t, b);
        FailedBetween(t, found, k, tried, results, b, t');
        if Pending(t', 0) == 0 {
          NoneLeft(t', found, b + 1, tried + [b], results + [FAIL]);
          DecidedNothing(t', found, b + 1, answers);
          DecidedOneMore((t', false, []), t, found, k, answers, b, [b]);
        } else {
          ServiceDecides(t', found, b + 1, tried + [b], results + [FAIL], answers);
          DecidedOneMore(Service(t', answers), t, found, k, answers, b, [b] + Service(t', answers).2);
        }
      }
    }
  }

  lemma TriesExactly(answers: Answers, b: nat)
    ensures Acknowledged(answers, b) <==> exists j: nat :: j < 3 && answers(b, j)
  {
  }

  /** The result of a board that is not done yet, by the messages and answers alone: the code of its
      restart message; or a failure, when all three tries of a packet or of the restart command went
      unanswered while it was the current board, or all three of its startup when its turn came. */
  ghost function Verdict(r: Run, found: seq<bool>, es: seq<Event>, b: nat): int
    requires Inv(r, found)
    decreases |es|
  {
    if es == [] || r.Over? then NOW
    else
      StepKeepsInv(r, found, es[0]);
      var e, next := es[0], Next(r, es[0]);
      if b == r.t.current - 1 && e.msg.Restarted? then e.msg.result
      else if b == r.t.current - 1 && forall j: nat :: j < 3 ==> !e.sending(b, j) then FAIL
      else if PassedOver(r.t.current, next, b) && forall j: nat :: j < 3 ==> !e.answers(b, j) then FAIL
      else Verdict(next, found, es[1..], b)
  }

  /** The turn of the board came when boards from k on were started. */
  predicate PassedOver(k: int, next: Run, b: nat) {
    k <= b && (next.Active? ==> b < next.t.current)
  }

  /** One event decides the current board, those passed over, or nothing. */
  lemma GoOnDecides(t: Table, found: seq<bool>, k: nat, tried: seq<nat>, results: seq<int>, answers: Answers, b: nat)
    requires Between(t, found, k, tried, results) && b < FOUND_BOARDS && found[b]
    ensures var next := GoOn(t, tried, results, answers);
      && (b < k ==> Settled(next, b) && next.t.result[b] == t.result[b])
      && (k <= b ==> (Settled(next, b) <==> PassedOver(k, next, b) && forall j: nat :: j < 3 ==> !answers(b, j)))
      && (k <= b && Settled(next, b) ==> next.t.result[b] == FAIL)
  {
    ServiceDecides(t, found, k, tried, results, answers);
    TriesExactly(answers, b);
  }

  lemma EventDecides(r: Run, found: seq<bool>, e: Event, b: nat)
    requires Inv(r, found) && r.Active? && b < FOUND_BOARDS && found[b]
    requires var next := Next(r, e); Inv(next, found)
    ensures var next, d := Next(r, e), r.t.current - 1;
      var missed := !e.msg.Restarted? && forall j: nat :: j < 3 ==> !e.sending(d, j);
      && (b < d ==> Settled(next, b) && next.t.result[b] == r.t.result[b])
      && (b == d ==> (Settled(next, b) <==> e.msg.Restarted? || missed))
      && (b == d && e.msg.Restarted? ==> next.t.result[b] == e.msg.result)
      && (b == d && missed ==> next.t.result[b] == FAIL)
      && (d < b ==> (Settled(next, b) <==> PassedOver(r.t.current, next, b) && forall j: nat :: j < 3 ==> !e.answers(b, j)))
      && (d < b && Settled(next, b) ==> next.t.result[b] == FAIL)
  {
    var d := r.t.current - 1;
    TriesExactly(e.sending, d);
    if e.msg.Restarted? || !Acknowledged(e.sending, d) {
      DoneDecides(r.t, found, r.tried, r.results, if e.msg.Restarted? then e.msg.result else FAIL, e.answers, b);
    }
  }

  lemma DoneDecides(t: Table, found: seq<bool>, tried: seq<nat>, results: seq<int>, result: int, answers: Answers, b: nat)
    requires During(t, found, tried, results) && b < FOUND_BOARDS && found[b]
    ensures Consistent(Finished(t, t.current - 1, result))
    ensures var next, d := GoOn(Finished(t, t.current - 1, result), tried, results + [result], answers), t.current - 1;
      && (b < d ==> Settled(next, b) && next.t.result[b] == t.result[b])
      && (b == d ==> Settled(next, b) && next.t.result[b] == result)
      && (d < b ==> (Settled(next, b) <==> PassedOver(t.current, next, b) && forall j: nat :: j < 3 ==> !answers(b, j)))
      && (d < b && Settled(next, b) ==> next.t.result[b] == FAIL)
  {
    DuringToBetween(t, found, tried, results, result);
    GoOnDecides(Finished(t, t.current - 1, result), found, t.current, tried, results + [result], answers, b);
  }

  lemma {:induction false} RunDecides(r: Run, found: seq<bool>, es: seq<Event>, b: nat)
    requires Inv(r, found) && b < FOUND_BOARDS && found[b] && RunOn(r, found, es).Over?
    ensures RunOn(r, found, es).t.result[b] == if Settled(r, b) then r.t.result[b] else Verdict(r, found, es, b)
    decreases |es|
  {
    if es != [] {
      StepKeepsInv(r, found, es[0]);
      RunDecides(Next(r, es[0]), found, es[1..], b);
      VerdictOfNext(r, found, es, b);
    }
  }

  /** A board that is not done gets its verdict from the first event, or from the later ones. */
  lemma VerdictOfNext(r: Run, found: seq<bool>, es: seq<Event>, b: nat)
    requires Inv(r, found) && b < FOUND_BOARDS && found[b] && es != []
    requires var next := Next(r, es[0]); Inv(next, found)
    ensures var next := Next(r, es[0]);
      (if Settled(r, b) then r.t.result[b] else Verdict(r, found, es, b))
      == if Settled(next, b) then next.t.result[b] else Verdict(next, found, es[1..], b)
  {
    if r.Active? {
      EventDecides(r, found, es[0], b);
    }
  }

  /** The result of a board over a whole run: its startup command may fail at the very beginning. */
  ghost function Fate(found: seq<bool>, answers: Answers, es: seq<Event>, b: nat): int
    requires |found| == FOUND_BOARDS
  {
    BeginInv(found, answers);
    var first := Begin(found, answers);
    if PassedOver(0, first, b) && forall j: nat :: j < 3 ==> !answers(b, j) then FAIL
    else Verdict(first, found, es, b)
  }

  lemma FateIsResult(found: seq<bool>, answers: Answers, es: seq<Event>, b: nat)
    requires |found| == FOUND_BOARDS && Ran(found, answers, es).Over? && b < FOUND_BOARDS && found[b]
    ensures Ran(found, answers, es).t.result[b] == Fate(found, answers, es, b)
  {
    BeginInv(found, answers);
    DiscoveredBetween(found);
    GoOnDecides(Discovered(found), found, 0, [], [], answers, b);
    RunDecides(Begin(found, answers), found, es, b);
  }

  lemma DiscoveredBetween(found: seq<bool>)
    requires |found| == FOUND_BOARDS
    ensures Between(Discovered(found), found, 0, [], [])
  {
    PendingFound(found, 0);
    assert FoundBelow(found, 0) == [];
  }

  /** The manager is told 1 exactly when, by messages and answers, some found board has failed. */
  lemma OutcomeByEvents(found: seq<bool>, answers: Answers, es: seq<Event>)
    requires |found| == FOUND_BOARDS && Ran(found, answers, es).Over?
    ensures Ran(found, answers, es).outcome == 1 <==>
      exists b :: 0 <= b < FOUND_BOARDS && found[b] && Fate(found, answers, es, b) == 3
  {
    var t := Ran(found, answers, es).t;
    forall b | 0 <= b < FOUND_BOARDS && found[b]
      ensures t.result[b] == Fate(found, answers, es, b)
    {
      FateIsResult(found, answers, es, b);
    }
    assert forall b :: 0 <= b < FOUND_BOARDS ==> (t.updating[b] == NOW <==> found[b]);
    if exists b :: 0 <= b < FOUND_BOARDS && t.updating[b] == NOW && t.result[b] == FAIL {
      var b :| 0 <= b < FOUND_BOARDS && t.updating[b] == NOW && t.result[b] == FAIL;
      assert found[b] && Fate(found, answers, es, b) == 3;
    }
  }

  /** When it ends every found board has been started and is done, and the manager is told 1 exactly
      when some board gave up or reported a failure. */
  lemma WhenOver(found: seq<bool>, answers: Answers, es: seq<Event>)
    requires |found| == FOUND_BOARDS && Ran(found, answers, es).Over?
    ensures var r := Ran(found, answers, es);
      && r.tried == FoundBelow(found, FOUND_BOARDS) && |r.results| == |r.tried|
      && (forall b :: 0 <= b < FOUND_BOARDS && found[b] ==> r.t.status[b] == 0)
      && (forall i :: 0 <= i < |r.tried| ==> r.t.result[r.tried[i]] == r.results[i])
      && (r.outcome == 1 <==> FAIL in r.results)
  {
    var r := Ran(found, answers, es);
    OutcomeOfResults(r.t, found, r.results);
  }

  /** The table and the loops over it. */
  class Updater {
    const updating: array<int>
    const status: array<int>
    const result: array<int>
    var total: int
    var current: int

    ghost predicate Shaped()
      reads this
    {
      && updating != status && status != result && updating != result
      && updating.Length == BOARDS && status.Length == BOARDS && result.Length == BOARDS && 0 <= total < 256
    }

    ghost function State(): (t: Table)
      requires Shaped()
      reads this, updating, status, result
      ensures t.Valid()
    {
      Table(updating[..], status[..], result[..], total, current)
    }

    constructor ()
      ensures Shaped() && fresh(updating) && fresh(status) && fresh(result) && State() == CLEARED
    {
      updating, status, result := new int[BOARDS](i => 0), new int[BOARDS](i => 0), new int[BOARDS](i => 0);
      total, current := 0, 0;
    }

    method ClearAll()
      requires Shaped()
      modifies this, updating, status, result
      ensures Shaped() && total == 0 && current == 0
      ensures forall i :: 0 <= i < BOARDS ==> updating[i] == status[i] == result[i] == 0
    {
      forall i | 0 <= i < BOARDS {
        updating[i] := 0;
      }
      forall i | 0 <= i < BOARDS {
        status[i] := 0;
      }
      forall i | 0 <= i < BOARDS {
        result[i] := 0;
      }
      total, current := 0, 0;
    }

    /** startup_stage_step1_download_file: the structure is cleared and the boards are searched. */
    method Discover(found: seq<bool>)
      requires Shaped() && |found| == FOUND_BOARDS
      modifies this, updating, status, result
      ensures Shaped() && State() == Discovered(found)
      ensures forall b :: 0 <= b < 16 ==> updating[b] == status[b] == result[b] == if b < 8 && found[b] then 5 else 0
    {
      ClearAll();
      for b := 0 to FOUND_BOARDS
        invariant Shaped() && current == 0 && total == |FoundBelow(found, b)|
        invariant forall i :: 0 <= i < BOARDS ==>
          updating[i] == status[i] == result[i] == if i < b && found[i] then NOW else 0
      {
        if found[b] {
          updating[b], status[b], result[b] := NOW, NOW, NOW;
          total := (total + 1) % 256;
        }
      }
    }

    /** find_which_sim3u146_board_needs_to_update. */
    method Find() returns (b: nat)
      requires Shaped()
      ensures b == FirstWaiting(State(), 0)
    {
      b := 0;
      while b < FOUND_BOARDS
        invariant b <= FOUND_BOARDS && FirstWaiting(State(), 0) == FirstWaiting(State(), b)
      {
        if updating[b] == NOW && status[b] == NOW {
          return;
        }
        b := b + 1;
      }
    }

    /** A command is tried three times. */
    static method Try(answers: Answers, b: nat) returns (ok: bool)
      ensures ok <==> exists j: nat :: j < 3 && answers(b, j)
    {
      var i := 0;
      while i < TRIES
        invariant 0 <= i <= TRIES && forall j: nat :: j < i ==> !answers(b, j)
      {
        if answers(b, i) {
          return true;
        }
        i := i + 1;
      }
      ok := false;
    }

    /** A board is marked as done. */
    method Finish(b: nat, code: int)
      requires Shaped() && b < BOARDS
      modifies this, status, result
      ensures Shaped() && State() == Finished(old(State()), b, code)
    {
      status[b] := DONE;
      result[b] := code;
      total := Minus1(total);
    }

    /** send_startup_command_to_specific_sim3u146_board: DONE, CONTINUE or SEND_FAILED. */
    method SendStartup(answers: Answers) returns (ret: Code, ghost b: nat)
      requires Shaped()
      modifies this, status, result
      ensures Shaped() && b == FirstWaiting(old(State()), 0)
      ensures ret.AllDone? <==> b == FOUND_BOARDS
      ensures ret.AllDone? <==> forall c :: 0 <= c < 8 ==> !(old(updating[c]) == 5 && old(status[c]) == 5)
      ensures !ret.AllDone? ==> b < 8 && old(updating[b]) == 5 && old(status[b]) == 5
      ensures !ret.AllDone? ==> forall c :: 0 <= c < b ==> !(old(updating[c]) == 5 && old(status[c]) == 5)
      ensures !ret.AllDone? ==> (ret.Continue? <==> exists j: nat :: j < 3 && answers(b, j))
      ensures State() == match ret
                         case AllDone => old(State())
                         case Continue => old(State()).(current := b + 1)
                         case SendFailed => Finished(old(State()), b, FAIL).(current := b + 1)
    {
      ghost var t := State();
      var board := Find();
      b := board;
      assert forall c :: 0 <= c < 8 ==> (t.Waits(c) <==> updating[c] == 5 && status[c] == 5);
      if board == FOUND_BOARDS {
        return AllDone, b;
      }
      current := board + 1;
      var ok := Try(answers, board);
      if ok {
        status[board] := NOW;
        assert State().status == old(State()).status;
        return Continue, b;
      }
      Finish(board, FAIL);
      ret := SendFailed;
    }

    /** verify_update_finished_or_not. */
    method AnyWaiting() returns (any: bool)
      requires Shaped()
      ensures any <==> Pending(State(), 0) > 0
    {
      var b := 0;
      while b < BOARDS
        invariant 0 <= b <= BOARDS && Pending(State(), 0) == Pending(State(), b)
      {
        if updating[b] == NOW && status[b] == NOW {
          return true;
        }
        b := b + 1;
      }
      any := false;
    }

    /** One turn of the loop below: the new status, if the loop is to end. */
    method StartOne(answers: Answers, ghost t0: Table, ghost tried0: seq<nat>) returns (end: Ending, ghost tried: seq<nat>)
      requires Shaped() && total > 0 && Consistent(State()) && Consistent(t0)
      requires Service(t0, answers) == Prefixed(tried0, Service(State(), answers))
      modifies this, status, result
      ensures Shaped()
      ensures end.NotYet? ==> 0 < total < old(total) && Consistent(State())
      ensures end.NotYet? ==> Service(t0, answers) == Prefixed(tried, Service(State(), answers))
      ensures end.Ended? ==> Service(t0, answers) == (State(), end.on, tried)
    {
      ghost var t := State();
      var ret;
      ghost var b;
      ret, b := SendStartup(answers);
      TriesExactly(answers, b);
      ServiceTurn(t, answers, b);
      match ret
      case AllDone =>
        end, tried := Ended(false), tried0 + [];
      case Continue =>
        end, tried := Ended(true), tried0 + [b];
      case SendFailed =>
        tried := tried0 + [b];
        var any := AnyWaiting();
        end := if any then NotYet else Ended(false);
        PrefixedTwice(tried0, b, if any then Service(State(), answers) else (State(), false, []));
    }

    /** sim3u146_startup_service_routine. The loop sets its own counter back, so that only the count
        of waiting boards makes it end; and it never ends without a status. */
    method StartNext(answers: Answers) returns (on: bool, ghost tried: seq<nat>)
      requires Shaped() && Consistent(State())
      modifies this, status, result
      ensures Shaped() && (State(), on, tried) == Service(old(State()), answers)
    {
      tried := [];
      if total == 0 {
        return false, [];
      }
      ghost var t0 := State();
      PrefixedNil(Service(t0, answers));
      var status' := NotYet;
      var loops := 0;
      while loops < total && status'.NotYet?
        invariant Shaped() && loops == 0
        invariant status'.NotYet? ==> total > 0 && Consistent(State())
        invariant status'.NotYet? ==> Service(t0, answers) == Prefixed(tried, Service(State(), answers))
        invariant status'.Ended? ==> Service(t0, answers) == (State(), status'.on, tried)
        decreases status'.NotYet?, total
      {
        status', tried := StartOne(answers, t0, tried);
        loops := 0;
      }
      assert status'.Ended?;
      on := status'.on;
    }

    /** The current board is done, with a result, and the next one is started: the reboot handler with
        the code that the board reports. */
    method NextBoard(code: int, answers: Answers) returns (over: bool, ghost more: seq<nat>)
      requires Shaped() && Consistent(State()) && 1 <= current <= FOUND_BOARDS && State().Waits(current - 1)
      modifies this, status, result
      ensures Shaped()
      ensures var t := Finished(old(State()), old(current) - 1, code);
        Consistent(t) && (State(), !over, more) == Service(t, answers)
    {
      CountExactly(State(), current - 1, code);
      Finish(current - 1, code);
      var on;
      on, more := StartNext(answers);
      over := !on;
    }

    /** A packet, or the restart command, is tried three times at the current board: the stage
        handlers. A board that does not acknowledge it has failed, and the next one is started. */
    method SendToCurrent(sending: Answers, answers: Answers) returns (over: bool, ghost more: seq<nat>)
      requires Shaped() && Consistent(State()) && 1 <= current <= FOUND_BOARDS && State().Waits(current - 1)
      modifies this, status, result
      ensures Shaped()
      ensures var b := old(current) - 1; (exists j: nat :: j < 3 && sending(b, j)) ==> !over && State() == old(State())
      ensures var b := old(current) - 1; (forall j: nat :: j < 3 ==> !sending(b, j)) ==>
        var t := Finished(old(State()), old(current) - 1, FAIL);
        Consistent(t) && (State(), !over, more) == Service(t, answers)
    {
      var acked := Try(sending, current - 1);
      if acked {
        status[current - 1] := NOW;
        assert State().status == old(State()).status;
        return false, [];
      }
      over, more := NextBoard(FAIL, answers);
    }

    /** What the manager is told, if the update is over. */
    method Conclude(over: bool, ghost next: Run) returns (outcome: int)
      requires Shaped() && over == next.Over? && next.t == State() && (over ==> next.outcome == Outcome(State()))
      ensures outcome == if over then next.outcome else -1
    {
      outcome := -1;
      if over {
        outcome := Report();
      }
    }

    /** update_sim3u146 on the order of the manager: the boards are searched and the first is started. */
    method Launch(found: seq<bool>, answers: Answers) returns (over: bool, outcome: int, ghost next: Run)
      requires Shaped() && |found| == FOUND_BOARDS
      modifies this, updating, status, result
      ensures Shaped() && next == Begin(found, answers) && State() == next.t
      ensures over == next.Over? && (over ==> outcome == next.outcome)
    {
      Discover(found);
      PendingFound(found, 0);
      var on;
      ghost var more;
      on, more := StartNext(answers);
      over, next := !on, Begin(found, answers);
      outcome := Conclude(over, next);
    }

    /** update_sim3u146 on a message of the current board. */
    method Handle(e: Event, ghost r: Run, ghost found: seq<bool>) returns (over: bool, outcome: int, ghost next: Run)
      requires Shaped() && r.Active? && r.t == State() && Inv(r, found)
      modifies this, status, result
      ensures Shaped() && next == Next(r, e) && State() == next.t
      ensures over == next.Over? && (over ==> outcome == next.outcome)
    {
      next := Next(r, e);
      ghost var more;
      TriesExactly(e.sending, current - 1);
      match e.msg {
        case Restarted(code) =>
          over, more := NextBoard(code, e.answers);
        case _ =>
          over, more := SendToCurrent(e.sending, e.answers);
      }
      outcome := Conclude(over, next);
    }

    /** filling_data_and_send_to_webmaster, the part that looks for a failure. */
    method Report() returns (outcome: int)
      requires Shaped()
      ensures outcome == Outcome(State())
      ensures outcome == if exists b :: 0 <= b < 8 && updating[b] == 5 && result[b] == 3 then 1 else 0
    {
      var b := 0;
      while b < FOUND_BOARDS
        invariant 0 <= b <= FOUND_BOARDS
        invariant forall c :: 0 <= c < b ==> !(updating[c] == NOW && result[c] == FAIL)
      {
        if updating[b] == NOW && result[b] == FAIL {
          return 1;
        }
        b := b + 1;
      }
      outcome := 0;
    }
  }

  datatype Code = AllDone | Continue | SendFailed

  datatype Ending = NotYet | Ended(on: bool)

  ghost function Prefixed(tried: seq<nat>, r: (Table, bool, seq<nat>)): (Table, bool, seq<nat>) {
    (r.0, r.1, tried + r.2)
  }

  lemma PrefixedNil(r: (Table, bool, seq<nat>))
    ensures Prefixed([], r) == r
  {
    assert [] + r.2 == r.2;
  }

  lemma PrefixedTwice(tried: seq<nat>, b: nat, r: (Table, bool, seq<nat>))
    ensures Prefixed(tried, (r.0, r.1, [b] + r.2)) == Prefixed(tried + [b], r)
    ensures r.2 == [] ==> Prefixed(tried, (r.0, r.1, [b])) == (r.0, r.1, tried + [b])
  {
    assert tried + ([b] + r.2) == tried + [b] + r.2;
  }
}
