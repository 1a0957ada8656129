/** The two-copy save protocol of env/fw_env.c. An environment lives in one of two copies, each with
    a checksum over its data and a flag that tells which copy is the newer one. A save rewrites the
    other copy; a power cut may stop it anywhere. */
module EnvSave {
  import opened Register
  import opened Options
  import Crc32

  /** How the newer copy is told: NOR flash marks it active (1) and the other obsolete (0), NAND
      flash counts the flag up. */
  datatype Scheme = Boolean | Incremental

  type Flag = f: int | 0 <= f < 256

  const OBSOLETE: Flag := 0
  const ACTIVE: Flag := 1
  const ERASED_FLAG: Flag := 0xff

  datatype Copy = Copy(crc: bv32, flag: Flag, data: seq<byte>)

  predicate Valid(c: Copy) {
    c.crc == Crc32.Checksum(0, c.data)
  }

  /** The two copies, on device 0 and on device 1. */
  datatype Store = Store(zero: Copy, one: Copy)

  type Dev = d: int | d == 0 || d == 1

  function At(st: Store, d: Dev): Copy {
    if d == 0 then st.zero else st.one
  }

  function With(st: Store, d: Dev, c: Copy): (r: Store)
    ensures At(r, d) == c && At(r, 1 - d) == At(st, 1 - d)
  {
    if d == 0 then st.(zero := c) else st.(one := c)
  }

  predicate Recoverable(st: Store) {
    Valid(st.zero) || Valid(st.one)
  }

  /** Which of two valid copies env_init takes, by their flags. */
  function Newer(scheme: Scheme, flag0: Flag, flag1: Flag): Dev {
    match scheme
    case Boolean =>
      if flag0 == ACTIVE && flag1 == OBSOLETE then 0
      else if flag0 == OBSOLETE && flag1 == ACTIVE then 1
      else if flag0 == flag1 then 0
      else if flag0 == ERASED_FLAG then 0
      else if flag1 == ERASED_FLAG then 1
      else 0
    case Incremental =>
      if (flag0 == 255 && flag1 == 0) || flag1 > flag0 then 1
      else 0
  }

  /** Of two good copies on NOR flash the second is taken exactly when it is active and the first
      obsolete, or when it has an erased flag and the first has not. */
  lemma NewerOnNor(flag0: Flag, flag1: Flag)
    ensures Newer(Boolean, flag0, flag1) == 1 <==> (flag0 == 0 && flag1 == 1) || (flag0 != 0xff && flag1 == 0xff)
  {
  }

  /** On NAND flash it is taken exactly when its flag is greater, or has wrapped from 255 to 0. */
  lemma NewerOnNand(flag0: Flag, flag1: Flag)
    ensures Newer(Incremental, flag0, flag1) == 1 <==> flag1 > flag0 || (flag0 == 255 && flag1 == 0)
  {
  }

  function Chosen(scheme: Scheme, st: Store): Dev {
    if Valid(st.zero) && !Valid(st.one) then 0
    else if !Valid(st.zero) && Valid(st.one) then 1
    else if !Valid(st.zero) && !Valid(st.one) then 0
    else Newer(scheme, st.zero.flag, st.one.flag)
  }

  /** The environment in memory: the copy it came from, its flag byte and its data. */
  datatype Session = Session(current: Dev, flag: Flag, data: seq<byte>)

  /** The default environment over the front of what was read. */
  function Defaulted(data: seq<byte>, standard: seq<byte>): seq<byte> {
    if |standard| <= |data| then standard + data[|standard|..] else standard
  }

  /** env_init. */
  function Init(scheme: Scheme, st: Store, standard: seq<byte>): Session {
    var d := Chosen(scheme, st);
    Session(d, At(st, d).flag, if Recoverable(st) then At(st, d).data else Defaulted(At(st, d).data, standard))
  }

  function NextFlag(scheme: Scheme, flag: Flag): Flag {
    if scheme == Boolean then ACTIVE else (flag + 1) % 256
  }

  function NewCopy(scheme: Scheme, ses: Session): Copy {
    Copy(Crc32.Checksum(0, ses.data), NextFlag(scheme, ses.flag), ses.data)
  }

  /** Where the power goes during a save: before the other copy is touched; while it is rewritten,
      which leaves some torn copy there; after that and before the flag of the old copy; while that
      flag is cleared, which leaves some value; or not at all. */
  datatype Cut = Untouched | Torn(left: Copy) | Rewritten | FlagClearing(value: Flag) | Complete

  /** The one assumption: a torn copy fails its checksum. */
  predicate Detected(cut: Cut) {
    cut.Torn? ==> !Valid(cut.left)
  }

  /** fw_saveenv, cut at some point. Only on NOR flash is the old copy marked. */
  function Save(scheme: Scheme, st: Store, ses: Session, cut: Cut): Store {
    var source, target := At(st, ses.current), 1 - ses.current;
    match cut
    case Untouched => st
    case Torn(c) => With(st, target, c)
    case Rewritten => With(st, target, NewCopy(scheme, ses))
    case FlagClearing(f) =>
      var written := With(st, target, NewCopy(scheme, ses));
      if scheme == Boolean then With(written, ses.current, source.(flag := f)) else written
    case Complete =>
      var written := With(st, target, NewCopy(scheme, ses));
      if scheme == Boolean then With(written, ses.current, source.(flag := OBSOLETE)) else written
  }

  /** A completed save: the other copy passes its check and has the data; its flag is 1 and that of the
      old copy 0 on NOR flash, and the flag counted up by one, within a byte, on NAND flash. */
  lemma CompletedSave(scheme: Scheme, st: Store, ses: Session)
    ensures var st' := Save(scheme, st, ses, Complete);
      var target, source := At(st', 1 - ses.current), At(st', ses.current);
      && Valid(target) && target.data == ses.data
      && (scheme == Boolean ==> target.flag == 1 && source == At(st, ses.current).(flag := 0))
      && (scheme == Incremental ==> target.flag == (if ses.flag == 255 then 0 else ses.flag + 1) && source == At(st, ses.current))
  {
  }

  // Power loss, over every run of edits, saves and restarts

  datatype Step = Edit(data: seq<byte>) | Write(cut: Cut) | Restart

  /** A machine that is up, with what a reader of its history remembers: the data it started with,
      and the data of the last save whose copy is still whole. */
  datatype Machine = Machine(st: Store, ses: Session, started: seq<byte>, saved: Option<seq<byte>>)

  function Boot(scheme: Scheme, st: Store, standard: seq<byte>): Machine {
    var ses := Init(scheme, st, standard);
    Machine(st, ses, ses.data, None)
  }

  function Next(scheme: Scheme, standard: seq<byte>, m: Machine, step: Step): Machine {
    match step
    case Edit(data) => m.(ses := m.ses.(data := data))
    case Restart => Boot(scheme, m.st, standard)
    case Write(cut) =>
      Machine(Save(scheme, m.st, m.ses, cut),
              m.ses.(flag := NextFlag(scheme, m.ses.flag)),
              m.started,
              if cut.Untouched? then m.saved else if cut.Torn? then None else Some(m.ses.data))
  }

  function Run(scheme: Scheme, standard: seq<byte>, m: Machine, steps: seq<Step>): Machine
    decreases |steps|
  {
    if steps == [] then m else Run(scheme, standard, Next(scheme, standard, m, steps[0]), steps[1..])
  }

  ghost predicate AllDetected(steps: seq<Step>) {
    forall k :: 0 <= k < |steps| && steps[k].Write? ==> Detected(steps[k].cut)
  }

  /** What holds as long as the machine is up: the copy it started from is whole; a save that was
      not torn is whole in the other one; without such a save a restart takes the first one again. */
  ghost predicate Safe(scheme: Scheme, m: Machine) {
    var source, other := At(m.st, m.ses.current), At(m.st, 1 - m.ses.current);
    && Valid(source) && source.data == m.started
    && (m.saved.Some? ==> Valid(other) && other.data == m.saved.value)
    && (m.saved.None? ==> Chosen(scheme, m.st) == m.ses.current)
  }

  lemma BootIsSafe(scheme: Scheme, st: Store, standard: seq<byte>)
    requires Recoverable(st)
    ensures Safe(scheme, Boot(scheme, st, standard))
  {
  }

  lemma WriteKeepsSafe(scheme: Scheme, standard: seq<byte>, m: Machine, cut: Cut)
    requires Safe(scheme, m) && Detected(cut)
    ensures Safe(scheme, Next(scheme, standard, m, Write(cut)))
  {
    var d, m' := m.ses.current, Next(scheme, standard, m, Write(cut));
    assert Valid(NewCopy(scheme, m.ses));
    assert Valid(At(m'.st, d)) && At(m'.st, d).data == m.started;
    assert cut.Untouched? ==> m'.st == m.st;
    assert cut.Torn? ==> At(m'.st, 1 - d) == cut.left;
  }

  lemma StepKeepsSafe(scheme: Scheme, standard: seq<byte>, m: Machine, step: Step)
    requires Safe(scheme, m) && (step.Write? ==> Detected(step.cut))
    ensures Safe(scheme, Next(scheme, standard, m, step))
  {
    match step
    case Edit(data) =>
    case Restart => BootIsSafe(scheme, m.st, standard);
    case Write(cut) => WriteKeepsSafe(scheme, standard, m, cut);
  }

  lemma {:induction false} RunKeepsSafe(scheme: Scheme, standard: seq<byte>, m: Machine, steps: seq<Step>)
    requires Safe(scheme, m) && AllDetected(steps)
    ensures Safe(scheme, Run(scheme, standard, m, steps))
    decreases |steps|
  {
    if steps != [] {
      assert steps[0].Write? ==> Detected(steps[0].cut);
      StepKeepsSafe(scheme, standard, m, steps[0]);
      assert AllDetected(steps[1..]) by {
        forall k | 0 <= k < |steps[1..]| && steps[1..][k].Write?
          ensures Detected(steps[1..][k].cut)
        {
          assert steps[1..][k] == steps[k + 1];
        }
      }
      RunKeepsSafe(scheme, standard, Next(scheme, standard, m, steps[0]), steps[1..]);
    }
  }

  /** Power loss at any moment of any run: the next start loads a copy that passes its checksum, and
      it is either the data this start began with or the data of the last save that was not torn. */
  lemma PowerLossSafe(scheme: Scheme, standard: seq<byte>, st: Store, steps: seq<Step>)
    requires Recoverable(st) && AllDetected(steps)
    ensures var m := Run(scheme, standard, Boot(scheme, st, standard), steps);
      var next := Init(scheme, m.st, standard);
      Valid(At(m.st, next.current)) && next.data == At(m.st, next.current).data
      && (next.data == m.started || m.saved == Some(next.data))
  {
    BootIsSafe(scheme, st, standard);
    RunKeepsSafe(scheme, standard, Boot(scheme, st, standard), steps);
  }

  /** One save after a start, cut anywhere: the old environment or the new one. */
  lemma SaveIsAtomic(scheme: Scheme, standard: seq<byte>, st: Store, data: seq<byte>, cut: Cut)
    requires Recoverable(st) && Detected(cut)
    ensures var ses := Init(scheme, st, standard);
      var next := Init(scheme, Save(scheme, st, ses.(data := data), cut), standard);
      && (next.data == ses.data || next.data == data)
      && (cut.Untouched? || cut.Torn? ==> next.data == ses.data)
      && (scheme == Boolean && cut.Complete? ==> next.data == data)
  {
  }

  /** A torn save is as if it had not been tried. */
  lemma TornKeeps(scheme: Scheme, standard: seq<byte>, st: Store, data: seq<byte>, left: Copy)
    requires Recoverable(st) && !Valid(left)
    ensures var ses := Init(scheme, st, standard);
      Init(scheme, Save(scheme, st, ses.(data := data), Torn(left)), standard) == ses
  {
    var ses := Init(scheme, st, standard);
    var st' := Save(scheme, st, ses.(data := data), Torn(left));
    assert At(st', ses.current) == At(st, ses.current) && At(st', 1 - ses.current) == left;
  }

  // Durability

  /** The wrap that is lost: the copy on device 1 has the flag 255, so that the new one gets 0. */
  predicate Wraps(scheme: Scheme, ses: Session) {
    scheme == Incremental && ses.current == 1 && ses.flag == 255
  }

  /** A completed save is loaded by the next start if and only if its flag did not wrap on device 0;
      if it did, the next start loads the old copy. Marking with 1 and 0 never fails. */
  lemma DurableExactly(scheme: Scheme, standard: seq<byte>, st: Store, data: seq<byte>)
    ensures var ses := Init(scheme, st, standard);
      var next := Init(scheme, Save(scheme, st, ses.(data := data), Complete), standard);
      && (next == Session(1 - ses.current, NextFlag(scheme, ses.flag), data) <==> !Wraps(scheme, ses))
      && (Wraps(scheme, ses) ==> next == ses)
  {
  }

  /** One start, edit and save: the data to be saved and how far the save gets. */
  datatype Cycle = Cycle(data: seq<byte>, cut: Cut)

  function AfterCycle(standard: seq<byte>, st: Store, c: Cycle): Store {
    Save(Incremental, st, Init(Incremental, st, standard).(data := c.data), c.cut)
  }

  function AfterCycles(standard: seq<byte>, st: Store, cs: seq<Cycle>): Store
    decreases |cs|
  {
    if cs == [] then st else AfterCycles(standard, AfterCycle(standard, st, cs[0]), cs[1..])
  }

  /** Saves whose copy was written in full; on NAND flash nothing follows it. */
  predicate Completed(c: Cycle) {
    c.cut.Rewritten? || c.cut.FlagClearing? || c.cut.Complete?
  }

  /** The data saved by the completed cycles, in order. */
  function Saved(cs: seq<Cycle>): seq<seq<byte>> {
    if cs == [] then [] else (if Completed(cs[0]) then [cs[0].data] else []) + Saved(cs[1..])
  }

  /** How many completed saves a NAND store takes before one is lost: any number when the number of
      the device and its flag differ in parity, otherwise as many as lead to the flag 255. */
  function Budget(ses: Session, n: nat): nat {
    if (ses.current + ses.flag) % 2 == 1 || n <= 255 - ses.flag then n else 255 - ses.flag
  }

  function LastOf(first: seq<byte>, saved: seq<seq<byte>>, n: nat): seq<byte>
    requires n <= |saved|
  {
    if n == 0 then first else saved[n - 1]
  }

  /** What a cycle does to what a start sees: a completed save is taken over, unless its flag wraps
      on device 0; any other cycle changes nothing. */
  function Advance(ses: Session, c: Cycle): Session {
    if Completed(c) && !Wraps(Incremental, ses) then Session(1 - ses.current, (ses.flag + 1) % 256, c.data) else ses
  }

  function Advanced(ses: Session, cs: seq<Cycle>): Session
    decreases |cs|
  {
    if cs == [] then ses else Advanced(Advance(ses, cs[0]), cs[1..])
  }

  lemma CycleEffect(standard: seq<byte>, st: Store, c: Cycle)
    requires Recoverable(st) && Detected(c.cut)
    ensures Recoverable(AfterCycle(standard, st, c))
    ensures Init(Incremental, AfterCycle(standard, st, c), standard) == Advance(Init(Incremental, st, standard), c)
  {
    var ses, st' := Init(Incremental, st, standard), AfterCycle(standard, st, c);
    if Completed(c) {
      assert st' == Save(Incremental, st, ses.(data := c.data), Complete);
      DurableExactly(Incremental, standard, st, c.data);
      assert Valid(At(st', 1 - ses.current));
    } else if c.cut.Torn? {
      assert At(st', ses.current) == At(st, ses.current) && !Valid(At(st', 1 - ses.current));
    } else {
      assert st' == st;
    }
  }

  lemma {:induction false} RunEffect(standard: seq<byte>, st: Store, cs: seq<Cycle>)
    requires Recoverable(st) && forall k :: 0 <= k < |cs| ==> Detected(cs[k].cut)
    ensures Init(Incremental, AfterCycles(standard, st, cs), standard) == Advanced(Init(Incremental, st, standard), cs)
    decreases |cs|
  {
    if cs != [] {
      CycleEffect(standard, st, cs[0]);
      RunEffect(standard, AfterCycle(standard, st, cs[0]), cs[1..]);
    }
  }

  lemma BudgetStep(ses: Session, next: Session, n: nat)
    requires n > 0 && !Wraps(Incremental, ses)
    requires next.current == 1 - ses.current && next.flag == (ses.flag + 1) % 256
    ensures Budget(ses, n) == Budget(next, n - 1) + 1
  {
  }

  lemma {:induction false} AdvancedWithinBudget(ses: Session, cs: seq<Cycle>)
    ensures Advanced(ses, cs).data == LastOf(ses.data, Saved(cs), Budget(ses, |Saved(cs)|))
    decreases |cs|
  {
    if cs != [] {
      var c, next, rest := cs[0], Advance(ses, cs[0]), Saved(cs[1..]);
      AdvancedWithinBudget(next, cs[1..]);
      if !Completed(c) {
        assert Saved(cs) == rest;
      } else {
        assert Saved(cs) == [c.data] + rest;
        if Wraps(Incremental, ses) {
          assert Budget(ses, |rest|) == 0;
        } else {
          BudgetStep(ses, next, |rest| + 1);
        }
      }
    }
  }

  /** Every run of cycles on NAND flash, cut anywhere: the next start loads the last of the saves
      that the budget covers. So when the parities of device and flag differ every completed save is
      durable for ever; when they agree, none is after the flag 255 has been reached. */
  lemma RunDurable(standard: seq<byte>, st: Store, cs: seq<Cycle>)
    requires Recoverable(st) && forall k :: 0 <= k < |cs| ==> Detected(cs[k].cut)
    ensures Init(Incremental, AfterCycles(standard, st, cs), standard).data
         == LastOf(Init(Incremental, st, standard).data, Saved(cs), Budget(Init(Incremental, st, standard), |Saved(cs)|))
  {
    RunEffect(standard, st, cs);
    AdvancedWithinBudget(Init(Incremental, st, standard), cs);
  }

  lemma {:induction false} SavedOfComplete(cs: seq<Cycle>)
    requires forall k :: 0 <= k < |cs| ==> cs[k].cut.Complete?
    ensures |Saved(cs)| == |cs| && forall k :: 0 <= k < |cs| ==> Saved(cs)[k] == cs[k].data
  {
    if cs != [] {
      SavedOfComplete(cs[1..]);
    }
  }

  /** Cycles that save data of n bytes. */
  ghost predicate Cycles(cs: seq<Cycle>, n: nat) {
    forall k :: 0 <= k < |cs| ==> |cs[k].data| == n && Detected(cs[k].cut)
  }

  /** The next start loads what was saved last. */
  ghost predicate LoadsLast(standard: seq<byte>, st: Store, cs: seq<Cycle>) {
    Saved(cs) != [] ==> Init(Incremental, AfterCycles(standard, st, cs), standard).data == Saved(cs)[|Saved(cs)| - 1]
  }

  function Other(data: seq<byte>): (r: seq<byte>)
    requires data != []
    ensures |r| == |data| && r != data
  {
    var r := data[0 := if data[0] == 0 then 1 else 0];
    assert r[0] != data[0];
    r
  }

  /** Enough completed saves of the same data to reach the flag 255, then one of other data. */
  function LosingRun(ses: Session): (cs: seq<Cycle>)
    requires ses.data != []
    ensures |cs| == 256 - ses.flag && Cycles(cs, |ses.data|)
    ensures forall k :: 0 <= k < |cs| ==> cs[k].cut.Complete? && cs[k].data == if k == 255 - ses.flag then Other(ses.data) else ses.data
  {
    seq(255 - ses.flag, i => Cycle(ses.data, Complete)) + [Cycle(Other(ses.data), Complete)]
  }

  lemma LosingRunSaves(ses: Session)
    requires ses.data != []
    ensures var saved := Saved(LosingRun(ses));
      |saved| == 256 - ses.flag && saved[255 - ses.flag] != ses.data && LastOf(ses.data, saved, 255 - ses.flag) == ses.data
  {
    var cs := LosingRun(ses);
    SavedOfComplete(cs);
    assert Saved(cs)[255 - ses.flag] == cs[255 - ses.flag].data;
    if ses.flag < 255 {
      assert Saved(cs)[254 - ses.flag] == cs[254 - ses.flag].data;
    }
  }

  lemma LosingRunLoses(standard: seq<byte>, st: Store, ses: Session)
    requires Recoverable(st) && ses == Init(Incremental, st, standard) && ses.data != []
    requires (ses.current + ses.flag) % 2 == 0
    ensures !LoadsLast(standard, st, LosingRun(ses))
  {
    var cs, saved := LosingRun(ses), Saved(LosingRun(ses));
    var loaded := Init(Incremental, AfterCycles(standard, st, cs), standard).data;
    assert loaded == LastOf(ses.data, saved, Budget(ses, |saved|)) by {
      RunDurable(standard, st, cs);
    }
    assert |saved| == 256 - ses.flag && loaded != saved[255 - ses.flag] by {
      LosingRunSaves(ses);
      BudgetRunsOut(ses);
    }
  }

  lemma BudgetRunsOut(ses: Session)
    requires (ses.current + ses.flag) % 2 == 0
    ensures Budget(ses, 256 - ses.flag) == 255 - ses.flag
  {
  }

  /** No save is ever lost, in any run, exactly when the parities of device and flag differ. */
  lemma NeverLost(standard: seq<byte>, st: Store)
    requires Recoverable(st) && Init(Incremental, st, standard).data != []
    ensures (Init(Incremental, st, standard).current + Init(Incremental, st, standard).flag) % 2 == 1
      <==> forall cs | Cycles(cs, |Init(Incremental, st, standard).data|) :: LoadsLast(standard, st, cs)
  {
    var ses := Init(Incremental, st, standard);
    if (ses.current + ses.flag) % 2 == 1 {
      forall cs | Cycles(cs, |ses.data|)
        ensures LoadsLast(standard, st, cs)
      {
        RunDurable(standard, st, cs);
      }
    } else {
      LosingRunLoses(standard, st, ses);
      assert Cycles(LosingRun(ses), |ses.data|);
    }
  }

  // Several saves in one start

  /** No restart, and every save completes. */
  ghost predicate OneStart(steps: seq<Step>) {
    forall i :: 0 <= i < |steps| ==> !steps[i].Restart? && (steps[i].Write? ==> steps[i].cut == Complete)
  }

  function Writes(steps: seq<Step>): nat {
    if steps == [] then 0 else (if steps[0].Write? then 1 else 0) + Writes(steps[1..])
  }

  /** The flag of the copy that k saves from the session leave. */
  function FlagAfter(scheme: Scheme, ses: Session, k: nat): Flag {
    if k == 0 then ses.flag else if scheme == Boolean then ACTIVE else (ses.flag + k) % 256
  }

  function Source(scheme: Scheme, st: Store, ses: Session): Copy {
    At(st, ses.current).(flag := if scheme == Boolean then OBSOLETE else At(st, ses.current).flag)
  }

  /** The machine after k saves since the start: all of them went to the same copy. */
  ghost predicate SavedTimes(scheme: Scheme, st: Store, ses: Session, m: Machine, k: nat) {
    && m.ses.current == ses.current && m.ses.flag == FlagAfter(scheme, ses, k)
    && (k == 0 ==> m.st == st && m.saved.None?)
    && (k > 0 ==> m.saved.Some? && At(m.st, ses.current) == Source(scheme, st, ses))
    && (k > 0 ==> At(m.st, 1 - ses.current) == Copy(Crc32.Checksum(0, m.saved.value), m.ses.flag, m.saved.value))
  }

  lemma SavedStep(scheme: Scheme, standard: seq<byte>, st: Store, ses: Session, m: Machine, k: nat, step: Step)
    requires SavedTimes(scheme, st, ses, m, k) && !step.Restart? && (step.Write? ==> step.cut == Complete)
    ensures SavedTimes(scheme, st, ses, Next(scheme, standard, m, step), if step.Write? then k + 1 else k)
  {
  }

  lemma {:induction false} SavedOnAndOn(scheme: Scheme, standard: seq<byte>, st: Store, ses: Session, m: Machine,
                                        k: nat, steps: seq<Step>)
    requires SavedTimes(scheme, st, ses, m, k) && OneStart(steps)
    ensures SavedTimes(scheme, st, ses, Run(scheme, standard, m, steps), k + Writes(steps))
    decreases |steps|
  {
    if steps != [] {
      var step, rest := steps[0], steps[1..];
      SavedStep(scheme, standard, st, ses, m, k, step);
      SavedOnAndOn(scheme, standard, st, ses, Next(scheme, standard, m, step), if step.Write? then k + 1 else k, rest);
    }
  }

  /** When the copy of k saves in one start is the one that the next start loads: on NAND flash, when
      counting on from the flag has not gone beyond 255, with the two ends of the range apart. */
  predicate Outlasts(scheme: Scheme, ses: Session, k: nat)
    requires k > 0
  {
    var r := k % 256;
    || scheme == Boolean
    || (ses.current == 0 && ((r != 0 && ses.flag + r <= 255) || (ses.flag == 255 && r == 1)))
    || (ses.current == 1 && ses.flag + r <= 255 && !(ses.flag == 0 && r == 255))
  }

  lemma NewerExactly(scheme: Scheme, ses: Session, k: nat)
    requires k > 0
    ensures var f, g := if scheme == Boolean then OBSOLETE else ses.flag, FlagAfter(scheme, ses, k);
      Outlasts(scheme, ses, k) <==> (if ses.current == 0 then Newer(scheme, f, g) == 1 else Newer(scheme, g, f) == 0)
  {
    var r := k % 256;
    assert (ses.flag + k) % 256 == if ses.flag + r <= 255 then ses.flag + r else ses.flag + r - 256;
  }

  /** Any number of edits and saves in one start that loaded a good copy: the next start loads what
      was saved last, or else what this start loaded, by the exact condition. */
  lemma SavesInOneStart(scheme: Scheme, standard: seq<byte>, st: Store, steps: seq<Step>)
    requires Recoverable(st) && OneStart(steps) && Writes(steps) > 0
    ensures var ses, m := Init(scheme, st, standard), Run(scheme, standard, Boot(scheme, st, standard), steps);
      var next := Init(scheme, m.st, standard);
      && m.saved.Some?
      && (next == Session(1 - ses.current, m.ses.flag, m.saved.value) <==> Outlasts(scheme, ses, Writes(steps)))
      && (!Outlasts(scheme, ses, Writes(steps)) ==> next == ses)
  {
    var ses, k := Init(scheme, st, standard), Writes(steps);
    SavedOnAndOn(scheme, standard, st, ses, Boot(scheme, st, standard), 0, steps);
    NewerExactly(scheme, ses, k);
    var m := Run(scheme, standard, Boot(scheme, st, standard), steps);
    assert Valid(At(m.st, 0)) && Valid(At(m.st, 1));
  }
}
