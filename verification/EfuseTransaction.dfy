/**
 * One attempt to burn the counter (src/platform/security_epoch_transaction.rs) against an arbitrary controller.
 *
 * A tape answers every call in turn, so nothing is assumed about the hardware; the class logs its calls with what
 * they returned, and `Attempt` is the log and the result that a tape leads to.
 */
module EfuseTransaction {
  import opened Words
  import opened Bits
  import opened SecurityEpoch

  datatype Snapshot = Snapshot(block0: Block0, repeatErrors: seq<Word>)

  /** What the controller would answer to the next call, whichever it is. */
  datatype Answer = Answer(hz: u32, ok: bool, snapshot: Snapshot, staging: seq<Word>)

  type Tape = nat -> Answer

  datatype Call =
    | ApbHz(hz: u32)
    | Idle(ok: bool)
    | SetTiming(ok: bool)
    | Refresh(ok: bool)
    | Snap(snapshot: Snapshot)
    | ClearStaging
    | Staging(words: seq<Word>)
    | StageCounter(words: seq<Word>)
    | ProgramBlock0(ok: bool)

  datatype TransactionError =
    | AlreadyAttempted | Clock | Busy | Timing | RefreshFailed | Coding | State(error: PlanError) | BadStaging | Program

  function Blank(count: nat): (w: seq<Word>)
    ensures |w| == count && forall i :: 0 <= i < count ==> w[i] == Zeros(32)
  {
    seq(count, _ => Zeros(32))
  }

  predicate NoErrors(snapshot: Snapshot) {
    snapshot.repeatErrors == Blank(5)
  }

  /** The staging area as it must read back: the program words and three zero check words. */
  function Expected(change: PreparedChange): seq<Word>
    requires |change.delta| == 16
  {
    change.ProgramWords() + Blank(3)
  }

  function CheckBefore(change: PreparedChange, snapshot: Snapshot): Option<TransactionError> {
    if !NoErrors(snapshot) then Some(Coding)
    else if snapshot.block0 != change.before then Some(State(ChangedEfuses))
    else None
  }

  function CheckAfter(change: PreparedChange, cleared: bool, refreshed: bool, after: Snapshot, programmed: bool):
    Option<TransactionError>
  {
    if !cleared then Some(BadStaging)
    else if !refreshed then Some(RefreshFailed)
    else if !NoErrors(after) then Some(Coding)
    else if after.block0 != change.after then Some(State(Readback))
    else if !programmed then Some(Program)
    else None
  }

  function Outcome(failure: Option<TransactionError>): Result<(), TransactionError> {
    if failure.Some? then Err(failure.value) else Ok(())
  }

  // ---- The calls an attempt makes, and its result ----

  /** Up to the first readback of an empty staging area; `None` means go on. */
  function Preflight(change: PreparedChange, t: Tape): (seq<Call>, Option<TransactionError>) {
    var a := [ApbHz(t(0).hz)];
    if t(0).hz != 80_000_000 then (a, Some(Clock)) else
    var b := a + [Idle(t(1).ok)];
    if !t(1).ok then (b, Some(Busy)) else
    var c := b + [SetTiming(t(2).ok)];
    if !t(2).ok then (c, Some(Timing)) else
    var d := c + [Refresh(t(3).ok)];
    if !t(3).ok then (d, Some(RefreshFailed)) else
    var e := d + [Snap(t(4).snapshot)];
    var stale := CheckBefore(change, t(4).snapshot);
    if stale.Some? then (e, stale) else
    (e + [ClearStaging] + [Staging(t(6).staging)], if t(6).staging != Blank(11) then Some(BadStaging) else None)
  }

  /** Staging and the last checks before the point of no return; a failure clears the staging area. */
  function Stage(log: seq<Call>, change: PreparedChange, t: Tape): (seq<Call>, Option<TransactionError>)
    requires |change.delta| == 16
  {
    var a := log + [StageCounter(change.ProgramWords())] + [Staging(t(8).staging)];
    if t(8).staging != Expected(change) then (a + [ClearStaging], Some(BadStaging)) else
    var b := a + [Idle(t(9).ok)];
    if !t(9).ok then (b + [ClearStaging], Some(Busy)) else
    var c := b + [Snap(t(10).snapshot)];
    var stale := CheckBefore(change, t(10).snapshot);
    if stale.Some? then (c + [ClearStaging], stale) else (c, None)
  }

  /** The one physical call, and what must follow it whatever it says. */
  function Burn(log: seq<Call>, change: PreparedChange, t: Tape): (seq<Call>, Option<TransactionError>) {
    (log + [ProgramBlock0(t(11).ok)] + [ClearStaging] + [Staging(t(13).staging)] + [Refresh(t(14).ok)]
     + [Snap(t(15).snapshot)],
     CheckAfter(change, t(13).staging == Blank(11), t(14).ok, t(15).snapshot, t(11).ok))
  }

  function Attempt(change: PreparedChange, t: Tape): (seq<Call>, Result<(), TransactionError>)
    requires |change.delta| == 16
  {
    var (ready, refused) := Preflight(change, t);
    if refused.Some? then (ready, Outcome(refused))
    else
      var (staged, failed) := Stage(ready, change, t);
      if failed.Some? then (staged, Outcome(failed))
      else
        var (burned, wrong) := Burn(staged, change, t);
        (burned, Outcome(wrong))
  }

  predicate AtMostOneProgram(calls: seq<Call>) {
    forall i, j :: 0 <= i < j < |calls| && calls[i].ProgramBlock0? ==> !calls[j].ProgramBlock0?
  }

  class Transaction {
    const tape: Tape
    ghost var log: seq<Call>
    var asked: nat
    var attempted: bool

    ghost predicate Counted()
      reads this
    {
      |log| == asked
    }

    /** Over the whole life of a transaction, however often it is attempted, the fuses are programmed at most once. */
    ghost predicate Valid()
      reads this
    {
      Counted() && (!attempted ==> log == []) && AtMostOneProgram(log)
    }

    constructor (tape: Tape)
      ensures Valid() && !attempted && this.tape == tape
    {
      this.tape := tape;
      log, asked, attempted := [], 0, false;
    }

    /** One call to the controller: the next answer on the tape. */
    method Ask(ghost call: Call) returns (answer: Answer)
      requires Counted()
      modifies this`log, this`asked
      ensures Counted() && answer == tape(old(asked)) && log == old(log) + [call]
    {
      answer := tape(asked);
      log := log + [call];
      asked := asked + 1;
    }

    method CheckReady(change: PreparedChange) returns (refused: Option<TransactionError>)
      requires Counted() && log == []
      modifies this`log, this`asked
      ensures Counted() && (log, refused) == Preflight(change, tape)
    {
      var clock := Ask(ApbHz(tape(asked).hz));
      assert log == [ApbHz(clock.hz)];
      if clock.hz != 80_000_000 {
        return Some(Clock);
      }
      var idle := Ask(Idle(tape(asked).ok));
      if !idle.ok {
        return Some(Busy);
      }
      var timing := Ask(SetTiming(tape(asked).ok));
      if !timing.ok {
        return Some(Timing);
      }
      var refresh := Ask(Refresh(tape(asked).ok));
      if !refresh.ok {
        return Some(RefreshFailed);
      }
      var now := Ask(Snap(tape(asked).snapshot));
      var stale := CheckBefore(change, now.snapshot);
      if stale.Some? {
        return stale;
      }
      var _ := Ask(ClearStaging);
      var empty := Ask(Staging(tape(asked).staging));
      return if empty.staging != Blank(11) then Some(BadStaging) else None;
    }

    method StageCounterBits(change: PreparedChange) returns (failed: Option<TransactionError>)
      requires Counted() && |log| == 7 && |change.delta| == 16
      modifies this`log, this`asked
      ensures Counted() && (log, failed) == Stage(old(log), change, tape)
    {
      var _ := Ask(StageCounter(change.ProgramWords()));
      var staged := Ask(Staging(tape(asked).staging));
      if staged.staging != Expected(change) {
        failed := Some(BadStaging);
      } else {
        var idle := Ask(Idle(tape(asked).ok));
        if !idle.ok {
          failed := Some(Busy);
        } else {
          var now := Ask(Snap(tape(asked).snapshot));
          failed := CheckBefore(change, now.snapshot);
        }
      }
      if failed.Some? {
        var _ := Ask(ClearStaging);
      }
    }

    method AttemptChange(change: PreparedChange) returns (r: Result<(), TransactionError>)
      requires Valid() && |change.delta| == 16
      modifies this
      ensures Valid() && attempted
      ensures old(attempted) ==> r == Err(AlreadyAttempted) && log == old(log)
      ensures !old(attempted) ==> (log, r) == Attempt(change, tape)
      ensures !old(attempted) && (r.Ok? || Programmed(log)) ==>
                |log| == 16 && log[..7] ==
                [ApbHz(80_000_000), Idle(true), SetTiming(true), Refresh(true), Snap(Snapshot(change.before, Blank(5))),
                 ClearStaging, Staging(Blank(11))]
    {
      if attempted {
        return Err(AlreadyAttempted);
      }
      attempted := true;
      ProgramsOnceAfterChecks(change, tape);
      ReadyBeforeBurn(change, tape);
      hide Preflight, Stage, Burn, AtMostOneProgram, JustChecked, StagesNothing;
      var refused := CheckReady(change);
      if refused.Some? {
        return Err(refused.value);
      }
      PreflightStagesNothing(change, tape);
      StageOutcome(log, change, tape);
      var failed := StageCounterBits(change);
      if failed.Some? {
        return Err(failed.value);
      }
      var wrong := BurnOnce(change);
      r := Outcome(wrong);
    }

    /** Exactly one physical call; even a failing one may have burned bits, so it is read back whatever it says. */
    method BurnOnce(change: PreparedChange) returns (wrong: Option<TransactionError>)
      requires Counted() && |log| == 11
      modifies this`log, this`asked
      ensures Counted() && (log, wrong) == Burn(old(log), change, tape)
    {
      var programmed := Ask(ProgramBlock0(tape(asked).ok));
      var _ := Ask(ClearStaging);
      var empty := Ask(Staging(tape(asked).staging));
      var refresh := Ask(Refresh(tape(asked).ok));
      var after := Ask(Snap(tape(asked).snapshot));
      wrong := CheckAfter(change, empty.staging == Blank(11), refresh.ok, after.snapshot, programmed.ok);
    }
  }

  // ---- What an attempt guarantees, whatever the controller does ----

  predicate StagesNothing(calls: seq<Call>) {
    forall i :: 0 <= i < |calls| ==> !calls[i].ProgramBlock0? && !calls[i].StageCounter?
  }

  /** A preflight neither stages nor programs, and one that passes makes exactly seven calls. */
  lemma PreflightStagesNothing(change: PreparedChange, t: Tape)
    ensures StagesNothing(Preflight(change, t).0)
    ensures Preflight(change, t).1.None? ==> |Preflight(change, t).0| == 7
  {
  }

  /** Staging that passes makes exactly four more calls, with these results; one that fails ends by clearing. */
  lemma StageOutcome(log: seq<Call>, change: PreparedChange, t: Tape)
    requires |change.delta| == 16 && |log| == 7 && StagesNothing(log)
    ensures var (calls, failed) := Stage(log, change, t);
            && |calls| >= 10 && calls[..7] == log && calls[7] == StageCounter(change.ProgramWords())
            && StagesNothing(calls[8..])
            && (failed.Some? ==> calls[|calls| - 1] == ClearStaging)
            && (failed.None? ==> |calls| == 11 && JustChecked(change, calls, 11))
  {
  }

  /**
   * The four calls just before position `i` staged the words, read them back, found the controller idle, and found
   * BLOCK0 without errors and as planned.
   */
  predicate JustChecked(change: PreparedChange, calls: seq<Call>, i: nat)
    requires |change.delta| == 16 && i <= |calls|
  {
    && i >= 4
    && calls[i - 4] == StageCounter(change.ProgramWords())
    && calls[i - 3] == Staging(Expected(change))
    && calls[i - 2] == Idle(true)
    && calls[i - 1].Snap? && calls[i - 1].snapshot.block0 == change.before && NoErrors(calls[i - 1].snapshot)
  }

  /**
   * The fuses are programmed at most once, and only right after the checks; after that, and after any staging that is
   * given up, the staging area is cleared whatever happened.
   */
  lemma ProgramsOnceAfterChecks(change: PreparedChange, t: Tape)
    requires |change.delta| == 16
    ensures var calls := Attempt(change, t).0;
            && AtMostOneProgram(calls)
            && (forall i :: 0 <= i < |calls| && calls[i].ProgramBlock0? ==>
                  JustChecked(change, calls, i) && i + 1 < |calls| && calls[i + 1] == ClearStaging)
            && (forall i :: 0 <= i < |calls| && calls[i].StageCounter? ==>
                  exists j :: i < j < |calls| && calls[j] == ClearStaging)
  {
    hide Preflight, Stage;
    var calls := Attempt(change, t).0;
    var (ready, refused) := Preflight(change, t);
    PreflightStagesNothing(change, t);
    if refused.None? {
      StageOutcome(ready, change, t);
      var (staged, failed) := Stage(ready, change, t);
      assert forall i :: 0 <= i < 7 ==> staged[i] == ready[i];
      assert forall i :: 8 <= i < |staged| ==> staged[i] == staged[8..][i - 8];
      if failed.None? {
        assert calls[..11] == staged;
        assert forall i :: 0 <= i < 11 ==> calls[i] == staged[i];
        assert calls[12] == ClearStaging;
      } else {
        assert calls[|calls| - 1] == ClearStaging;
      }
    }
  }

  /** Success means: programmed once with no error, staging empty again, and BLOCK0 reads back exactly as planned. */
  lemma SuccessReadsBack(change: PreparedChange, t: Tape)
    requires |change.delta| == 16 && Attempt(change, t).1.Ok?
    ensures var calls := Attempt(change, t).0;
            && |calls| == 16
            && calls[11] == ProgramBlock0(true) && calls[12] == ClearStaging && calls[13] == Staging(Blank(11))
            && calls[14] == Refresh(true)
            && calls[15].Snap? && NoErrors(calls[15].snapshot) && calls[15].snapshot.block0 == change.after
  {
    hide Preflight, Stage;
    PreflightStagesNothing(change, t);
    var ready := Preflight(change, t).0;
    StageOutcome(ready, change, t);
    var staged := Stage(ready, change, t).0;
    assert Attempt(change, t) == (Burn(staged, change, t).0, Outcome(Burn(staged, change, t).1));
  }

  /** The log shows what the controller really answered. */
  predicate Faithful(call: Call, answer: Answer) {
    match call
    case ApbHz(hz) => hz == answer.hz
    case Idle(ok) => ok == answer.ok
    case SetTiming(ok) => ok == answer.ok
    case Refresh(ok) => ok == answer.ok
    case Snap(snapshot) => snapshot == answer.snapshot
    case Staging(words) => words == answer.staging
    case ProgramBlock0(ok) => ok == answer.ok
    case _ => true
  }

  /** What call `i` must be for an attempt to get past it without complaint. */
  predicate Right(change: PreparedChange, call: Call, i: nat)
    requires |change.delta| == 16
  {
    if i == 0 then call == ApbHz(80_000_000)
    else if i == 1 || i == 9 then call == Idle(true)
    else if i == 2 then call == SetTiming(true)
    else if i == 3 || i == 14 then call == Refresh(true)
    else if i == 4 || i == 10 then call == Snap(Snapshot(change.before, Blank(5)))
    else if i == 5 || i == 12 then call == ClearStaging
    else if i == 6 || i == 13 then call == Staging(Blank(11))
    else if i == 7 then call == StageCounter(change.ProgramWords())
    else if i == 8 then call == Staging(change.ProgramWords() + Blank(3))
    else if i == 11 then call == ProgramBlock0(true)
    else call == Snap(Snapshot(change.after, Blank(5)))
  }

  /** What it means that call `i` is not that. */
  function Cause(call: Call, i: nat): TransactionError {
    if i == 0 then Clock
    else if i == 1 || i == 9 then Busy
    else if i == 2 then Timing
    else if i == 3 || i == 14 then RefreshFailed
    else if i == 6 || i == 8 || i == 13 then BadStaging
    else if i == 11 then Program
    else if call.Snap? && call.snapshot.repeatErrors != Blank(5) then Coding
    else if i == 15 then State(Readback)
    else State(ChangedEfuses)
  }

  /** Call `n`, before the fuses are programmed, is the first that is not right. */
  predicate FirstWrong(change: PreparedChange, calls: seq<Call>, n: nat)
    requires |change.delta| == 16
  {
    n < |calls| && n < 11 && !Right(change, calls[n], n) && AllRight(change, calls, n)
  }

  predicate AllRight(change: PreparedChange, calls: seq<Call>, n: nat)
    requires |change.delta| == 16
  {
    n <= |calls| && forall i :: 0 <= i < n ==> Right(change, calls[i], i)
  }

  /** It ends the attempt with its error, once what was staged is cleared. */
  predicate Stops(calls: seq<Call>, r: Result<(), TransactionError>, n: nat)
    requires n < |calls|
  {
    && r == Err(Cause(calls[n], n)) && StagesAtMost(calls)
    && if n < 7 then |calls| == n + 1 else |calls| == n + 2 && calls[n + 1] == ClearStaging
  }

  predicate StagesAtMost(calls: seq<Call>) {
    forall i :: 0 <= i < |calls| ==> !calls[i].ProgramBlock0?
  }

  /** After the fuses are programmed all the checks are made, and the first one in this order decides. */
  function Verdict(change: PreparedChange, calls: seq<Call>): Result<(), TransactionError>
    requires |change.delta| == 16 && |calls| == 16
  {
    if !Right(change, calls[13], 13) then Err(BadStaging)
    else if !Right(change, calls[14], 14) then Err(RefreshFailed)
    else if !Right(change, calls[15], 15) then Err(Cause(calls[15], 15))
    else if !Right(change, calls[11], 11) then Err(Program)
    else Ok(())
  }

  lemma PreflightExactly(change: PreparedChange, t: Tape)
    requires |change.delta| == 16
    ensures var (calls, refused) := Preflight(change, t);
            && 0 < |calls| <= 7 && (refused.None? ==> |calls| == 7)
            && (forall i :: 0 <= i < |calls| ==> Faithful(calls[i], t(i)))
            && (forall i :: 0 <= i < |calls| - 1 ==> Right(change, calls[i], i))
            && (refused.None? <==> Right(change, calls[|calls| - 1], |calls| - 1))
            && (refused.Some? ==> refused == Some(Cause(calls[|calls| - 1], |calls| - 1)))
  {
  }

  lemma StageExactly(log: seq<Call>, change: PreparedChange, t: Tape)
    requires |change.delta| == 16 && |log| == 7
    ensures var (calls, failed) := Stage(log, change, t);
            && 10 <= |calls| <= 12 && calls[..7] == log && (failed.None? ==> |calls| == 11)
            && (forall i :: 7 <= i < |calls| ==> Faithful(calls[i], t(i)))
            && var last := if failed.None? then 10 else |calls| - 2;
            && (forall i :: 7 <= i < last ==> Right(change, calls[i], i))
            && (failed.None? <==> Right(change, calls[last], last))
            && (failed.Some? ==> failed == Some(Cause(calls[last], last)) && calls[last + 1] == ClearStaging)
  {
  }

  predicate AllFaithful(calls: seq<Call>, t: Tape) {
    forall i :: 0 <= i < |calls| ==> Faithful(calls[i], t(i))
  }

  lemma RefusedAttempt(change: PreparedChange, t: Tape)
    requires |change.delta| == 16 && Preflight(change, t).1.Some?
    ensures var (calls, r) := Attempt(change, t);
            && AllFaithful(calls, t)
            && exists n :: FirstWrong(change, calls, n) && Stops(calls, r, n)
  {
    hide Preflight, Right, Cause, Faithful;
    PreflightExactly(change, t);
    PreflightStagesNothing(change, t);
    var (calls, r) := Attempt(change, t);
    assert FirstWrong(change, calls, |calls| - 1) && Stops(calls, r, |calls| - 1);
  }

  lemma GivenUpAttempt(change: PreparedChange, t: Tape)
    requires |change.delta| == 16 && Preflight(change, t).1.None? && Stage(Preflight(change, t).0, change, t).1.Some?
    ensures var (calls, r) := Attempt(change, t);
            && AllFaithful(calls, t)
            && exists n :: FirstWrong(change, calls, n) && Stops(calls, r, n)
  {
    hide Preflight, Stage, Right, Cause, Faithful;
    PreflightExactly(change, t);
    PreflightStagesNothing(change, t);
    var ready := Preflight(change, t).0;
    StageExactly(ready, change, t);
    StageOutcome(ready, change, t);
    var (calls, r) := Attempt(change, t);
    Joined(ready, calls);
    forall i | 8 <= i < |calls| ensures !calls[i].ProgramBlock0? {
      assert calls[i] == calls[8..][i - 8];
    }
    assert FirstWrong(change, calls, |calls| - 2) && Stops(calls, r, |calls| - 2);
  }

  lemma Joined(ready: seq<Call>, calls: seq<Call>)
    requires |ready| <= |calls| && calls[..|ready|] == ready
    ensures forall i :: 0 <= i < |ready| ==> calls[i] == ready[i]
  {
    assert forall i :: 0 <= i < |ready| ==> calls[i] == calls[..|ready|][i];
  }

  lemma BurningAttempt(change: PreparedChange, t: Tape)
    requires |change.delta| == 16 && Preflight(change, t).1.None? && Stage(Preflight(change, t).0, change, t).1.None?
    ensures var (calls, r) := Attempt(change, t);
            && AllFaithful(calls, t) && |calls| == 16 && AllRight(change, calls, 11)
            && calls[11].ProgramBlock0? && calls[12] == ClearStaging && r == Verdict(change, calls)
  {
    hide Preflight, Stage;
    PreflightExactly(change, t);
    var ready := Preflight(change, t).0;
    StageExactly(ready, change, t);
    var staged := Stage(ready, change, t).0;
    var calls := Attempt(change, t).0;
    assert calls == Burn(staged, change, t).0 && calls[..11] == staged;
    hide Right;
    Joined(ready, staged);
    Joined(staged, calls);
  }

  /**
   * Every attempt, call by call, for every controller: the log is faithful; while the answers are right the next call
   * follows, through the clock, the timing, a fresh snapshot, an empty staging area and the staged words read back;
   * the first wrong answer before programming ends the attempt with its own error; the fuses are programmed exactly
   * when all eleven calls before were right, and then the reads that follow decide the result.
   */
  lemma AttemptExactly(change: PreparedChange, t: Tape)
    requires |change.delta| == 16
    ensures var (calls, r) := Attempt(change, t);
            && AllFaithful(calls, t)
            && if AllRight(change, calls, 11) then
                 && |calls| == 16 && calls[11].ProgramBlock0? && calls[12] == ClearStaging && r == Verdict(change, calls)
               else
                 exists n :: FirstWrong(change, calls, n) && Stops(calls, r, n)
  {
    hide Preflight, Stage, Attempt, Right, Verdict, Faithful;
    if Preflight(change, t).1.Some? {
      RefusedAttempt(change, t);
    } else if Stage(Preflight(change, t).0, change, t).1.Some? {
      GivenUpAttempt(change, t);
    } else {
      BurningAttempt(change, t);
    }
  }

  /** So a burn, or a success, was preceded by these seven answers, in this order, at these values. */
  lemma BurnsOnlyWhenReady(change: PreparedChange, t: Tape)
    requires |change.delta| == 16
    requires var (calls, r) := Attempt(change, t);
             r.Ok? || exists i :: 0 <= i < |calls| && calls[i].ProgramBlock0?
    ensures |Attempt(change, t).0| == 16
    ensures Attempt(change, t).0[..7] ==
            [ApbHz(80_000_000), Idle(true), SetTiming(true), Refresh(true), Snap(Snapshot(change.before, Blank(5))),
             ClearStaging, Staging(Blank(11))]
    ensures t(0).hz == 80_000_000 && t(1).ok && t(2).ok && t(3).ok
    ensures t(4).snapshot.block0 == change.before && t(4).snapshot.repeatErrors == Blank(5) && t(6).staging == Blank(11)
  {
    hide Attempt;
    BurntWasReady(change, t);
    FirstSeven(change, t, Attempt(change, t).0);
  }

  lemma ReadyBeforeBurn(change: PreparedChange, t: Tape)
    requires |change.delta| == 16
    ensures var (calls, r) := Attempt(change, t);
            r.Ok? || Programmed(calls) ==>
              |calls| == 16 && calls[..7] ==
              [ApbHz(80_000_000), Idle(true), SetTiming(true), Refresh(true), Snap(Snapshot(change.before, Blank(5))),
               ClearStaging, Staging(Blank(11))]
  {
    hide Attempt;
    if Attempt(change, t).1.Ok? || Programmed(Attempt(change, t).0) { BurnsOnlyWhenReady(change, t); }
  }

  lemma BurntWasReady(change: PreparedChange, t: Tape)
    requires |change.delta| == 16
    requires var (calls, r) := Attempt(change, t);
             r.Ok? || exists i :: 0 <= i < |calls| && calls[i].ProgramBlock0?
    ensures var calls := Attempt(change, t).0;
            |calls| == 16 && AllRight(change, calls, 11) && AllFaithful(calls, t)
  {
    hide Attempt, Right, Faithful, Verdict;
    AttemptExactly(change, t);
  }

  lemma FirstSeven(change: PreparedChange, t: Tape, calls: seq<Call>)
    requires |change.delta| == 16 && AllRight(change, calls, 11) && AllFaithful(calls, t)
    ensures calls[..7] ==
            [ApbHz(80_000_000), Idle(true), SetTiming(true), Refresh(true), Snap(Snapshot(change.before, Blank(5))),
             ClearStaging, Staging(Blank(11))]
    ensures t(0).hz == 80_000_000 && t(1).ok && t(2).ok && t(3).ok
    ensures t(4).snapshot.block0 == change.before && t(4).snapshot.repeatErrors == Blank(5) && t(6).staging == Blank(11)
  {
    assert Faithful(calls[0], t(0)) && Faithful(calls[1], t(1)) && Faithful(calls[2], t(2)) && Faithful(calls[3], t(3));
    assert Faithful(calls[4], t(4)) && Faithful(calls[6], t(6));
  }

  /**
   * From plan to fuses: if the plan was accepted and the attempt succeeded, the counter reads exactly the target
   * epoch, no set bit was lost, nothing else moved, and each slot holds a verified image that the target admits.
   */
  lemma RaiseSound(plan: ApprovedPlan, observed: ObservedState, change: PreparedChange, t: Tape)
    requires Refusal(plan, observed).None? && change.before == observed.block0
    requires change.targetEpoch == plan.targetEpoch && IsCounterRaise(change)
    requires Attempt(change, t).1.Ok?
    ensures var calls := Attempt(change, t).0;
            && |calls| == 16 && calls[15].Snap?
            && var block0 := calls[15].snapshot.block0;
            && Epoch(block0) == plan.targetEpoch > Epoch(observed.block0)
            && (forall w, i :: 0 <= w < 6 && 0 <= i < 32 && observed.block0[w][i] ==> block0[w][i])
            && (forall w, i :: 0 <= w < 6 && 0 <= i < 32 && observed.block0[w][i] != block0[w][i] ==>
                  w == 4 && 11 <= i < 27)
            && Epoch(block0) <= observed.slot0.secureVersion && Epoch(block0) <= observed.slot1.secureVersion
  {
    hide Attempt, IsLowestFree, Epoch;
    SuccessReadsBack(change, t);
    RaiseIsExact(change);
  }

  // ---- What the fuses hold afterwards ----

  predicate Programmed(calls: seq<Call>) {
    exists i :: 0 <= i < |calls| && calls[i].ProgramBlock0?
  }

  /** Nothing burns unless it was programmed, and then as much of the change as `took` did, whatever was reported. */
  function FusesAfter(change: PreparedChange, t: Tape, took: Block0): Block0
    requires |change.delta| == 16
  {
    if Programmed(Attempt(change, t).0) then Burned(change.before, change.ProgramWords(), took) else change.before
  }

  /** The attempt reports success and its last snapshot showed what the fuses hold. */
  predicate TrulySucceeded(change: PreparedChange, t: Tape, left: Block0)
    requires |change.delta| == 16
  {
    var (calls, r) := Attempt(change, t);
    r.Ok? && calls != [] && calls[|calls| - 1] == Snap(Snapshot(left, Blank(5)))
  }

  /**
   * Any attempt leaves the counter between the old count and the target, and loses no bit. One that reports success,
   * and whose last snapshot was true, has reached the target.
   */
  lemma AttemptStaysWithin(change: PreparedChange, t: Tape, took: Block0)
    requires IsCounterRaise(change)
    ensures var left := FusesAfter(change, t, took);
            && Epoch(change.before) <= Epoch(left) <= change.targetEpoch
            && (forall w, i :: 0 <= w < 6 && 0 <= i < 32 && change.before[w][i] ==> left[w][i])
            && (TrulySucceeded(change, t, left) ==> Epoch(left) == change.targetEpoch)
  {
    hide Attempt, Burned, Epoch, IsLowestFree;
    BurnStaysWithin(change, took);
    RaiseIsExact(change);
    if Attempt(change, t).1.Ok? { SuccessReadsBack(change, t); }
  }
}
