/**
 * The long gesture before irreversible maintenance (src/platform/maintenance_presence.rs): release, a five-second
 * hold, release again, within thirty seconds.
 */
module MaintenancePresence {
  import opened Words
  import opened Traces

  const DEBOUNCE_MS := 25
  const HOLD_MS := 5_000
  const TIMEOUT_MS := 30_000

  datatype Stage = InitialRelease | AwaitPress | Holding | FinalRelease | Finished

  /** The button and the clock. The first reading of a trace is the one the watch starts with. */
  datatype Reading = Reading(pressed: bool, now: u64, cancelled: bool)

  datatype Watch = Watch(stage: Stage, started: u64, changed: u64, lastPressed: bool)

  function New(pressed: bool, now: u64): Watch {
    Watch(InitialRelease, now, now, pressed)
  }

  function Noted(w: Watch, r: Reading): Watch {
    if r.pressed != w.lastPressed then w.(lastPressed := r.pressed, changed := r.now) else w
  }

  predicate Refused(w: Watch, r: Reading) {
    r.cancelled || r.now < w.changed || SaturatingSub(r.now, w.started) >= TIMEOUT_MS || w.stage.Finished?
  }

  function Step(w: Watch, r: Reading): (Watch, Option<bool>) {
    if Refused(w, r) then (w.(stage := Finished), Some(false)) else Judge(Noted(w, r), r.now)
  }

  function Judge(w: Watch, now: u64): (Watch, Option<bool>) {
    var stable := SaturatingSub(now, w.changed);
    if w.stage.InitialRelease? && !w.lastPressed && stable >= DEBOUNCE_MS then (w.(stage := AwaitPress), None)
    else if w.stage.AwaitPress? && w.lastPressed && stable >= DEBOUNCE_MS then (w.(stage := Holding), None)
    else if w.stage.Holding? && !w.lastPressed then (w.(stage := InitialRelease), None)
    else if w.stage.Holding? && stable >= HOLD_MS then (w.(stage := FinalRelease), None)
    else if w.stage.FinalRelease? && !w.lastPressed && stable >= DEBOUNCE_MS then
      (w.(stage := Finished), Some(true))
    else (w, None)
  }

  /** The watch as the program keeps it. */
  class MaintenancePresence {
    var stage: Stage
    const started: u64
    var changed: u64
    var lastPressed: bool

    ghost function State(): Watch
      reads this
    {
      Watch(stage, started, changed, lastPressed)
    }

    constructor (pressed: bool, now: u64)
      ensures State() == New(pressed, now)
    {
      stage, started, changed, lastPressed := InitialRelease, now, now, pressed;
    }

    method Poll(pressed: bool, now: u64, cancelled: bool) returns (answer: Option<bool>)
      modifies this
      ensures (State(), answer) == Step(old(State()), Reading(pressed, now, cancelled))
    {
      if cancelled || now < changed || SaturatingSub(now, started) >= TIMEOUT_MS || stage == Finished {
        stage := Finished;
        return Some(false);
      }
      if pressed != lastPressed {
        lastPressed, changed := pressed, now;
      }
      var stable := SaturatingSub(now, changed);
      match stage {
        case InitialRelease =>
          if !pressed && stable >= DEBOUNCE_MS { stage := AwaitPress; }
        case AwaitPress =>
          if pressed && stable >= DEBOUNCE_MS { stage := Holding; }
        case Holding =>
          if !pressed { stage := InitialRelease; } else if stable >= HOLD_MS { stage := FinalRelease; }
        case FinalRelease =>
          if !pressed && stable >= DEBOUNCE_MS {
            stage := Finished;
            return Some(true);
          }
      }
      return None;
    }
  }

  // ---- Traces ----

  /** The watch that starts with the first reading, after the others. */
  function Watched(trace: seq<Reading>): (Watch, Option<bool>)
    requires trace != []
  {
    After(Step, New(trace[0].pressed, trace[0].now), trace[1..])
  }

  /** From reading `i` to reading `j` the button reads `pressed`, for at least `ms`. */
  predicate Steady(trace: seq<Reading>, pressed: bool, i: int, j: int, ms: nat) {
    && 0 <= i <= j < |trace|
    && (forall k :: i <= k <= j ==> trace[k].pressed == pressed)
    && trace[j].now >= trace[i].now + ms
  }

  predicate Orderly(trace: seq<Reading>) {
    forall i :: 0 < i < |trace| ==>
      !trace[i].cancelled && SaturatingSub(trace[i].now, trace[0].now) < 30_000
  }

  datatype Parts = Parts(a0: int, a1: int, b0: int, b1: int, start: int)

  predicate ReleasedFirst(trace: seq<Reading>, p: Parts) {
    Steady(trace, false, p.a0, p.a1, 25)
  }

  predicate HeldThen(trace: seq<Reading>, p: Parts) {
    ReleasedFirst(trace, p) && p.a1 < p.b0 && Steady(trace, true, p.b0, p.b1, 5_000)
  }

  /** A complete gesture that ends with the last reading. */
  predicate Gesture(trace: seq<Reading>, p: Parts) {
    Orderly(trace) && HeldThen(trace, p) && p.b1 < p.start &&
    Steady(trace, false, p.start, |trace| - 1, 25)
  }

  predicate RunSince(w: Watch, trace: seq<Reading>, start: int) {
    && 0 <= start < |trace| && trace[start].now == w.changed
    && forall k :: start <= k < |trace| ==> trace[k].pressed == w.lastPressed
  }

  /** What an unfinished watch knows about the readings so far. */
  predicate Explains(trace: seq<Reading>, w: Watch, p: Parts) {
    && trace != [] && w.started == trace[0].now
    && (!w.stage.Finished? ==>
          && Orderly(trace) && RunSince(w, trace, p.start)
          && (w.stage.AwaitPress? || w.stage.Holding? ==>
                ReleasedFirst(trace, p) && (w.lastPressed ==> p.a1 < p.start))
          && (w.stage.FinalRelease? ==> HeldThen(trace, p) && (!w.lastPressed ==> p.b1 < p.start)))
  }

  lemma SteadyStays(trace: seq<Reading>, r: Reading, pressed: bool, i: int, j: int, ms: nat)
    requires Steady(trace, pressed, i, j, ms)
    ensures Steady(trace + [r], pressed, i, j, ms)
  {
  }

  lemma ExplainNoted(trace: seq<Reading>, w: Watch, p: Parts, r: Reading) returns (q: Parts)
    requires Explains(trace, w, p) && !Refused(w, r)
    ensures Explains(trace + [r], Noted(w, r), q)
  {
    q := if r.pressed != w.lastPressed then p.(start := |trace|) else p;
    if !w.stage.InitialRelease? { SteadyStays(trace, r, false, p.a0, p.a1, 25); }
    if w.stage.FinalRelease? { SteadyStays(trace, r, true, p.b0, p.b1, 5_000); }
    hide Steady;
  }

  lemma ExplainJudged(trace: seq<Reading>, w: Watch, p: Parts) returns (q: Parts)
    requires Explains(trace, w, p) && !w.stage.Finished? && trace[|trace| - 1].now >= w.changed
    ensures Explains(trace, Judge(w, trace[|trace| - 1].now).0, q)
    ensures Judge(w, trace[|trace| - 1].now).1 == Some(true) ==> Gesture(trace, q)
  {
    hide Orderly;
    var n := |trace| - 1;
    q := p;
    if w.stage.InitialRelease? { q := q.(a0 := p.start, a1 := n); }
    if w.stage.Holding? && w.lastPressed { q := q.(b0 := p.start, b1 := n); }
  }

  lemma ExplainStep(trace: seq<Reading>, w: Watch, p: Parts, r: Reading) returns (q: Parts)
    requires Explains(trace, w, p)
    ensures Explains(trace + [r], Step(w, r).0, q)
    ensures Step(w, r).1 == Some(true) ==> Gesture(trace + [r], q)
  {
    q := p;
    if !Refused(w, r) {
      q := ExplainNoted(trace, w, p, r);
      hide Explains, Judge, Gesture;
      q := ExplainJudged(trace + [r], Noted(w, r), q);
    }
  }

  lemma {:induction false} Explain(trace: seq<Reading>) returns (p: Parts)
    requires trace != []
    ensures Explains(trace, Watched(trace).0, p)
    ensures Watched(trace).1 == Some(true) ==> Gesture(trace, p)
    decreases |trace|
  {
    var n := |trace| - 1;
    if n == 0 {
      p := Parts(0, 0, 0, 0, 0);
    } else {
      var before := trace[..n];
      var q := Explain(before);
      p := ExplainStep(before, Watched(before).0, q, trace[n]);
      assert before + [trace[n]] == trace;
      assert trace[1..][..n - 1] == before[1..];
    }
  }

  /**
   * Soundness over all traces: an approval means the readings held, in this order, a debounced release, an
   * uninterrupted hold of five seconds and a debounced release ending with that very poll, all within thirty seconds
   * of the start and with no cancellation.
   */
  lemma ApprovalProvesGesture(trace: seq<Reading>) returns (p: Parts)
    requires trace != [] && Watched(trace).1 == Some(true)
    ensures Gesture(trace, p)
  {
    p := Explain(trace);
  }

  /** One shot: after any verdict, every later poll answers no. */
  lemma OneShot(w: Watch, polls: seq<Reading>, i: nat)
    requires 0 < i < |polls| && After(Step, w, polls[..i]).1.Some?
    ensures After(Step, w, polls).1 == Some(false) && After(Step, w, polls).0.stage.Finished?
  {
    NothingAfterVerdict(Step, (v: Watch) => v.stage.Finished?, w, polls, i);
  }

  // ---- Completeness ----

  /** A stretch of polls that all read `pressed`, in time order from `from`, in time. */
  predicate Clean(polls: seq<Reading>, pressed: bool, from: u64, started: u64) {
    && polls != []
    && (forall i :: 0 <= i < |polls| ==>
          && polls[i].pressed == pressed && !polls[i].cancelled
          && from <= polls[i].now && SaturatingSub(polls[i].now, started) < 30_000)
    && (forall i, j :: 0 <= i < j < |polls| ==> polls[i].now <= polls[j].now)
  }

  function Last(polls: seq<Reading>): u64
    requires polls != []
  {
    polls[|polls| - 1].now
  }

  /** How long a stretch has lasted at its end, the state before it included. */
  function Origin(w: Watch, polls: seq<Reading>): u64
    requires polls != []
  {
    if polls[0].pressed == w.lastPressed then w.changed else polls[0].now
  }

  lemma {:induction false} FirstRelease(w: Watch, polls: seq<Reading>)
    requires w.stage.InitialRelease? && Clean(polls, false, w.changed, w.started)
    ensures var origin := Origin(w, polls);
            After(Step, w, polls) ==
            (Watch(if Last(polls) - origin >= 25 then AwaitPress else InitialRelease, w.started, origin, false),
             None)
    decreases |polls|
  {
    var n := |polls| - 1;
    if n == 0 {
      assert After(Step, w, polls[..n]) == (w, None);
    } else {
      FirstRelease(w, polls[..n]);
    }
  }

  /**
   * Exactly what a clean press achieves: the watch moves one stage a poll, so the hold counts if and only if it lasts
   * five seconds and some poll before its last one already falls 25 ms or more into it.
   */
  lemma {:induction false} Hold(w: Watch, polls: seq<Reading>)
    requires w.stage.AwaitPress? && !w.lastPressed && Clean(polls, true, w.changed, w.started)
    ensures var n := |polls|;
            var stage :=
              if n >= 2 && polls[n - 2].now - polls[0].now >= 25 && Last(polls) - polls[0].now >= 5_000
              then FinalRelease
              else if Last(polls) - polls[0].now >= 25 then Holding else AwaitPress;
            After(Step, w, polls) == (Watch(stage, w.started, polls[0].now, true), None)
    decreases |polls|
  {
    var n := |polls| - 1;
    if n == 0 {
      assert After(Step, w, polls[..n]) == (w, None);
    } else {
      Hold(w, polls[..n]);
    }
  }

  lemma {:induction false} FinalStretch(w: Watch, polls: seq<Reading>)
    requires w.stage.FinalRelease? && w.lastPressed && Clean(polls, false, w.changed, w.started)
    ensures if Last(polls) - polls[0].now >= 25 then EverApproved(Step, w, polls)
            else After(Step, w, polls) == (Watch(FinalRelease, w.started, polls[0].now, false), None)
    decreases |polls|
  {
    var n := |polls| - 1;
    if n == 0 {
      assert After(Step, w, polls[..n]) == (w, None);
    } else {
      FinalStretch(w, polls[..n]);
    }
  }

  /** A stretch at a level that the stage does not wait for changes nothing but to be remembered. */
  lemma {:induction false} IdleStretch(w: Watch, polls: seq<Reading>, pressed: bool)
    requires w.stage in {InitialRelease, AwaitPress, FinalRelease} && Clean(polls, pressed, w.changed, w.started)
    requires pressed == (w.stage != AwaitPress)
    ensures After(Step, w, polls) == (Watch(w.stage, w.started, Origin(w, polls), pressed), None)
    decreases |polls|
  {
    var n := |polls| - 1;
    if n == 0 {
      assert After(Step, w, polls[..n]) == (w, None);
    } else {
      IdleStretch(w, polls[..n], pressed);
    }
  }

  /** Letting go during the hold starts the whole gesture over; the release that then begins counts for it. */
  lemma EarlyRelease(w: Watch, polls: seq<Reading>)
    requires w.stage.Holding? && w.lastPressed && Clean(polls, false, w.changed, w.started)
    ensures var stage := if |polls| >= 2 && Last(polls) - polls[0].now >= 25 then AwaitPress else InitialRelease;
            After(Step, w, polls) == (Watch(stage, w.started, polls[0].now, false), None)
  {
    var first, rest := polls[..1], polls[1..];
    assert first[..0] == [];
    assert After(Step, w, first) == Step(w, polls[0]);
    assert first + rest == polls;
    if rest != [] {
      AfterAppend(Step, w, first, rest);
      FirstRelease(After(Step, w, first).0, rest);
    }
  }

  /** A poll that is cancelled, before the level last changed, or thirty seconds after the start ends the watch. */
  lemma RefusedAtOnce(w: Watch, r: Reading)
    requires !w.stage.Finished?
    ensures r.cancelled || r.now < w.changed || r.now >= w.started + 30_000 ==>
              Step(w, r) == (w.(stage := Finished), Some(false))
    ensures !(r.cancelled || r.now < w.changed || r.now >= w.started + 30_000) ==> Step(w, r).1 != Some(false)
  {
  }

  /** Completeness: a clean gesture, sampled at least once in the hold before its last poll, is approved. */
  lemma CleanGestureApproved(pressed: bool, now: u64, r: seq<Reading>, h: seq<Reading>, f: seq<Reading>)
    requires Clean(r, false, now, now) && Last(r) - (if pressed then r[0].now else now) >= 25
    requires Clean(h, true, Last(r), now) && |h| >= 2
    requires h[|h| - 2].now - h[0].now >= 25 && Last(h) - h[0].now >= 5_000
    requires Clean(f, false, Last(h), now) && Last(f) - f[0].now >= 25
    ensures EverApproved(Step, New(pressed, now), r + h + f)
  {
    var w := New(pressed, now);
    FirstRelease(w, r);
    Hold(After(Step, w, r).0, h);
    AfterAppend(Step, w, r, h);
    FinalStretch(After(Step, w, r + h).0, f);
    ApprovedIn(Step, w, r + h, f);
  }
}
