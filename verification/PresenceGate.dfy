/** Fresh button consent (src/platform/presence_gate.rs): what an approval proves about the samples that led to it. */
module PresenceGate {
  import opened Words
  import opened Traces

  datatype Level = Released | Pressed | Uncertain | Fault

  datatype Phase = InitialRelease | AwaitPress | FinalRelease | Finished

  const RELEASE_MS := 30

  /** One poll: a level if there is a fresh sample, the clock, and whether the request was cancelled. */
  datatype Input = Input(sample: Option<Level>, now: u64, cancelled: bool)

  datatype Gate = Gate(
    phase: Phase, deadline: u64, lastPoll: u64, lastLevel: Level, since: u64, pressMs: nat, longHold: bool)

  function New(now: u64, timeout: u64, longHold: bool): Gate {
    Gate(InitialRelease, Min(now + timeout, U64_MAX), now, Uncertain, now, if longHold then 5_000 else 30, longHold)
  }

  function Finish(g: Gate): (Gate, Option<bool>) {
    (g.(phase := Finished), Some(false))
  }

  function Step(g: Gate, p: Input): (Gate, Option<bool>) {
    if p.cancelled || p.now < g.lastPoll || p.now >= g.deadline || g.phase.Finished? then Finish(g)
    else
      var h := g.(lastPoll := p.now);
      if p.sample.None? then (h, None)
      else if p.sample.value.Fault? then Finish(h)
      else Judge(Noted(h, p.sample.value, p.now), p.now)
  }

  function Noted(g: Gate, level: Level, now: u64): Gate {
    if level != g.lastLevel then g.(lastLevel := level, since := now) else g
  }

  /** The level has been `g.lastLevel` since `g.since`. */
  function Judge(g: Gate, now: u64): (Gate, Option<bool>) {
    var stable := SaturatingSub(now, g.since);
    if g.lastLevel.Uncertain? then
      (if g.phase.FinalRelease? then g.(phase := InitialRelease) else g, None)
    else if g.phase.InitialRelease? && g.lastLevel.Released? && stable >= RELEASE_MS then
      (g.(phase := AwaitPress), None)
    else if g.phase.AwaitPress? && g.lastLevel.Pressed? && stable >= g.pressMs then
      if g.longHold then (g.(phase := FinalRelease), None) else (g.(phase := Finished), Some(true))
    else if g.phase.FinalRelease? && g.lastLevel.Released? && stable >= RELEASE_MS then
      (g.(phase := Finished), Some(true))
    else (g, None)
  }

  /** The gate as the program keeps it. */
  class PresenceGate {
    var phase: Phase
    const deadline: u64
    var lastPoll: u64
    var lastLevel: Level
    var since: u64
    const pressMs: nat
    const longHold: bool

    ghost function State(): Gate
      reads this
    {
      Gate(phase, deadline, lastPoll, lastLevel, since, pressMs, longHold)
    }

    constructor (now: u64, timeout: u64, longHold: bool)
      ensures State() == New(now, timeout, longHold)
    {
      phase, deadline := InitialRelease, Min(now + timeout, U64_MAX);
      lastPoll, lastLevel, since := now, Uncertain, now;
      pressMs, this.longHold := if longHold then 5_000 else 30, longHold;
    }

    method Poll(sample: Option<Level>, now: u64, cancelled: bool) returns (answer: Option<bool>)
      modifies this
      ensures (State(), answer) == Step(old(State()), Input(sample, now, cancelled))
    {
      if cancelled || now < lastPoll || now >= deadline || phase == Finished {
        phase := Finished;
        return Some(false);
      }
      lastPoll := now;
      if sample.None? {
        return None;
      }
      var level := sample.value;
      if level == Fault {
        phase := Finished;
        return Some(false);
      }
      if level != lastLevel {
        lastLevel, since := level, now;
      }
      if level == Uncertain {
        if phase == FinalRelease {
          phase := InitialRelease;
        }
        return None;
      }
      var stable := SaturatingSub(now, since);
      if phase == InitialRelease && level == Released && stable >= RELEASE_MS {
        phase := AwaitPress;
      } else if phase == AwaitPress && level == Pressed && stable >= pressMs {
        if longHold {
          phase := FinalRelease;
        } else {
          phase := Finished;
          return Some(true);
        }
      } else if phase == FinalRelease && level == Released && stable >= RELEASE_MS {
        phase := Finished;
        return Some(true);
      }
      return None;
    }
  }

  // ---- Traces ----

  /** From poll `i` to poll `j` every sample reads `level`; both ends have one, at least `ms` apart. */
  predicate Steady(polls: seq<Input>, level: Level, i: int, j: int, ms: nat) {
    && 0 <= i <= j < |polls|
    && polls[i].sample == Some(level) && polls[j].sample == Some(level)
    && (forall k :: i <= k <= j && polls[k].sample.Some? ==> polls[k].sample.value == level)
    && polls[j].now >= polls[i].now + ms
  }

  /** Nothing went wrong: no cancellation, no fault, no clock running backwards, no poll at or after the deadline. */
  predicate Orderly(g: Gate, polls: seq<Input>) {
    forall i :: 0 <= i < |polls| ==> InOrder(g, polls, i)
  }

  predicate InOrder(g: Gate, polls: seq<Input>, i: nat)
    requires i < |polls|
  {
    && !polls[i].cancelled && polls[i].sample != Some(Fault) && polls[i].now < g.deadline
    && polls[i].now >= if i == 0 then g.lastPoll else polls[i - 1].now
  }

  /** Where the parts of a gesture are: release a0..a1, press b0..b1, final release c0.. */
  datatype Parts = Parts(a0: int, a1: int, b0: int, b1: int, start: int)

  predicate ReleasedFirst(polls: seq<Input>, w: Parts) {
    Steady(polls, Released, w.a0, w.a1, 30)
  }

  predicate PressedThen(g: Gate, polls: seq<Input>, w: Parts) {
    ReleasedFirst(polls, w) && w.a1 < w.b0 && Steady(polls, Pressed, w.b0, w.b1, g.pressMs)
  }

  /** From poll `i` on, no sample was uncertain. */
  predicate NoDoubtSince(polls: seq<Input>, i: int) {
    forall k :: 0 <= i <= k < |polls| ==> polls[k].sample != Some(Uncertain)
  }

  /** A complete gesture that ends with the last poll. */
  predicate Gesture(g: Gate, polls: seq<Input>, w: Parts) {
    && Orderly(g, polls)
    && if g.longHold then
         && PressedThen(g, polls, w) && w.b1 < w.start && Steady(polls, Released, w.start, |polls| - 1, 30)
         && NoDoubtSince(polls, w.b1)
       else
         ReleasedFirst(polls, w) && w.a1 < w.start && Steady(polls, Pressed, w.start, |polls| - 1, g.pressMs)
  }

  /** The samples from poll `start` on all read the last level, and `start` is when it began. */
  predicate RunSince(h: Gate, polls: seq<Input>, start: int) {
    && 0 <= start < |polls| && polls[start].sample == Some(h.lastLevel) && polls[start].now == h.since
    && forall k :: start <= k < |polls| && polls[k].sample.Some? ==> polls[k].sample.value == h.lastLevel
  }

  /** Between polls a gate never waits for the final release on an uncertain level. */
  predicate Resting(h: Gate) {
    h.phase.FinalRelease? ==> !h.lastLevel.Uncertain?
  }

  /** What an unfinished gate knows about the polls so far. */
  predicate Explains(g: Gate, polls: seq<Input>, h: Gate, w: Parts) {
    && h.deadline == g.deadline && h.pressMs == g.pressMs && h.longHold == g.longHold
    && (!h.phase.Finished? ==>
          && Orderly(g, polls)
          && h.since <= h.lastPoll == (if polls == [] then g.lastPoll else polls[|polls| - 1].now)
          && (RunSince(h, polls, w.start) || h.lastLevel.Uncertain?)
          && (h.phase.AwaitPress? ==>
                ReleasedFirst(polls, w) && (h.lastLevel.Pressed? ==> w.a1 < w.start))
          && (h.phase.FinalRelease? ==>
                && g.longHold && PressedThen(g, polls, w) && (h.lastLevel.Released? ==> w.b1 < w.start)
                && (h.lastLevel.Uncertain? || NoDoubtSince(polls, w.b1))))
  }

  lemma OrderlyGrows(g: Gate, polls: seq<Input>, p: Input)
    requires Orderly(g, polls) && !p.cancelled && p.sample != Some(Fault) && p.now < g.deadline
    requires p.now >= if polls == [] then g.lastPoll else polls[|polls| - 1].now
    ensures Orderly(g, polls + [p])
  {
    var all := polls + [p];
    forall i | 0 <= i < |all| ensures InOrder(g, all, i) {
      if i < |polls| { assert InOrder(g, polls, i); }
      if i > 0 { assert all[i - 1] == polls[i - 1]; }
    }
  }

  /** A steady stretch is still one when more polls follow. */
  lemma SteadyStays(polls: seq<Input>, p: Input, level: Level, i: int, j: int, ms: nat)
    requires Steady(polls, level, i, j, ms)
    ensures Steady(polls + [p], level, i, j, ms)
  {
  }

  /** A poll that is neither refused nor a fault, before it is judged. */
  lemma ExplainNoted(g: Gate, polls: seq<Input>, h: Gate, w: Parts, p: Input) returns (v: Parts)
    requires Explains(g, polls, h, w) && !h.phase.Finished? && Resting(h)
    requires !p.cancelled && h.lastPoll <= p.now < h.deadline && p.sample != Some(Fault)
    ensures var k := h.(lastPoll := p.now);
            Explains(g, polls + [p], if p.sample.None? then k else Noted(k, p.sample.value, p.now), v)
  {
    v := if p.sample.Some? && p.sample.value != h.lastLevel then w.(start := |polls|) else w;
    OrderlyGrows(g, polls, p);
    hide Orderly;
    if h.phase.AwaitPress? || h.phase.FinalRelease? { SteadyStays(polls, p, Released, w.a0, w.a1, 30); }
    if h.phase.FinalRelease? { SteadyStays(polls, p, Pressed, w.b0, w.b1, g.pressMs); }
    hide Steady;
  }

  /** Judging the level of the last poll. */
  lemma ExplainJudged(g: Gate, polls: seq<Input>, h: Gate, w: Parts) returns (v: Parts)
    requires Explains(g, polls, h, w) && !h.phase.Finished?
    requires polls != [] && polls[|polls| - 1].sample == Some(h.lastLevel)
    ensures Explains(g, polls, Judge(h, h.lastPoll).0, v) && Resting(Judge(h, h.lastPoll).0)
    ensures Judge(h, h.lastPoll).1 == Some(true) ==> Gesture(g, polls, v)
  {
    hide Orderly;
    var n := |polls| - 1;
    v := w;
    if h.phase.InitialRelease? { v := v.(a0 := w.start, a1 := n); }
    if h.phase.AwaitPress? && h.lastLevel.Pressed? { v := v.(b0 := w.start, b1 := n); }
  }

  lemma ExplainStep(g: Gate, polls: seq<Input>, h: Gate, w: Parts, p: Input) returns (v: Parts)
    requires Explains(g, polls, h, w) && Resting(h)
    ensures Explains(g, polls + [p], Step(h, p).0, v) && Resting(Step(h, p).0)
    ensures Step(h, p).1 == Some(true) ==> Gesture(g, polls + [p], v)
  {
    v := w;
    if !(p.cancelled || p.now < h.lastPoll || p.now >= h.deadline || h.phase.Finished? || p.sample == Some(Fault)) {
      v := ExplainNoted(g, polls, h, w, p);
      if p.sample.Some? {
        hide Noted, Judge, Orderly, RunSince, ReleasedFirst, PressedThen, Gesture;
        var k := Noted(h.(lastPoll := p.now), p.sample.value, p.now);
        NotedFields(h.(lastPoll := p.now), p.sample.value, p.now);
        v := ExplainJudged(g, polls + [p], k, v);
      }
    }
  }

  lemma NotedFields(h: Gate, level: Level, now: u64)
    ensures var k := Noted(h, level, now); k.lastLevel == level && k.lastPoll == h.lastPoll && k.phase == h.phase
  {
  }

  lemma {:induction false} Explain(g: Gate, polls: seq<Input>) returns (w: Parts)
    requires g.phase.InitialRelease? && g.lastLevel.Uncertain? && g.since <= g.lastPoll
    ensures Explains(g, polls, After(Step, g, polls).0, w) && Resting(After(Step, g, polls).0)
    ensures After(Step, g, polls).1 == Some(true) ==> Gesture(g, polls, w)
    decreases |polls|
  {
    if polls == [] {
      w := Parts(0, 0, 0, 0, 0);
    } else {
      var n := |polls| - 1;
      var v := Explain(g, polls[..n]);
      w := ExplainStep(g, polls[..n], After(Step, g, polls[..n]).0, v, polls[n]);
      assert polls[..n] + [polls[n]] == polls;
    }
  }

  /**
   * Soundness over all traces: an approval means that the polls held, in this order, a stable release of 30 ms, a fresh
   * uninterrupted press of 30 ms, or five seconds for the long form, and for the long form a stable final release
   * ending with that very poll and no uncertain sample since the press; all before the deadline and with no
   * cancellation, fault or clock step backwards.
   */
  lemma ApprovalProvesGesture(now: u64, timeout: u64, longHold: bool, polls: seq<Input>) returns (w: Parts)
    requires After(Step, New(now, timeout, longHold), polls).1 == Some(true)
    ensures Gesture(New(now, timeout, longHold), polls, w)
    ensures Steady(polls, Released, w.a0, w.a1, 30) && w.a1 < if longHold then w.b0 else w.start
    ensures longHold ==> Steady(polls, Pressed, w.b0, w.b1, 5_000) && w.b1 < w.start
    ensures Steady(polls, if longHold then Released else Pressed, w.start, |polls| - 1, 30)
    ensures forall i :: 0 <= i < |polls| ==> now <= polls[i].now < now + timeout && !polls[i].cancelled
  {
    NeverEarly(New(now, timeout, longHold), polls);
    w := Explain(New(now, timeout, longHold), polls);
  }

  lemma {:induction false} NeverEarlier(g: Gate, polls: seq<Input>, i: nat)
    requires Orderly(g, polls) && i < |polls|
    ensures polls[i].now >= g.lastPoll
  {
    assert InOrder(g, polls, i);
    if i > 0 { NeverEarlier(g, polls, i - 1); }
  }

  /** In an orderly run no poll is before the gate was made, cancelled, or at or after the deadline. */
  lemma NeverEarly(g: Gate, polls: seq<Input>)
    ensures Orderly(g, polls) ==>
              forall i :: 0 <= i < |polls| ==> g.lastPoll <= polls[i].now < g.deadline && !polls[i].cancelled
  {
    if Orderly(g, polls) {
      forall i | 0 <= i < |polls| ensures g.lastPoll <= polls[i].now < g.deadline && !polls[i].cancelled {
        NeverEarlier(g, polls, i);
        assert InOrder(g, polls, i);
      }
    }
  }

  /** A cancelled poll, a fault, a clock that runs back and a poll at the deadline end the gate at once. */
  lemma RefusedAtOnce(g: Gate, p: Input)
    requires !g.phase.Finished?
    ensures p.cancelled || p.sample == Some(Fault) || p.now < g.lastPoll || p.now >= g.deadline <==>
            Step(g, p).1 == Some(false)
    ensures Step(g, p).1 == Some(false) ==> Step(g, p).0.phase.Finished?
  {
  }

  /** One shot: after any verdict, no later poll ever approves again. */
  lemma OneShot(g: Gate, polls: seq<Input>, i: nat)
    requires 0 < i < |polls| && After(Step, g, polls[..i]).1.Some?
    ensures After(Step, g, polls).1 == Some(false) && After(Step, g, polls).0.phase.Finished?
  {
    NothingAfterVerdict(Step, (h: Gate) => h.phase.Finished?, g, polls, i);
  }

  // ---- Completeness ----

  /** A stretch of polls whose samples, where there are any, all read `level`; in time order, before the deadline. */
  predicate Clean(polls: seq<Input>, level: Level, from: u64, deadline: u64) {
    && polls != []
    && (forall i :: 0 <= i < |polls| ==>
          && (polls[i].sample == None || polls[i].sample == Some(level))
          && !polls[i].cancelled && from <= polls[i].now < deadline)
    && (forall i, j :: 0 <= i < j < |polls| ==> polls[i].now <= polls[j].now)
  }

  /** When the first and the last sample of a stretch were taken. */
  datatype Span = Span(first: u64, last: u64)

  function Sampled(polls: seq<Input>): Option<Span> {
    if polls == [] then None
    else
      var before, p := Sampled(polls[..|polls| - 1]), polls[|polls| - 1];
      if p.sample.None? then before else Some(Span(if before.Some? then before.value.first else p.now, p.now))
  }

  function Last(polls: seq<Input>): Input
    requires polls != []
  {
    polls[|polls| - 1]
  }

  /** What a clean stretch does to a gate that saw another level before it. */
  function Threshold(g: Gate): nat {
    if g.phase.AwaitPress? then g.pressMs else 30
  }

  /** The level that moves the gate on. */
  function Awaited(g: Gate): Level {
    if g.phase.AwaitPress? then Pressed else Released
  }

  /** What a stretch whose samples were taken in `span` has made of the gate `g`: `h`, with that last answer. */
  predicate MovedOn(g: Gate, span: Option<Span>, now: u64, h: Gate, answer: Option<bool>, approved: bool) {
    if span.None? then h == g.(lastPoll := now) && answer.None?
    else
      var first, last := span.value.first, span.value.last;
      var long := last - first >= Threshold(g);
      && h.deadline == g.deadline && h.pressMs == g.pressMs && h.longHold == g.longHold
      && first <= last <= now
      && (!h.phase.Finished? ==> h.lastPoll == now && h.lastLevel == Awaited(g) && h.since == first)
      && (!long ==> h.phase == g.phase && answer.None?)
      && (long && g.phase.InitialRelease? ==> h.phase.AwaitPress? && answer.None?)
      && (long && g.phase.AwaitPress? && g.longHold ==> h.phase.FinalRelease? && answer.None?)
      && (long && (g.phase.FinalRelease? || (g.phase.AwaitPress? && !g.longHold)) ==> approved)
  }

  /** One more clean poll. */
  lemma OneMore(g: Gate, span: Option<Span>, now: u64, h: Gate, answer: Option<bool>, approved: bool, p: Input)
    requires !g.phase.Finished? && g.lastLevel != Awaited(g) && MovedOn(g, span, now, h, answer, approved)
    requires p.sample == None || p.sample == Some(Awaited(g))
    requires !p.cancelled && now <= p.now < g.deadline
    ensures var next := if p.sample.None? then span else Some(Span(if span.Some? then span.value.first else p.now, p.now));
            MovedOn(g, next, p.now, Step(h, p).0, Step(h, p).1, approved || Step(h, p).1 == Some(true))
  {
  }

  /**
   * A clean stretch of the awaited level, with or without polls that bring no sample, keeps the phase until its
   * samples span the required time, and then moves it on for good.
   */
  lemma {:induction false} StretchMovesOn(g: Gate, polls: seq<Input>)
    requires !g.phase.Finished? && Clean(polls, Awaited(g), g.lastPoll, g.deadline) && g.lastLevel != Awaited(g)
    ensures var (h, answer) := After(Step, g, polls);
            MovedOn(g, Sampled(polls), Last(polls).now, h, answer, EverApproved(Step, g, polls))
    decreases |polls|
  {
    hide Step, MovedOn;
    var n := |polls| - 1;
    var before := polls[..n];
    if n == 0 {
      NotMovedYet(g);
      OneMore(g, None, g.lastPoll, g, None, false, polls[0]);
      assert After(Step, g, before) == (g, None);
    } else {
      StretchMovesOn(g, before);
      var (h, answer) := After(Step, g, before);
      OneMore(g, Sampled(before), Last(before).now, h, answer, EverApproved(Step, g, before), polls[n]);
    }
  }

  lemma NotMovedYet(g: Gate)
    ensures MovedOn(g, None, g.lastPoll, g, None, false)
  {
  }

  /** What samples in `span`, all at a level that is not awaited, have made of the gate: `h`. */
  predicate Unmoved(g: Gate, span: Option<Span>, now: u64, level: Level, h: Gate) {
    if span.None? then h == g.(lastPoll := now)
    else
      h == g.(lastPoll := now, lastLevel := level, since := if g.lastLevel == level then g.since else span.value.first,
              phase := if g.phase.FinalRelease? && level.Uncertain? then InitialRelease else g.phase)
  }

  lemma OtherOne(g: Gate, span: Option<Span>, now: u64, level: Level, h: Gate, p: Input)
    requires !g.phase.Finished? && level != Awaited(g) && level != Fault && Unmoved(g, span, now, level, h)
    requires p.sample == None || p.sample == Some(level)
    requires !p.cancelled && now <= p.now < g.deadline
    ensures var next := if p.sample.None? then span else Some(Span(if span.Some? then span.value.first else p.now, p.now));
            Unmoved(g, next, p.now, level, Step(h, p).0) && Step(h, p).1 == None
  {
  }

  /**
   * What a stretch at a level that is not awaited does, exactly: nothing but to be remembered, except that doubt
   * during the final release starts the whole gesture over.
   */
  lemma {:induction false} OtherStretch(g: Gate, polls: seq<Input>, level: Level)
    requires !g.phase.Finished? && level != Awaited(g) && level != Fault
    requires Clean(polls, level, g.lastPoll, g.deadline)
    ensures var (h, answer) := After(Step, g, polls);
            answer == None && Unmoved(g, Sampled(polls), Last(polls).now, level, h)
    decreases |polls|
  {
    hide Step, Unmoved;
    var n := |polls| - 1;
    var before := polls[..n];
    if n == 0 {
      NothingSeen(g, level);
      OtherOne(g, None, g.lastPoll, level, g, polls[0]);
      assert After(Step, g, before) == (g, None);
    } else {
      OtherStretch(g, before, level);
      OtherOne(g, Sampled(before), Last(before).now, level, After(Step, g, before).0, polls[n]);
    }
  }

  lemma NothingSeen(g: Gate, level: Level)
    ensures Unmoved(g, None, g.lastPoll, level, g)
  {
  }

  predicate LongEnough(polls: seq<Input>, ms: nat) {
    Sampled(polls).Some? && Sampled(polls).value.last - Sampled(polls).value.first >= ms
  }

  /**
   * Completeness: a clean gesture whose samples span the required times is approved, by the end of it. A short-form
   * gate approves during the press; a long-form one during the final release.
   */
  lemma CleanGestureApproved(now: u64, timeout: u64, longHold: bool, r: seq<Input>, p: seq<Input>, f: seq<Input>)
    requires var deadline := Min(now + timeout, 0xffff_ffff_ffff_ffff);
             && Clean(r, Released, now, deadline) && LongEnough(r, 30)
             && Clean(p, Pressed, Last(r).now, deadline) && LongEnough(p, if longHold then 5_000 else 30)
             && (longHold ==> Clean(f, Released, Last(p).now, deadline) && LongEnough(f, 30))
    ensures var g := New(now, timeout, longHold);
            var polls := if longHold then r + p + f else r + p;
            EverApproved(Step, g, polls)
  {
    var g := New(now, timeout, longHold);
    StretchMovesOn(g, r);
    var g1 := After(Step, g, r).0;
    StretchMovesOn(g1, p);
    if longHold {
      AfterAppend(Step, g, r, p);
      var g2 := After(Step, g, r + p).0;
      StretchMovesOn(g2, f);
      ApprovedIn(Step, g, r + p, f);
    } else {
      ApprovedIn(Step, g, r, p);
    }
  }
}
