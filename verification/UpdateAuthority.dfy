/**
 * Who authorized each change to flash, and when.
 *
 * `Watch` is a monitor that reads nothing but the log of hardware calls, clock readings and button
 * presses. The theorem is that it never objects, in any run.
 */
module UpdateAuthority {
  import opened Words
  import opened Crc
  import opened OtaMetadata
  import opened FlashBackend
  import opened SignedImage
  import opened UsbUpdate
  import opened UpdateSoundness
  import opened VendorCommands
  import opened UpdateRuns

  datatype Monitor = Monitor(
    approved: bool,  // the button was pressed for the request in hand
    starting: bool,  // and a BEGIN has used that press up
    startReading: u64,
    open: bool,
    started: u64,    // when the open session started
    progress: u64,   // its last successful work
    last: u64,       // the last clock reading made for it
    checked: bool,   // that reading came after the last change to flash
    late: bool,      // a reading went backwards or past a deadline
    spent: bool,     // activation was already called
    ok: bool
  )
  {
    predicate Allows() { open && checked && !late && !spent }
  }

  const QUIET := Monitor(false, false, 0, false, 0, 0, 0, false, false, false, true)

  function Observe(m: Monitor, e: Event): Monitor {
    match e
    case Received => m.(approved := false, starting := false)
    case Approved => m.(approved := true)
    case StartClock(now) => m.(ok := m.ok && m.approved, approved := false, starting := true, startReading := now)
    case Opened(_) =>
      m.(ok := m.ok && m.starting, starting := false, open := true, started := m.startReading,
         progress := m.startReading, last := m.startReading, checked := false, late := false, spent := false)
    case Clock(now) =>
      m.(late := m.late || now < m.last || now - m.started >= SESSION_MAX_LIFETIME_MS
                 || now - m.progress >= SESSION_IDLE_TIMEOUT_MS,
         last := now, checked := true)
    case Progress(_) => m.(progress := m.last)
    case EraseCall(_, _, _) => m.(ok := m.ok && m.Allows(), checked := false)
    case WriteCall(_, _, _) => m.(ok := m.ok && m.Allows(), checked := false)
    case ActivateCall(_, _, _) => m.(ok := m.ok && m.Allows(), checked := false, spent := true)
  }

  function Watch(log: seq<Event>): Monitor {
    if log == [] then QUIET else Observe(Watch(log[..|log| - 1]), log[|log| - 1])
  }

  lemma WatchNext(log: seq<Event>, e: Event)
    ensures Watch(log + [e]) == Observe(Watch(log), e)
  {
    assert (log + [e])[..|log|] == log;
  }

  /** The monitor and a live session agree about the clock, and the session may still change flash. */
  predicate Linked(m: Monitor, s: Session) {
    && m.open && !m.late && !m.spent
    && m.started == s.startedMs && m.progress == s.lastProgressMs && m.last == s.lastCheckedMs
    && s.startedMs <= s.lastProgressMs <= s.lastCheckedMs
  }

  predicate Authorized(b: Backend, u: Updater) {
    Watch(b.log).ok && (u.session.Some? && u.session.value.phase.Live() ==> Linked(Watch(b.log), u.session.value))
  }

  lemma CheckAuthorized(b: Backend, s: Session)
    requires Watch(b.log).ok && (s.phase.Live() ==> Linked(Watch(b.log), s))
    ensures var (b1, s1, expired) := Check(b, s);
            && Watch(b1.log).ok
            && (s1.phase.Live() ==> Linked(Watch(b1.log), s1))
            && (s.phase.Live() && !expired ==> s1.phase == s.phase && Watch(b1.log).checked)
            && (!s.phase.Live() ==> s1 == s)
            && (expired ==> !s1.phase.Live())
            && Watch(b1.log).starting == Watch(b.log).starting
            && Watch(b1.log).approved == Watch(b.log).approved
            && s1.lastProgressMs == s.lastProgressMs && s1.id == s.id
  {
    hide Watch;
    WatchNext(b.log, Clock(b.Answered().now));
  }

  lemma ProgressedAuthorized(b: Backend, u: Updater, s: Session)
    requires Watch(b.log).ok && s.phase.Live() && Linked(Watch(b.log), s)
    ensures var o := Progressed(b, u, s);
            Authorized(o.b, o.u) && o.u.session.Some?
            && (o.status == Done || (o.status == SessionExpired && o.u.session.value.lastProgressMs == s.lastProgressMs))
  {
    hide Watch, Check;
    var now := b.Answered().now;
    WatchNext(b.log, Clock(now));
    WatchNext(b.log + [Clock(now)], Progress(s.id));
  }

  /** A session that a press has paid for starts out linked. */
  lemma OpenedLinked(log: seq<Event>, s: Session, started: u64)
    requires Watch(log).ok && Watch(log).starting && Watch(log).startReading == started
    requires s.startedMs == s.lastProgressMs == s.lastCheckedMs == started
    ensures Watch(log + [Opened(s.id)]).ok && Linked(Watch(log + [Opened(s.id)]), s)
  {
    hide Watch;
    WatchNext(log, Opened(s.id));
  }

  lemma OpenAuthorized(b: Backend, u: Updater, request: Bytes, started: u64, layout: UpdateLayout)
    requires BeginRefusal(u, request).None? && Authorized(b, u)
    requires Watch(b.log).starting && Watch(b.log).startReading == started
    ensures var o := OpenSession(b, u, request, started, layout);
            Authorized(o.b, o.u)
  {
    hide Watch, BeginRefusal, NextSequence, Progressed, Linked, Observe;
    if layout.activeSlot <= 1 && layout.activationEntry <= 1 {
      var sequence := NextSequence(layout.activeSequence, 1 - layout.activeSlot);
      if sequence.Some? {
        var s := OpenedSession(u, request, started, layout, sequence.value);
        OpenedLinked(b.log, s, started);
        ProgressedAuthorized(b.Logged(Opened(s.id)), u.(nextSessionId := NextSessionId(u.nextSessionId)).With(s), s);
      }
    }
  }

  lemma BeginAuthorized(b: Backend, u: Updater, request: Bytes, userPresent: bool)
    requires Authorized(b, u) && (userPresent ==> Watch(b.log).approved)
    ensures var o := DoBegin(b, u, request, userPresent);
            Authorized(o.b, o.u)
  {
    hide Watch, ReadLayout, BeginRefusal, OpenSession, Linked, Observe;
    if BeginRefusal(u, request).None? && userPresent {
      var (started, b1) := ReadStartClock(b);
      WatchNext(b.log, StartClock(started));
      StartKeepsLink(Watch(b.log), u, started);
      var (layout, b2) := ReadLayout(b1);
      ReadLayoutFaithful(b1);
      if layout.Some? { OpenAuthorized(b2, u, request, started, layout.value); }
    }
  }

  lemma StartKeepsLink(m: Monitor, u: Updater, started: u64)
    ensures u.session.Some? ==> Linked(Observe(m, StartClock(started)), u.session.value) == Linked(m, u.session.value)
    ensures var n := Observe(m, StartClock(started));
            n.ok == (m.ok && m.approved) && n.starting && n.startReading == started
  {
  }

  /** A write or an erase that the monitor allows leaves it silent and linked. */
  lemma MutationAuthorized(log: seq<Event>, s: Session, e: Event)
    requires Watch(log).ok && Watch(log).checked && Linked(Watch(log), s) && (e.WriteCall? || e.EraseCall?)
    ensures Watch(log + [e]).ok && Linked(Watch(log + [e]), s)
  {
    hide Watch;
    WatchNext(log, e);
  }

  lemma WriteAuthorized(b: Backend, u: Updater, request: Bytes)
    requires Authorized(b, u)
    ensures var o := DoWrite(b, u, request);
            Authorized(o.b, o.u)
            && (o.status != Done && u.session.Some? ==>
                  o.u.session.Some? && o.u.session.value.lastProgressMs == u.session.value.lastProgressMs)
  {
    hide Watch, Progressed, Check, Linked, SetSlot, FromLe32;
    if u.session.Some? {
      var (b1, s, expired) := Check(b, u.session.value);
      CheckAuthorized(b, u.session.value);
      if |request| >= 9 && !expired && s.phase == Receiving {
        var offset, data := FromLe32(request[4..8]), request[8..];
        MutationAuthorized(b1.log, s, WriteCall(s.targetSlot, offset, |data|));
        var (ok, b2) := WriteSlot(b1, s.targetSlot, offset, data);
        var s1 := s.(completed := offset + |data|);
        SameLink(Watch(b2.log), s, s1);
        ProgressedAuthorized(b2, u.With(s1), s1);
      }
    }
  }

  lemma SameLink(m: Monitor, s: Session, s1: Session)
    requires s1.startedMs == s.startedMs && s1.lastProgressMs == s.lastProgressMs && s1.lastCheckedMs == s.lastCheckedMs
    ensures Linked(m, s1) == Linked(m, s)
  {
  }

  lemma EraseAuthorized(b: Backend, u: Updater, s: Session)
    requires s.phase == Erasing && s.completed <= s.total
    requires Watch(b.log).ok && Watch(b.log).checked && Linked(Watch(b.log), s)
    ensures var o := DoErase(b, u, s);
            Authorized(o.b, o.u) && o.u.session.Some?
            && (o.status != Done ==> o.u.session.value.lastProgressMs == s.lastProgressMs)
  {
    hide Watch, Progressed;
    var length := Min(s.total - s.completed, ERASE_STEP_SIZE);
    WatchNext(b.log, EraseCall(s.targetSlot, s.completed, length));
    var (ok, b1) := EraseSlot(b, s.targetSlot, s.completed, length);
    var s1 := if s.completed + length == s.total then s.(completed := 0, phase := Receiving)
              else s.(completed := s.completed + length);
    ProgressedAuthorized(b1, u.With(s1), s1);
  }

  lemma {:induction false} VerifyChunksAuthorized(b: Backend, s: Session, stepEnd: nat)
    requires Watch(b.log).ok && s.phase == Verifying && Linked(Watch(b.log), s)
    ensures var (b1, s1, stopped) := VerifyChunks(b, s, stepEnd);
            && Watch(b1.log).ok && (s1.phase.Live() ==> Linked(Watch(b1.log), s1))
            && (stopped.None? ==> s1.phase == Verifying)
            && (stopped.Some? ==> stopped.value != Done)
            && s1.lastProgressMs == s.lastProgressMs
    decreases stepEnd - s.completed
  {
    hide Watch, Check;
    if s.completed < stepEnd {
      var (b1, s1, stopped) := VerifyChunk(b, s, stepEnd);
      CheckAuthorized(b, s);
      if stopped.None? {
        VerifyChunksAuthorized(b1, s1, stepEnd);
      }
    }
  }

  lemma ActivateAuthorized(b: Backend, u: Updater, s: Session)
    requires Watch(b.log).ok && s.phase == Verifying && Linked(Watch(b.log), s)
    ensures var o := DoActivate(b, u, s);
            Authorized(o.b, o.u) && o.u.session.Some? && o.u.session.value.lastProgressMs == s.lastProgressMs
  {
    hide Watch, Check, ReadLayout, OtaCrc;
    var (layout, b1) := ReadLayout(b);
    ReadLayoutFaithful(b);
    var (b2, s2, expired) := Check(b1, s);
    CheckAuthorized(b1, s);
    var e := ActivateCall(s2.targetSlot, s2.targetSequence, s2.layout.activationEntry);
    WatchNext(b2.log, e);
    ReadLayoutFaithful(b2.Logged(e));
  }

  lemma FinishAuthorized(b: Backend, u: Updater, s: Session, c: Crypto)
    requires s.total >= SIGNATURE_SECTOR_SIZE * 2
    requires Watch(b.log).ok && s.phase == Verifying && Linked(Watch(b.log), s)
    ensures var o := DoFinish(b, u, s, c);
            Authorized(o.b, o.u) && o.u.session.Some? && o.u.session.value.lastProgressMs == s.lastProgressMs
  {
    hide Watch, DoActivate, ParseSignatureBlock, ParseImageMetadata, ReadSlot, VerifyRsaPss, DescriptorVerdict;
    var (descriptor, b1) := ReadSlot(b, s.targetSlot, 0, APP_DESCRIPTOR_PREFIX_SIZE);
    ReadKeeps(b, s.targetSlot, 0, APP_DESCRIPTOR_PREFIX_SIZE);
    var (block, b2) := ReadSlot(b1, s.targetSlot, s.total - SIGNATURE_SECTOR_SIZE, SIGNATURE_BLOCK_SIZE);
    ReadKeeps(b1, s.targetSlot, s.total - SIGNATURE_SECTOR_SIZE, SIGNATURE_BLOCK_SIZE);
    if block.Some? && ParseSignatureBlock(block.value, u.trustedKeyDigest, c).Some? {
      var p := ParseSignatureBlock(block.value, u.trustedKeyDigest, c).value;
      var (_, b3) := VerifyRsaPss(b2, c, p.publicKey, p.signature, c.sha(s.signedHasher));
      VerifyKeeps(b2, c, p.publicKey, p.signature, c.sha(s.signedHasher));
      ActivateAuthorized(b3, u, s);
    }
  }

  lemma VerifyAuthorized(b: Backend, u: Updater, s: Session, c: Crypto)
    requires s.total >= SIGNATURE_SECTOR_SIZE * 2
    requires Watch(b.log).ok && s.phase == Verifying && Linked(Watch(b.log), s)
    ensures var o := DoVerify(b, u, s, c);
            Authorized(o.b, o.u) && o.u.session.Some?
            && (o.status != Done ==> o.u.session.value.lastProgressMs == s.lastProgressMs)
  {
    hide Watch, Check, VerifyChunks, DoFinish, Progressed;
    var stepEnd := Min(s.completed + VERIFY_STEP_SIZE, s.total);
    var (b1, s1, stopped) := VerifyChunks(b, s, stepEnd);
    VerifyChunksAuthorized(b, s, stepEnd);
    if stopped.None? {
      var (b2, s2, expired) := Check(b1, s1);
      CheckAuthorized(b1, s1);
      if !expired {
        if s2.completed != s2.total {
          ProgressedAuthorized(b2, u.With(s2), s2);
        } else {
          FinishAuthorized(b2, u.With(s2), s2, c);
        }
      }
    }
  }

  lemma AdvanceAuthorized(b: Backend, u: Updater, request: Bytes, c: Crypto)
    requires SessionFits(u) && Authorized(b, u)
    ensures var o := DoAdvance(b, u, request, c);
            Authorized(o.b, o.u)
            && (o.status != Done && u.session.Some? ==>
                  o.u.session.Some? && o.u.session.value.lastProgressMs == u.session.value.lastProgressMs)
  {
    hide Watch, Check, DoVerify, DoErase;
    if u.session.Some? {
      var (b1, s, expired) := Check(b, u.session.value);
      CheckAuthorized(b, u.session.value);
      if !expired && s.phase == Erasing {
        EraseAuthorized(b1, u.With(s), s);
      } else if !expired && (s.phase == Verifying || (s.phase == Receiving && s.completed == s.total)) {
        var s1 := if s.phase == Verifying then s
                  else s.(phase := Verifying, completed := 0, fullHasher := [], signedHasher := []);
        VerifyAuthorized(b1, u.With(s1), s1, c);
      }
    }
  }

  lemma HandleInnerAuthorized(b: Backend, u: Updater, request: Bytes, userPresent: bool, c: Crypto)
    requires SessionFits(u) && Authorized(b, u) && (userPresent ==> Watch(b.log).approved)
    ensures var o := HandleInner(b, u, request, userPresent, c);
            Authorized(o.b, o.u)
  {
    hide Watch, DoBegin, DoWrite, DoAdvance, Linked;
    if request != [] && ParseOperation(request[0]).Some? {
      match ParseOperation(request[0]).value
      case Begin => BeginAuthorized(b, u, request[1..], userPresent);
      case Write => WriteAuthorized(b, u, request[1..]);
      case Advance => AdvanceAuthorized(b, u, request[1..], c);
      case Info =>
      case Status =>
      case Abort =>
    }
  }

  lemma PollAuthorized(b: Backend, u: Updater)
    requires Authorized(b, u)
    ensures var (b1, u1) := PollStep(b, u);
            Authorized(b1, u1) && Watch(b1.log).approved == Watch(b.log).approved
            && (u.session.Some? ==>
                  u1.session.Some? && u1.session.value.lastProgressMs == u.session.value.lastProgressMs
                  && u1.session.value.id == u.session.value.id)
            && (u.session.None? ==> u1 == u)
  {
    hide Watch, Check;
    if u.session.Some? { CheckAuthorized(b, u.session.value); }
  }

  lemma HandleAuthorized(b: Backend, u: Updater, request: Bytes, userPresent: bool, c: Crypto)
    requires Sound(b, u) && Authorized(b, u) && (userPresent ==> Watch(b.log).approved)
    ensures SessionFits(u)
    ensures var o := Handle(b, u, request, userPresent, c);
            Authorized(o.b, o.u)
  {
    hide Watch, HandleInner, PollStep, Authorized, HashersAgree, LayoutOf;
    HandleEffect(b, u, request, userPresent, c);
    var (b1, u1) := PollStep(b, u);
    PollAuthorized(b, u);
    PollOk(b, u);
    HandleInnerAuthorized(b1, u1, request, userPresent, c);
  }

  /** A BEGIN that opens no session changes nothing of the updater. */
  lemma BeginOpensOrKeeps(b: Backend, u: Updater, request: Bytes, userPresent: bool)
    ensures var o := DoBegin(b, u, request, userPresent);
            o.u == u || o.u.nextSessionId != u.nextSessionId
  {
    hide ReadLayout, NextSequence, BeginRefusal;
  }

  /** The operations that may move the idle deadline, or end the session, when they succeed. */
  predicate MayExtend(request: Bytes) {
    request != [] && ParseOperation(request[0]) in {Some(Write), Some(Advance), Some(Abort)}
  }

  /**
   * Nothing but successful erase, write or verification work moves the idle deadline. A poll does
   * not, and neither does any request, empty and refused ones included, that opens no new session
   * (the session counter tells) and is not a successful WRITE or ADVANCE; only ABORT takes the session away.
   */
  lemma OnlySuccessExtends(b: Backend, u: Updater, request: Bytes, userPresent: bool, c: Crypto)
    requires Sound(b, u) && Authorized(b, u) && (userPresent ==> Watch(b.log).approved) && u.session.Some?
    ensures SessionFits(u)
    ensures var u1 := PollStep(b, u).1;
            u1.session.Some? && u1.session.value.lastProgressMs == u.session.value.lastProgressMs
    ensures var o := Handle(b, u, request, userPresent, c);
            o.u.nextSessionId == u.nextSessionId && !(o.status == Done && MayExtend(request)) ==>
              o.u.session.Some? && o.u.session.value.lastProgressMs == u.session.value.lastProgressMs
  {
    hide Watch, PollStep, DoWrite, DoAdvance, Authorized, HashersAgree, LayoutOf, DoBegin;
    var (b1, u1) := PollStep(b, u);
    PollAuthorized(b, u);
    PollOk(b, u);
    PollKeepsCounter(b, u);
    if request != [] {
      var operation := ParseOperation(request[0]);
      if operation == Some(Write) {
        WriteAuthorized(b1, u1, request[1..]);
      } else if operation == Some(Advance) {
        AdvanceAuthorized(b1, u1, request[1..], c);
      } else if operation == Some(Begin) {
        BeginOpensOrKeeps(b1, u1, request[1..], userPresent);
      }
    }
  }

  lemma PollKeepsCounter(b: Backend, u: Updater)
    ensures PollStep(b, u).1.nextSessionId == u.nextSessionId
  {
  }

  /** A request or a press changes nothing of what a session may do. */
  lemma NoteAuthorized(b: Backend, u: Updater, e: Event)
    requires Authorized(b, u) && (e.Received? || e.Approved?)
    ensures Authorized(b.Logged(e), u) && (e.Approved? ==> Watch(b.Logged(e).log).approved)
  {
    hide Watch;
    WatchNext(b.log, e);
  }

  lemma DispatchAuthorized(w: World, request: Bytes, others: Others, c: Crypto)
    requires Safe(w, c) && Authorized(w.b, w.u)
    ensures var v := Act(w, Serve(request, others), c);
            Authorized(v.b, v.u)
  {
    hide Watch, Handle, Settled, OnTrial, EncodeResponse, HashersAgree, LayoutOf, Effect, Sound, Linked, Authorized;
    NoteAuthorized(w.b, w.u, Received);
    LogKeepsSound(w.b, w.u, Received);
    var b0 := w.b.Logged(Received);
    HandleAuthorized(b0, w.u, request, false, c);
    HandleEffect(b0, w.u, request, false, c);
    var first := FirstReply(b0, w.u, request, others, c);
    NoteAuthorized(first.b, first.u, Approved);
    LogKeepsSound(first.b, first.u, Approved);
    HandleAuthorized(first.b.Logged(Approved), first.u, request, true, c);
  }

  lemma BootloaderLog(b: Backend)
    ensures Bootloader(b).log == b.log
  {
    hide OtaCrc, ActiveEntry;
  }

  lemma ActAuthorized(w: World, a: Action, c: Crypto)
    requires Safe(w, c) && Authorized(w.b, w.u)
    ensures var v := Act(w, a, c);
            Authorized(v.b, v.u)
  {
    hide Watch, Settled, OnTrial, MayRaise, ConfirmRunningImage, Bootloader, DispatchReply, Linked, PollStep, Sound;
    match a
    case Serve(request, others) => DispatchAuthorized(w, request, others, c);
    case Tick => PollAuthorized(w.b, w.u);
    case Confirm => ConfirmFlash(w.b, w.u.currentVersion, w.u.currentSecureVersion);
    case Boot(_, _, _) => BootloaderLog(w.b);
    case Raise(_, _, _, _, _) =>
  }

  lemma {:induction false} RunAuthorized(w: World, actions: seq<Action>, c: Crypto)
    requires Safe(w, c) && Authorized(w.b, w.u)
    ensures var v := Run(w, actions, c);
            Authorized(v.b, v.u)
    decreases |actions|
  {
    hide Settled, OnTrial, Sound, Act, Authorized;
    if actions != [] {
      ActKeepsSafe(w, actions[0], c);
      ActAuthorized(w, actions[0], c);
      RunAuthorized(Act(w, actions[0], c), actions[1..], c);
    }
  }

  // What the monitor's silence means, without the monitor.

  datatype Kind = KReceived | KClock | KStart | KApproved | KOpened | KProgress | KMutation | KActivate

  predicate Is(e: Event, k: Kind) {
    match k
    case KReceived => e.Received?
    case KClock => e.Clock?
    case KStart => e.StartClock?
    case KApproved => e.Approved?
    case KOpened => e.Opened?
    case KProgress => e.Progress?
    case KMutation => e.Mutation()
    case KActivate => e.ActivateCall?
  }

  /** Where the log last shows an event of this kind, or -1. */
  function LastAt(log: seq<Event>, k: Kind): (i: int)
    ensures -1 <= i < |log|
    ensures i >= 0 ==> Is(log[i], k)
    ensures forall j :: i < j < |log| ==> !Is(log[j], k)
  {
    if log == [] then -1
    else if Is(log[|log| - 1], k) then |log| - 1
    else LastAt(log[..|log| - 1], k)
  }

  /** The BEGIN that opened the session in force, and the press that BEGIN used up. */
  predicate OpenedByPress(log: seq<Event>) {
    var open := LastAt(log, KOpened);
    open >= 0 &&
    var start := LastAt(log[..open], KStart);
    start >= 0 &&
    var press := LastAt(log[..start], KApproved);
    press >= 0 && LastAt(log[..open], KReceived) < press
  }

  function StartReading(log: seq<Event>): u64
    requires OpenedByPress(log)
  {
    log[LastAt(log[..LastAt(log, KOpened)], KStart)].now
  }

  /** The last reading made for the session in force, or its start. */
  function LastReading(log: seq<Event>): u64
    requires OpenedByPress(log)
  {
    var read := LastAt(log, KClock);
    if read > LastAt(log, KOpened) then log[read].now else StartReading(log)
  }

  /** The reading at which the session in force last made progress, or its start. */
  function ProgressReading(log: seq<Event>): u64
    requires OpenedByPress(log)
  {
    var progress := LastAt(log, KProgress);
    if progress <= LastAt(log, KOpened) then StartReading(log) else
    var read := LastAt(log[..progress], KClock);
    if read > LastAt(log, KOpened) then log[read].now else StartReading(log)
  }

  /** No reading made for the session in force is earlier than the one before it. */
  predicate NeverBack(log: seq<Event>) {
    forall i, j :: LastAt(log, KOpened) < i < j < |log| && log[i].Clock? && log[j].Clock? ==> log[i].now <= log[j].now
  }

  /** Every reading made for the session in force was within the idle time of the progress before it. */
  predicate NeverIdle(log: seq<Event>)
    requires OpenedByPress(log)
  {
    forall i :: LastAt(log, KOpened) < i < |log| && log[i].Clock? ==> InIdleTime(log, i)
  }

  predicate InIdleTime(log: seq<Event>, i: nat)
    requires i < |log| && log[i].Clock?
  {
    OpenedByPress(log[..i]) && log[i].now < ProgressReading(log[..i]) + 120_000
  }

  /**
   * After `log`, the next call may change flash: a session is in force that a press opened; it has
   * not been activated; the clock was read after the last change; since the session's start the clock
   * has never run back or passed the idle time of the last progress, and it is within the lifetime.
   */
  predicate MayChangeFlash(log: seq<Event>) {
    && OpenedByPress(log)
    && NeverBack(log) && NeverIdle(log)
    && LastAt(log, KActivate) < LastAt(log, KOpened)
    && LastAt(log, KMutation) < LastAt(log, KClock)
    && LastAt(log, KOpened) < LastAt(log, KClock)
    && StartReading(log) <= LastReading(log) < StartReading(log) + 900_000
    && LastReading(log) < ProgressReading(log) + 120_000
  }

  predicate MeansApproved(m: Monitor, log: seq<Event>) {
    m.approved ==> LastAt(log, KReceived) < LastAt(log, KApproved)
  }

  predicate MeansStarting(m: Monitor, log: seq<Event>) {
    m.starting ==>
      var start := LastAt(log, KStart);
      start >= 0 && log[start].now == m.startReading && LastAt(log, KReceived) < LastAt(log[..start], KApproved)
  }

  predicate MeansOpen(m: Monitor, log: seq<Event>) {
    m.open ==>
      && OpenedByPress(log)
      && m.started == StartReading(log) && m.last == LastReading(log) && m.progress == ProgressReading(log)
      && (m.checked ==> LastAt(log, KMutation) < LastAt(log, KClock) && LastAt(log, KOpened) < LastAt(log, KClock))
      && (!m.spent ==> LastAt(log, KActivate) < LastAt(log, KOpened))
      && (!m.late ==> m.started <= m.last < m.started + SESSION_MAX_LIFETIME_MS
                      && m.last < m.progress + SESSION_IDLE_TIMEOUT_MS
                      && NeverBack(log) && NeverIdle(log))
  }

  predicate Means(m: Monitor, log: seq<Event>) {
    MeansApproved(m, log) && MeansStarting(m, log) && MeansOpen(m, log)
  }

  lemma LastNext(log: seq<Event>, e: Event)
    ensures forall k :: LastAt(log + [e], k) == if Is(e, k) then |log| else LastAt(log, k)
  {
    assert (log + [e])[..|log|] == log;
  }

  lemma LastOf(log: seq<Event>, e: Event, k: Kind)
    ensures LastAt(log + [e], k) == if Is(e, k) then |log| else LastAt(log, k)
  {
    LastNext(log, e);
  }

  lemma PrefixOfNext(log: seq<Event>, e: Event)
    ensures forall i :: 0 <= i <= |log| ==> (log + [e])[..i] == log[..i]
    ensures forall i :: 0 <= i < |log| ==> (log + [e])[i] == log[i]
  {
  }

  /** The opening of a session, its start reading included, is not changed by later events. */
  lemma OpeningStays(log: seq<Event>, e: Event)
    requires !e.Opened?
    ensures OpenedByPress(log + [e]) == OpenedByPress(log)
    ensures OpenedByPress(log) ==> StartReading(log + [e]) == StartReading(log)
  {
    LastNext(log, e);
    PrefixOfNext(log, e);
  }

  lemma ReadingsNext(log: seq<Event>, e: Event)
    requires !e.Opened? && OpenedByPress(log)
    ensures OpenedByPress(log + [e])
    ensures LastReading(log + [e]) == if e.Clock? then e.now else LastReading(log)
    ensures ProgressReading(log + [e]) == if e.Progress? then LastReading(log) else ProgressReading(log)
  {
    OpeningStays(log, e);
    LastNext(log, e);
    PrefixOfNext(log, e);
    assert (log + [e])[..|log|] == log;
  }

  lemma StartingNext(m: Monitor, log: seq<Event>, e: Event)
    requires Means(m, log) && Observe(m, e).ok
    ensures MeansApproved(Observe(m, e), log + [e]) && MeansStarting(Observe(m, e), log + [e])
  {
    hide OpenedByPress, MeansOpen, LastAt;
    LastNext(log, e);
    PrefixOfNext(log, e);
  }

  lemma OpenedNext(m: Monitor, log: seq<Event>, e: Event)
    requires Means(m, log) && Observe(m, e).ok && e.Opened?
    ensures MeansOpen(Observe(m, e), log + [e])
  {
    hide LastAt, InIdleTime;
    LastNext(log, e);
    PrefixOfNext(log, e);
    assert (log + [e])[..|log|] == log;
  }

  /** A reading that is not earlier than the last one keeps the readings in order. */
  lemma NeverBackNext(log: seq<Event>, e: Event)
    requires OpenedByPress(log) && NeverBack(log) && !e.Opened?
    requires e.Clock? ==> LastReading(log) <= e.now
    ensures NeverBack(log + [e])
  {
    LastOf(log, e, KOpened);
    PrefixOfNext(log, e);
    var next := log + [e];
    forall i, j | LastAt(next, KOpened) < i < j < |next| && next[i].Clock? && next[j].Clock?
      ensures next[i].now <= next[j].now
    {
      if j == |log| {
        var read := LastAt(log, KClock);
        assert i <= read;
        assert i < read ==> log[i].now <= log[read].now;
      }
    }
  }

  /** A reading in the idle time of the last progress keeps every reading so. */
  lemma NeverIdleNext(log: seq<Event>, e: Event)
    requires OpenedByPress(log) && NeverIdle(log) && !e.Opened? && OpenedByPress(log + [e])
    requires e.Clock? ==> e.now < ProgressReading(log) + SESSION_IDLE_TIMEOUT_MS
    ensures NeverIdle(log + [e])
  {
    hide ProgressReading, OpenedByPress;
    LastOf(log, e, KOpened);
    PrefixOfNext(log, e);
    var next := log + [e];
    forall i | LastAt(next, KOpened) < i < |next| && next[i].Clock? ensures InIdleTime(next, i) {
      assert next[..i] == log[..i];
      if i < |log| {
        assert InIdleTime(log, i);
      } else {
        assert log[..i] == log;
      }
    }
  }

  lemma OpenNext(m: Monitor, log: seq<Event>, e: Event)
    requires Means(m, log) && !e.Opened?
    ensures MeansOpen(Observe(m, e), log + [e])
  {
    hide OpenedByPress, LastReading, ProgressReading, StartReading, LastAt, MeansApproved, MeansStarting;
    hide NeverBack, NeverIdle;
    LastOf(log, e, KMutation);
    LastOf(log, e, KClock);
    LastOf(log, e, KOpened);
    LastOf(log, e, KActivate);
    if m.open {
      OpeningStays(log, e);
      ReadingsNext(log, e);
      if !Observe(m, e).late {
        NeverBackNext(log, e);
        NeverIdleNext(log, e);
      }
    }
  }

  lemma {:induction false} WatchMeans(log: seq<Event>)
    requires Watch(log).ok
    ensures Means(Watch(log), log)
    decreases |log|
  {
    hide MeansApproved, MeansStarting, MeansOpen;
    if log == [] {
      QuietMeans();
    } else {
      var before, e := log[..|log| - 1], log[|log| - 1];
      assert log == before + [e];
      OkBefore(Watch(before), e);
      WatchMeans(before);
      StartingNext(Watch(before), before, e);
      if e.Opened? { OpenedNext(Watch(before), before, e); } else { OpenNext(Watch(before), before, e); }
    }
  }

  lemma QuietMeans()
    ensures Means(QUIET, [])
  {
  }

  /** The monitor never forgives. */
  lemma OkBefore(m: Monitor, e: Event)
    requires Observe(m, e).ok
    ensures m.ok
  {
  }

  lemma {:induction false} EverythingBeforeWasOk(log: seq<Event>, n: nat)
    requires Watch(log).ok && n <= |log|
    ensures Watch(log[..n]).ok
    decreases |log| - n
  {
    hide Observe;
    if n < |log| {
      EverythingBeforeWasOk(log, n + 1);
      assert log[..n + 1][..n] == log[..n];
      OkBefore(Watch(log[..n]), log[n]);
    } else {
      assert log[..n] == log;
    }
  }

  /**
   * The authority theorem. In every run, each erase, write and activation call was allowed by what
   * the log shows before it.
   */
  lemma EveryMutationAuthorized(w: World, actions: seq<Action>, c: Crypto, n: nat)
    requires Fresh(w) && w.b.log == []
    ensures Safe(w, c)
    ensures var log := Run(w, actions, c).b.log;
            n < |log| && log[n].Mutation() ==> MayChangeFlash(log[..n])
  {
    hide Settled, OnTrial, Sound, Run, Means, MayChangeFlash;
    FreshIsSafe(w, c);
    RunAuthorized(w, actions, c);
    var log := Run(w, actions, c).b.log;
    if n < |log| && log[n].Mutation() {
      AllowedMeansMayChange(log, n);
    }
  }

  lemma AllowedMeansMayChange(log: seq<Event>, n: nat)
    requires Watch(log).ok && n < |log| && log[n].Mutation()
    ensures MayChangeFlash(log[..n])
  {
    hide Watch, MeansApproved, MeansStarting, LastAt, OpenedByPress, StartReading, LastReading, ProgressReading;
    hide NeverBack, NeverIdle;
    EverythingBeforeWasOk(log, n + 1);
    assert log[..n + 1] == log[..n] + [log[n]];
    WatchNext(log[..n], log[n]);
    OkBefore(Watch(log[..n]), log[n]);
    WatchMeans(log[..n]);
  }

  /** A clock that runs back once ends the authority for good, even if the last reading is after the start. */
  lemma RunningBackEndsAuthority()
    ensures !MayChangeFlash([Received, Approved, StartClock(5), Opened(1), Clock(10), Clock(20), Clock(15)])
  {
    var log := [Received, Approved, StartClock(5), Opened(1), Clock(10), Clock(20), Clock(15)];
    assert log[5].Clock? && log[6].Clock? && log[6].now < log[5].now;
    assert LastAt(log, KOpened) <= 3 by {
      assert !Is(log[4], KOpened) && !Is(log[5], KOpened) && !Is(log[6], KOpened);
    }
  }
}
