/** What a session has been through, whatever the hardware does: the log shows which bytes it erased and wrote. */
module UpdateCoverage {
  import opened Words
  import opened Crc
  import opened OtaMetadata
  import opened FlashBackend
  import opened SignedImage
  import opened UsbUpdate
  import opened UpdateSoundness
  import opened VendorCommands
  import opened UpdateRuns
  import opened UpdateAuthority

  /** A call of this kind, made since the last session was opened, had byte `x` of the slot in its range. */
  predicate Touched(log: seq<Event>, erase: bool, slot: byte, x: nat) {
    exists i :: LastAt(log, KOpened) < i < |log| && Touches(log[i], erase, slot, x)
  }

  predicate Touches(e: Event, erase: bool, slot: byte, x: nat) {
    if erase then e.EraseCall? && e.slot == slot && e.offset <= x < e.offset + e.length
    else e.WriteCall? && e.slot == slot && e.offset <= x < e.offset + e.length
  }

  predicate TouchedTo(log: seq<Event>, erase: bool, slot: byte, n: nat) {
    forall x :: 0 <= x < n ==> Touched(log, erase, slot, x)
  }

  /** Everything before the phase's counter is done, and everything of the phases before it. */
  predicate Covers(log: seq<Event>, s: Session) {
    && (s.phase.Erasing? ==> TouchedTo(log, true, s.targetSlot, s.completed))
    && (s.phase.Receiving? || s.phase.Verifying? || s.phase.Activated? ==> TouchedTo(log, true, s.targetSlot, s.total))
    && (s.phase.Receiving? ==> TouchedTo(log, false, s.targetSlot, s.completed))
    && (s.phase.Verifying? || s.phase.Activated? ==> TouchedTo(log, false, s.targetSlot, s.total))
  }

  predicate Covered(b: Backend, u: Updater) {
    u.session.Some? ==> Covers(b.log, u.session.value)
  }

  /** The log has grown, and no session was opened meanwhile. */
  predicate Since(log: seq<Event>, later: seq<Event>) {
    log <= later && forall i :: |log| <= i < |later| ==> !later[i].Opened?
  }

  lemma SinceNext(log: seq<Event>, later: seq<Event>, e: Event)
    requires Since(log, later) && !e.Opened?
    ensures Since(log, later + [e])
  {
  }

  lemma SinceTwice(a: seq<Event>, b: seq<Event>, c: seq<Event>)
    requires Since(a, b) && Since(b, c)
    ensures Since(a, c)
  {
    forall i | |a| <= i < |c| ensures !c[i].Opened? {
      if i < |b| { assert c[i] == b[i]; }
    }
  }

  lemma {:induction false} OpeningStands(log: seq<Event>, later: seq<Event>)
    requires Since(log, later)
    ensures LastAt(later, KOpened) == LastAt(log, KOpened)
    decreases |later|
  {
    if |later| > |log| {
      OpeningStands(log, later[..|later| - 1]);
    } else {
      assert later == log;
    }
  }

  lemma TouchedStays(log: seq<Event>, later: seq<Event>, erase: bool, slot: byte, n: nat)
    requires Since(log, later) && TouchedTo(log, erase, slot, n)
    ensures TouchedTo(later, erase, slot, n)
  {
    hide LastAt;
    OpeningStands(log, later);
    forall x | 0 <= x < n ensures Touched(later, erase, slot, x) {
      assert Touched(log, erase, slot, x);
      var i :| LastAt(log, KOpened) < i < |log| && Touches(log[i], erase, slot, x);
      assert later[i] == log[i];
    }
  }

  /** One more call covers its own range. */
  lemma TouchedFurther(log: seq<Event>, e: Event, erase: bool, n: nat, m: nat)
    requires e.EraseCall? == erase && e.WriteCall? == !erase
    requires TouchedTo(log, erase, e.slot, n) && e.offset == n && m <= n + e.length
    ensures TouchedTo(log + [e], erase, e.slot, m)
  {
    hide LastAt;
    TouchedStays(log, log + [e], erase, e.slot, n);
    OpeningStands(log, log + [e]);
    forall x | n <= x < m ensures Touched(log + [e], erase, e.slot, x) {
      assert Touches((log + [e])[|log|], erase, e.slot, x);
    }
  }

  lemma CoversStays(log: seq<Event>, later: seq<Event>, s: Session, t: Session)
    requires Since(log, later) && Covers(log, s) && t.targetSlot == s.targetSlot && t.total == s.total
    requires t.phase.Failed? || (t.phase == s.phase && t.completed == s.completed)
    ensures Covers(later, t)
  {
    hide TouchedTo;
    forall erase, n: nat | TouchedTo(log, erase, s.targetSlot, n) ensures TouchedTo(later, erase, s.targetSlot, n) {
      TouchedStays(log, later, erase, s.targetSlot, n);
    }
  }

  // Each handler.

  lemma CheckSince(b: Backend, s: Session)
    ensures var (b1, s1, expired) := Check(b, s);
            && Since(b.log, b1.log) && s1.targetSlot == s.targetSlot && s1.total == s.total && s1.completed == s.completed
            && (s1.phase.Failed? || s1.phase == s.phase) && (expired ==> !s1.phase.Live())
            && (!expired ==> s1.phase == s.phase)
  {
  }

  lemma CheckCovers(b: Backend, s: Session)
    requires Covers(b.log, s)
    ensures Covers(Check(b, s).0.log, Check(b, s).1)
  {
    hide Covers, Since, Check;
    CheckSince(b, s);
    CoversStays(b.log, Check(b, s).0.log, s, Check(b, s).1);
  }

  lemma ProgressedCovers(b: Backend, u: Updater, s: Session)
    requires Covers(b.log, s)
    ensures var o := Progressed(b, u, s);
            Covered(o.b, o.u) && Since(b.log, o.b.log)
  {
    hide Covers;
    var o := Progressed(b, u, s);
    CoversStays(b.log, o.b.log, s, o.u.session.value);
  }

  lemma EraseCovers(b: Backend, u: Updater, s: Session)
    requires s.phase == Erasing && s.completed <= s.total && Covers(b.log, s)
    ensures var o := DoErase(b, u, s);
            Covered(o.b, o.u)
  {
    hide Progressed, TouchedTo;
    var length := Min(s.total - s.completed, ERASE_STEP_SIZE);
    var e := EraseCall(s.targetSlot, s.completed, length);
    TouchedFurther(b.log, e, true, s.completed, s.completed + length);
    NothingTouched(b.log + [e], s.targetSlot);
    var (ok, b1) := EraseSlot(b, s.targetSlot, s.completed, length);
    var s1 := if s.completed + length == s.total then s.(completed := 0, phase := Receiving)
              else s.(completed := s.completed + length);
    ProgressedCovers(b1, u.With(s1), s1);
  }

  lemma NothingTouched(log: seq<Event>, slot: byte)
    ensures TouchedTo(log, false, slot, 0) && TouchedTo(log, true, slot, 0)
  {
  }

  lemma WriteCovers(b: Backend, u: Updater, request: Bytes)
    requires Covered(b, u)
    ensures var o := DoWrite(b, u, request);
            Covered(o.b, o.u)
  {
    hide Progressed, Check, TouchedTo, FromLe32, SetSlot;
    if |request| >= 9 && u.session.Some? {
      var (b1, s, expired) := Check(b, u.session.value);
      CheckCovers(b, u.session.value);
      var offset, data := FromLe32(request[4..8]), request[8..];
      if s.phase == Receiving && offset == s.completed {
        var e := WriteCall(s.targetSlot, offset, |data|);
        TouchedFurther(b1.log, e, false, s.completed, s.completed + |data|);
        TouchedStays(b1.log, b1.log + [e], true, s.targetSlot, s.total);
        var (ok, b2) := WriteSlot(b1, s.targetSlot, offset, data);
        var s1 := s.(completed := offset + |data|);
        ProgressedCovers(b2, u.With(s1), s1);
      }
    }
  }

  lemma {:induction false} VerifyChunksSince(b: Backend, s: Session, stepEnd: nat)
    ensures var (b1, s1, stopped) := VerifyChunks(b, s, stepEnd);
            && Since(b.log, b1.log) && s1.targetSlot == s.targetSlot && s1.total == s.total
            && (s1.phase.Failed? || s1.phase == s.phase) && (stopped.None? ==> s1.phase == s.phase)
    decreases stepEnd - s.completed
  {
    hide Check, ReadSlot;
    if s.completed < stepEnd {
      CheckSince(b, s);
      var (b0, s0, _) := Check(b, s);
      var length := Min(stepEnd - s0.completed, VERIFY_CHUNK);
      ReadKeeps(b0, s0.targetSlot, s0.completed, length);
      var (b1, s1, stopped) := VerifyChunk(b, s, stepEnd);
      if stopped.None? {
        VerifyChunksSince(b1, s1, stepEnd);
        SinceTwice(b.log, b1.log, VerifyChunks(b1, s1, stepEnd).0.log);
      }
    }
  }

  lemma ActivateSince(b: Backend, u: Updater, s: Session)
    ensures var o := DoActivate(b, u, s);
            && Since(b.log, o.b.log) && o.u.session.Some?
            && o.u.session.value.targetSlot == s.targetSlot && o.u.session.value.total == s.total
            && (s.phase == Verifying ==> o.u.session.value.phase in {Verifying, Activated, Failed})
  {
    hide Check, ReadLayout, ReplaceChecked, OtaCrc;
    var (_, b1) := ReadLayout(b);
    ReadLayoutFaithful(b);
    var (b2, s2, _) := Check(b1, s);
    CheckSince(b1, s);
    var e := ActivateCall(s2.targetSlot, s2.targetSequence, s2.layout.activationEntry);
    SinceNext(b1.log, b2.log, e);
    ActivateLogs(b2, s2.targetSlot, s2.targetSequence, s2.layout.activationEntry);
  }

  lemma ActivateLogs(b: Backend, slot: byte, sequence: u32, entry: byte)
    ensures ActivateUpdate(b, slot, sequence, entry).1.log == b.log + [ActivateCall(slot, sequence, entry)]
  {
    hide OtaCrc, Decode;
  }

  lemma FinishSince(b: Backend, u: Updater, s: Session, c: Crypto)
    requires s.total >= SIGNATURE_SECTOR_SIZE * 2
    ensures var o := DoFinish(b, u, s, c);
            && Since(b.log, o.b.log) && o.u.session.Some?
            && o.u.session.value.targetSlot == s.targetSlot && o.u.session.value.total == s.total
            && (s.phase == Verifying ==> o.u.session.value.phase in {Verifying, Activated, Failed})
  {
    hide DoActivate, ParseSignatureBlock, ReadSlot, VerifyRsaPss, DescriptorVerdict;
    var (_, b1) := ReadSlot(b, s.targetSlot, 0, APP_DESCRIPTOR_PREFIX_SIZE);
    ReadKeeps(b, s.targetSlot, 0, APP_DESCRIPTOR_PREFIX_SIZE);
    var (block, b2) := ReadSlot(b1, s.targetSlot, s.total - SIGNATURE_SECTOR_SIZE, SIGNATURE_BLOCK_SIZE);
    ReadKeeps(b1, s.targetSlot, s.total - SIGNATURE_SECTOR_SIZE, SIGNATURE_BLOCK_SIZE);
    if block.Some? && ParseSignatureBlock(block.value, u.trustedKeyDigest, c).Some? {
      var p := ParseSignatureBlock(block.value, u.trustedKeyDigest, c).value;
      var (_, b3) := VerifyRsaPss(b2, c, p.publicKey, p.signature, c.sha(s.signedHasher));
      VerifyKeeps(b2, c, p.publicKey, p.signature, c.sha(s.signedHasher));
      ActivateSince(b3, u, s);
    }
  }

  /** Once everything is written, nothing that verification does changes what was covered. */
  lemma AllCovered(log: seq<Event>, later: seq<Event>, s: Session, t: Session)
    requires Since(log, later) && s.phase == Verifying && Covers(log, s)
    requires t.targetSlot == s.targetSlot && t.total == s.total && t.phase in {Verifying, Activated, Failed}
    ensures Covers(later, t)
  {
    hide TouchedTo;
    TouchedStays(log, later, true, s.targetSlot, s.total);
    TouchedStays(log, later, false, s.targetSlot, s.total);
  }

  lemma VerifyCovers(b: Backend, u: Updater, s: Session, c: Crypto)
    requires s.total >= SIGNATURE_SECTOR_SIZE * 2 && s.phase == Verifying && Covers(b.log, s)
    ensures var o := DoVerify(b, u, s, c);
            Covered(o.b, o.u)
  {
    hide Check, VerifyChunks, DoFinish, Progressed, Covers, Since;
    var stepEnd := Min(s.completed + VERIFY_STEP_SIZE, s.total);
    var (b1, s1, stopped) := VerifyChunks(b, s, stepEnd);
    VerifyChunksSince(b, s, stepEnd);
    AllCovered(b.log, b1.log, s, s1);
    if stopped.None? {
      var (b2, s2, expired) := Check(b1, s1);
      CheckCovers(b1, s1);
      CheckSince(b1, s1);
      if s2.completed != s2.total {
        ProgressedCovers(b2, u.With(s2), s2);
      } else if !expired && s2.phase == Verifying {
        FinishSince(b2, u.With(s2), s2, c);
        var o := DoFinish(b2, u.With(s2), s2, c);
        AllCovered(b2.log, o.b.log, s2, o.u.session.value);
      }
    }
  }

  lemma AdvanceCovers(b: Backend, u: Updater, request: Bytes, c: Crypto)
    requires SessionFits(u) && Covered(b, u)
    ensures var o := DoAdvance(b, u, request, c);
            Covered(o.b, o.u)
  {
    hide Check, DoVerify, DoErase, TouchedTo;
    if u.session.Some? {
      var (b1, s, expired) := Check(b, u.session.value);
      CheckCovers(b, u.session.value);
      CheckSince(b, u.session.value);
      if !expired && s.phase == Erasing {
        EraseCovers(b1, u.With(s), s);
      } else if !expired && (s.phase == Verifying || (s.phase == Receiving && s.completed == s.total)) {
        var s1 := if s.phase == Verifying then s
                  else s.(phase := Verifying, completed := 0, fullHasher := [], signedHasher := []);
        VerifyCovers(b1, u.With(s1), s1, c);
      }
    }
  }

  lemma BeginCovers(b: Backend, u: Updater, request: Bytes, userPresent: bool)
    requires Covered(b, u)
    ensures var o := DoBegin(b, u, request, userPresent);
            Covered(o.b, o.u)
  {
    hide ReadLayout, BeginRefusal, OpenSession, Covered;
    if BeginRefusal(u, request).None? && userPresent {
      var (started, b1) := ReadStartClock(b);
      NoteCovers(b, u, StartClock(started));
      var (layout, b2) := ReadLayout(b1);
      ReadLayoutFaithful(b1);
      SameLog(b.Logged(StartClock(started)), b2, u);
      if layout.Some? { OpenCovers(b2, u, request, started, layout.value); }
    }
  }

  lemma SameLog(b: Backend, b1: Backend, u: Updater)
    requires b1.log == b.log
    ensures Covered(b1, u) == Covered(b, u)
  {
    hide Covers;
  }

  lemma OpenCovers(b: Backend, u: Updater, request: Bytes, started: u64, layout: UpdateLayout)
    requires BeginRefusal(u, request).None? && Covered(b, u)
    ensures var o := OpenSession(b, u, request, started, layout);
            Covered(o.b, o.u)
  {
    hide BeginRefusal, NextSequence, Progressed, Covers;
    if layout.activeSlot <= 1 && layout.activationEntry <= 1 {
      var sequence := NextSequence(layout.activeSequence, 1 - layout.activeSlot);
      if sequence.Some? {
        var s := OpenedSession(u, request, started, layout, sequence.value);
        JustOpened(b.log + [Opened(s.id)], s);
        ProgressedCovers(b.Logged(Opened(s.id)), u.(nextSessionId := NextSessionId(u.nextSessionId)).With(s), s);
      }
    }
  }

  lemma JustOpened(log: seq<Event>, s: Session)
    requires s.phase == Erasing && s.completed == 0
    ensures Covers(log, s)
  {
  }

  lemma HandleCovers(b: Backend, u: Updater, request: Bytes, userPresent: bool, c: Crypto)
    requires Sound(b, u) && Covered(b, u)
    ensures SessionFits(u)
    ensures var o := Handle(b, u, request, userPresent, c);
            Covered(o.b, o.u)
  {
    hide PollStep, DoWrite, DoAdvance, DoBegin, HashersAgree, LayoutOf, Covers;
    var (b1, u1) := PollStep(b, u);
    PollOk(b, u);
    PollCovers(b, u);
    if request != [] && ParseOperation(request[0]).Some? {
      match ParseOperation(request[0]).value
      case Begin => BeginCovers(b1, u1, request[1..], userPresent);
      case Write => WriteCovers(b1, u1, request[1..]);
      case Advance => AdvanceCovers(b1, u1, request[1..], c);
      case Info =>
      case Status =>
      case Abort =>
    }
  }

  lemma PollCovers(b: Backend, u: Updater)
    requires Covered(b, u)
    ensures Covered(PollStep(b, u).0, PollStep(b, u).1)
  {
    hide Check, Covers;
    if u.session.Some? { CheckCovers(b, u.session.value); }
  }

  lemma NoteCovers(b: Backend, u: Updater, e: Event)
    requires Covered(b, u) && !e.Opened?
    ensures Covered(b.Logged(e), u)
  {
    hide Covers;
    SinceNext(b.log, b.log, e);
    if u.session.Some? { CoversStays(b.log, b.log + [e], u.session.value, u.session.value); }
  }

  lemma DispatchCovers(w: World, request: Bytes, others: Others, c: Crypto)
    requires Safe(w, c) && Covered(w.b, w.u)
    ensures var v := Act(w, Serve(request, others), c);
            Covered(v.b, v.u)
  {
    hide Handle, Settled, OnTrial, EncodeResponse, HashersAgree, LayoutOf, Effect, Sound, Covered;
    NoteCovers(w.b, w.u, Received);
    LogKeepsSound(w.b, w.u, Received);
    var b0 := w.b.Logged(Received);
    HandleCovers(b0, w.u, request, false, c);
    HandleEffect(b0, w.u, request, false, c);
    var first := FirstReply(b0, w.u, request, others, c);
    NoteCovers(first.b, first.u, Approved);
    LogKeepsSound(first.b, first.u, Approved);
    HandleCovers(first.b.Logged(Approved), first.u, request, true, c);
  }

  lemma ActCovers(w: World, a: Action, c: Crypto)
    requires Safe(w, c) && Covered(w.b, w.u)
    ensures var v := Act(w, a, c);
            Covered(v.b, v.u)
  {
    hide Covers, Settled, OnTrial, MayRaise, ConfirmRunningImage, Bootloader, DispatchReply, PollStep, Sound;
    match a
    case Serve(request, others) => DispatchCovers(w, request, others, c);
    case Tick => PollCovers(w.b, w.u);
    case Confirm => ConfirmFlash(w.b, w.u.currentVersion, w.u.currentSecureVersion);
    case Boot(_, _, _) => BootloaderLog(w.b);
    case Raise(_, _, _, _, _) =>
  }

  lemma {:induction false} RunCovers(w: World, actions: seq<Action>, c: Crypto)
    requires Safe(w, c) && Covered(w.b, w.u)
    ensures var v := Run(w, actions, c);
            Covered(v.b, v.u)
    decreases |actions|
  {
    hide Settled, OnTrial, Sound, Act, Covered;
    if actions != [] {
      ActKeepsSafe(w, actions[0], c);
      ActCovers(w, actions[0], c);
      RunCovers(Act(w, actions[0], c), actions[1..], c);
    }
  }

  /**
   * In every run, with any hardware: a session that takes data has had every byte of its target up to the image's
   * size in the range of an erase call made since it was opened, and one that verifies or has activated has had each of
   * them in the range of a write call as well.
   */
  lemma EraseThenWriteEverything(w: World, actions: seq<Action>, c: Crypto)
    requires Fresh(w)
    ensures Safe(w, c)
    ensures var v := Run(w, actions, c);
            v.u.session.Some? ==>
              var s := v.u.session.value;
              && (s.phase in {Receiving, Verifying, Activated} ==>
                    forall x :: 0 <= x < s.total ==> Touched(v.b.log, true, s.targetSlot, x))
              && (s.phase in {Verifying, Activated} ==>
                    forall x :: 0 <= x < s.total ==> Touched(v.b.log, false, s.targetSlot, x))
  {
    hide Run, Touched, Sound, Settled;
    FreshIsSafe(w, c);
    RunCovers(w, actions, c);
  }

  // Without the button.

  predicate Unpressed(actions: seq<Action>) {
    forall i :: 0 <= i < |actions| && actions[i].Serve? ==> !actions[i].others.pressed
  }

  /** Nobody can do anything to an idle updater without a press. */
  lemma IdleWithoutPress(b: Backend, u: Updater, request: Bytes, c: Crypto)
    requires u.session.None?
    ensures SessionFits(u)
    ensures var o := Handle(b, u, request, false, c);
            o.b.flash == b.flash && o.u == u
  {
  }

  lemma DispatchWithoutPress(w: World, request: Bytes, others: Others, c: Crypto)
    requires Safe(w, c) && w.u.session.None? && !others.pressed
    ensures var v := Act(w, Serve(request, others), c);
            v.u.session.None? && v.b.flash == w.b.flash
  {
    hide Handle, Settled, OnTrial, EncodeResponse, Sound;
    LogKeepsSound(w.b, w.u, Received);
    IdleWithoutPress(w.b.Logged(Received), w.u, request, c);
  }

  lemma ActWithoutPress(w: World, a: Action, c: Crypto)
    requires Safe(w, c) && w.u.session.None? && (a.Serve? ==> !a.others.pressed)
    ensures var v := Act(w, a, c);
            v.u.session.None? && v.b.flash.slots == w.b.flash.slots
  {
    hide Settled, TrialRecords, Authentic, MayRaise, ConfirmRunningImage, Bootloader, DispatchReply, Sound;
    match a
    case Serve(request, others) => DispatchWithoutPress(w, request, others, c);
    case Confirm => ConfirmFlash(w.b, w.u.currentVersion, w.u.currentSecureVersion);
    case Boot(_, _, _) => BootloaderKeeps(w.b, w.stable);
    case Tick =>
    case Raise(_, _, _, _, _) =>
  }

  /** No run in which the button is never pressed opens a session or changes a byte of either slot. */
  lemma {:induction false} NoPressNoUpdate(w: World, actions: seq<Action>, c: Crypto)
    requires Safe(w, c) && w.u.session.None? && Unpressed(actions)
    ensures var v := Run(w, actions, c);
            v.u.session.None? && v.b.flash.slots == w.b.flash.slots
    decreases |actions|
  {
    hide Settled, OnTrial, Sound, Act;
    if actions != [] {
      ActKeepsSafe(w, actions[0], c);
      ActWithoutPress(w, actions[0], c);
      NoPressNoUpdate(Act(w, actions[0], c), actions[1..], c);
    }
  }
}
