/** What every request of the update protocol is answered with, on the request's own bytes. */
module UpdateAnswers {
  import opened Words
  import opened Crc
  import opened OtaMetadata
  import opened FlashBackend
  import opened SignedImage
  import opened UsbUpdate
  import opened UpdateSoundness
  import opened VendorCommands

  // Before the clock is read.

  /** The request names the open session, in these four bytes. */
  function SessionRefusal(u: Updater, id: Bytes): Option<StatusCode>
    requires |id| == 4
  {
    if u.session.None? then Some(InvalidState)
    else if FromLe32(id) != u.session.value.id then Some(SessionMismatch)
    else None
  }

  predicate WellFormedBegin(r: Bytes) {
    |r| >= 43 && r[1] == 1 && |r| == 43 + r[42] as nat && 1 <= r[42] <= 31
  }

  function BeginRefused(u: Updater, r: Bytes, present: bool): Option<StatusCode> {
    if !WellFormedBegin(r) then Some(InvalidRequest)
    else if !(0x2000 <= FromLe32(r[2..6]) <= 0x1e_0000 && FromLe32(r[2..6]) % 0x1000 == 0) then Some(ImageSize)
    else if FromLe32(r[38..42]) < u.currentSecureVersion then Some(Rollback)
    else if !present then Some(UserPresenceRequired)
    else None
  }

  /** Why a request is turned away at the door. */
  function Refusal(u: Updater, r: Bytes, present: bool): Option<StatusCode> {
    if r == [] || r[0] > 5 then Some(InvalidRequest)
    else if r[0] == 0 then if |r| == 1 then None else Some(InvalidRequest)
    else if r[0] == 1 then BeginRefused(u, r, present)
    else if r[0] == 2 then if 10 <= |r| <= 1002 then SessionRefusal(u, r[1..5]) else Some(InvalidRequest)
    else if r[0] == 4 && |r| == 1 then None
    else if |r| != 5 then Some(InvalidRequest)
    else if SessionRefusal(u, r[1..5]).Some? then SessionRefusal(u, r[1..5])
    else if r[0] == 4 && u.session.value.phase == Failed then Some(u.session.value.failure)
    else if r[0] == 5 && u.session.value.phase == Activated then Some(InvalidState)
    else None
  }

  lemma Tail(r: Bytes)
    requires r != []
    ensures forall i, j :: 0 <= i <= j < |r| ==> r[1..][i..j] == r[i + 1..j + 1]
    ensures forall i :: 0 <= i < |r| ==> r[1..][i..] == r[i + 1..] && r[1..][..i] == r[1..i + 1]
    ensures |r| == 5 ==> r[1..] == r[1..5]
  {
  }

  /** A request that is turned away changes nothing at all, and gets exactly that answer. */
  lemma RefusedExactly(b: Backend, u: Updater, r: Bytes, present: bool, c: Crypto)
    requires SessionFits(u) && Refusal(u, r, present).Some?
    ensures HandleInner(b, u, r, present, c) == Outcome(b, u, Refusal(u, r, present).value)
  {
    hide DoErase, DoVerify, Check, OpenSession, ReadLayout, WriteSlot, Progressed, FromLe32;
    if r != [] { Tail(r); }
  }

  /** INFO and STATUS only report; a successful ABORT leaves no session and does nothing else. */
  lemma PlainAnswers(b: Backend, u: Updater, r: Bytes, present: bool, c: Crypto)
    requires SessionFits(u) && Refusal(u, r, present).None?
    ensures r[0] in {0, 4} ==> HandleInner(b, u, r, present, c) == Outcome(b, u, Done)
    ensures r[0] == 5 ==>
              && HandleInner(b, u, r, present, c) == Outcome(b, u.(session := None), Done)
              && u.session.Some? && u.session.value.id == FromLe32(r[1..5]) && u.session.value.phase != Activated
  {
    hide FromLe32;
    Tail(r);
  }

  // A BEGIN that the user approved.

  /** The session is for the image that the request describes, and goes to the slot that is not followed. */
  predicate OpensFor(u: Updater, r: Bytes, started: u64, layout: UpdateLayout, s: Session)
    requires |r| >= 43
  {
    && s.id == u.nextSessionId && s.startedMs == started && s.layout == layout
    && s.targetSlot == 1 - layout.activeSlot && s.targetSequence == layout.activeSequence + 1
    && s.total == FromLe32(r[2..6]) && s.expectedHash == r[6..38] && s.expectedSecureVersion == FromLe32(r[38..42])
    && s.expectedVersion == r[43..] && s.completed == 0
  }

  /** It opens a new session whenever the records can be read and offer an update, in place of any other session. */
  lemma BeginExactly(b: Backend, u: Updater, r: Bytes, c: Crypto)
    requires SessionFits(u) && Refusal(u, r, true).None? && r[0] == 1
    ensures var o := HandleInner(b, u, r, true, c);
            var layout := LayoutOf(b.flash.records, b.flash.running);
            && o.b.flash == b.flash
            && (layout.None? || !b.tape(b.pos + 1).ok || !b.tape(b.pos + 2).ok ==> o.u == u && o.status == FlashError)
            && (layout.Some? && b.tape(b.pos + 1).ok && b.tape(b.pos + 2).ok ==>
                  && o.u.session.Some? && OpensFor(u, r, b.tape(b.pos).now, layout.value, o.u.session.value)
                  && o.u == u.(session := o.u.session,
                               nextSessionId := if u.nextSessionId == 0xffff_ffff then 1 else u.nextSessionId + 1)
                  && (if o.status == Done then o.u.session.value.phase == Erasing
                      else o.status == SessionExpired && o.u.session.value.phase == Failed))
  {
    hide FromLe32, LayoutOf, ReadLayout, OpenSession;
    Tail(r);
    var (started, b1) := ReadStartClock(b);
    var (layout, b2) := ReadLayout(b1);
    LayoutRead(b1);
    if layout.Some? { OpensExactly(b2, u, r, started, layout.value, b.flash); }
  }

  lemma OpensExactly(b: Backend, u: Updater, r: Bytes, started: u64, layout: UpdateLayout, f: Flash)
    requires Refusal(u, r, true).None? && r != [] && r[0] == 1 && LayoutOf(f.records, f.running) == Some(layout)
    ensures BeginRefusal(u, r[1..]).None?
    ensures var o := OpenSession(b, u, r[1..], started, layout);
            && o.b.flash == b.flash && layout.activeSlot <= 1
            && o.u.session.Some? && OpensFor(u, r, started, layout, o.u.session.value)
            && o.u == u.(session := o.u.session,
                         nextSessionId := if u.nextSessionId == 0xffff_ffff then 1 else u.nextSessionId + 1)
            && (if o.status == Done then o.u.session.value.phase == Erasing
                else o.status == SessionExpired && o.u.session.value.phase == Failed)
  {
    hide FromLe32, UpdateLayoutFromEntries, NextSequence, Progressed, OpensFor, OpenedSession;
    Tail(r);
    LayoutShape(DecodeBoth(f.records), f.running);
    hide DecodeBoth;
    NextSequenceIsNext(layout);
    BeginIsPassed(u, r);
    var s := OpenedSession(u, r[1..], started, layout, layout.activeSequence + 1);
    OpenedFor(u, r, started, layout);
    var u1 := u.(nextSessionId := NextSessionId(u.nextSessionId)).With(s);
    ProgressedFields(b.Logged(Opened(s.id)), u1, s);
    SameOpening(u, r, started, layout, s, Progressed(b.Logged(Opened(s.id)), u1, s).u.session.value);
  }

  lemma BeginIsPassed(u: Updater, r: Bytes)
    requires Refusal(u, r, true).None? && r != [] && r[0] == 1
    ensures BeginRefusal(u, r[1..]).None?
  {
    hide FromLe32;
    Tail(r);
  }

  lemma OpenedFor(u: Updater, r: Bytes, started: u64, layout: UpdateLayout)
    requires |r| >= 43 && BeginRefusal(u, r[1..]).None? && layout.activeSlot <= 1 && layout.activeSequence < U32_MAX
    ensures var s := OpenedSession(u, r[1..], started, layout, layout.activeSequence + 1);
            OpensFor(u, r, started, layout, s) && s.phase == Erasing
  {
    hide FromLe32;
    Tail(r);
  }

  lemma ProgressedFields(b: Backend, u: Updater, s: Session)
    ensures var o := Progressed(b, u, s);
            && o.b.flash == b.flash && o.u.session.Some? && o.u == u.With(o.u.session.value)
            && SameClaim(s, o.u.session.value) && o.u.session.value.completed == s.completed
            && (s.phase == Erasing ==>
                  if o.status == Done then o.u.session.value.phase == Erasing
                  else o.status == SessionExpired && o.u.session.value.phase == Failed)
  {
  }

  lemma SameOpening(u: Updater, r: Bytes, started: u64, layout: UpdateLayout, s: Session, t: Session)
    requires |r| >= 43 && OpensFor(u, r, started, layout, s) && SameClaim(s, t) && t.completed == s.completed
    ensures OpensFor(u, r, started, layout, t)
  {
    hide FromLe32;
  }

  lemma LayoutRead(b: Backend)
    ensures var (l, b1) := ReadLayout(b);
            && b1.flash == b.flash
            && l == if b.tape(b.pos).ok && b.tape(b.pos + 1).ok then LayoutOf(b.flash.records, b.flash.running) else None
  {
    hide UpdateLayoutFromEntries;
  }

  // WRITE and ADVANCE, once the clock is read.

  /** The checks on the data, in order. */
  function WriteRefused(s: Session, r: Bytes): Option<StatusCode>
    requires |r| >= 9
  {
    if s.phase != Receiving then Some(InvalidState)
    else if (|r| - 9) % 32 != 0 then Some(InvalidRequest)
    else if FromLe32(r[5..9]) != s.completed then Some(OutOfOrder)
    else if s.completed + (|r| - 9) > s.total then Some(ImageSize)
    else None
  }

  /**
   * A WRITE in time is refused by these checks and then changes nothing but the reading; otherwise exactly its data
   * goes to exactly its place, and the session moves on by that much or fails.
   */
  lemma WriteExactly(b: Backend, u: Updater, r: Bytes, c: Crypto)
    requires SessionFits(u) && Refusal(u, r, true).None? && r[0] == 2
    ensures var o := HandleInner(b, u, r, true, c);
            var (b1, s, expired) := Check(b, u.session.value);
            var refused := WriteRefused(s, r);
            && (expired ==> o == Outcome(b1, u.With(s), SessionExpired))
            && (!expired && refused.Some? ==> o == Outcome(b1, u.With(s), refused.value))
            && (!expired && refused.None? ==>
                  var (ok, b2) := WriteSlot(b1, s.targetSlot, s.completed, r[9..]);
                  && o.b.flash == b2.flash
                  && (!ok ==> o.status == FlashError && o.u == u.With(s.(phase := Failed, failure := FlashError)))
                  && (ok && o.status == Done ==> o.u.session.value.completed == s.completed + (|r| - 9)
                                                 && o.u.session.value.phase == Receiving)
                  && (ok && o.status != Done ==> o.status == SessionExpired && o.u.session.value.phase == Failed))
  {
    hide FromLe32, WriteSlot, Check;
    Tail(r);
  }

  /** What an ADVANCE in time comes to outside of erasing and verifying. */
  lemma AdvanceExactly(b: Backend, u: Updater, r: Bytes, c: Crypto)
    requires SessionFits(u) && Refusal(u, r, true).None? && r[0] == 3
    ensures var o := HandleInner(b, u, r, true, c);
            var (b1, s, expired) := Check(b, u.session.value);
            && (expired ==> o == Outcome(b1, u.With(s), SessionExpired))
            && (!expired && s.phase == Receiving && s.completed != s.total ==> o == Outcome(b1, u.With(s), InvalidState))
            && (!expired && s.phase == Activated ==> o == Outcome(b1, u.With(s), Done))
            && (!expired && s.phase == Failed ==> o == Outcome(b1, u.With(s), s.failure))
  {
    hide FromLe32, DoErase, DoVerify, Check;
    Tail(r);
  }

  /** A session that is over answers with its failure and stays over; one that is live fails at either deadline. */
  lemma CheckExactly(b: Backend, s: Session)
    ensures var (b1, t, expired) := Check(b, s);
            var now := b.tape(b.pos).now;
            var late := now < s.lastCheckedMs || now >= s.startedMs + 900_000 || now >= s.lastProgressMs + 120_000;
            && b1.flash == b.flash && b1.pos == b.pos + 1
            && (!s.phase.Live() ==> t == s && expired == (s.failure == SessionExpired))
            && (s.phase.Live() ==> expired == late && t.lastCheckedMs == now)
            && (s.phase.Live() && !late ==> t == s.(lastCheckedMs := now))
            && (s.phase.Live() && late ==> t.phase == Failed && t.failure == SessionExpired && SameClaim(s, t))
  {
  }

  /** A session out of time is over with whatever request comes next, one that only asks how it is doing included. */
  lemma StatusExpires(b: Backend, u: Updater, r: Bytes, present: bool, c: Crypto)
    requires SessionFits(u) && u.session.Some? && |r| == 5 && r[0] == 4 && FromLe32(r[1..5]) == u.session.value.id
    ensures var o := Handle(b, u, r, present, c);
            var s, now := u.session.value, b.tape(b.pos).now;
            var late := now < s.lastCheckedMs || now >= s.startedMs + 900_000 || now >= s.lastProgressMs + 120_000;
            && o.b.flash == b.flash
            && (s.phase.Live() && late ==> o.status == SessionExpired && o.u.CurrentPhase() == Failed)
            && (s.phase.Live() && !late ==> o.status == Done && o.u == u.With(s.(lastCheckedMs := now)))
            && (!s.phase.Live() ==> o.u == u && o.status == if s.phase == Failed then s.failure else Done)
  {
    hide Check, FromLe32;
    Tail(r);
    CheckExactly(b, u.session.value);
  }

  // The verdict on an image that was read back.

  /** The checks on the bytes in flash, in order. */
  ghost function Verdict(slot: Slot, u: Updater, s: Session, c: Crypto): Option<StatusCode>
    requires 0x2000 <= s.total <= OTA_SLOT_SIZE
  {
    if c.sha(slot[..s.total]) != s.expectedHash then Some(HashMismatch)
    else if !exists m :: Describes(slot, m) then Some(BadSignatureStatus)
    else if FromLe32(slot[36..40]) < u.currentSecureVersion then Some(Rollback)
    else if !Describes(slot, ImageMetadata(s.expectedSecureVersion, s.expectedVersion)) then Some(VersionMismatch)
    else if !SignedBelow(slot, s.total - 0x1000, u.trustedKeyDigest, c) then Some(BadSignatureStatus)
    else None
  }

  lemma DescriptorExactly(slot: Slot, u: Updater, s: Session)
    ensures var v := DescriptorVerdict(u, s, slot[..APP_DESCRIPTOR_PREFIX_SIZE]);
            v == if !exists m :: Describes(slot, m) then Some(BadSignatureStatus)
                 else if FromLe32(slot[36..40]) < u.currentSecureVersion then Some(Rollback)
                 else if !Describes(slot, ImageMetadata(s.expectedSecureVersion, s.expectedVersion)) then Some(VersionMismatch)
                 else None
  {
    hide ParseImageMetadata, FromLe32;
    MetadataIsBytes(slot);
    var m := ParseImageMetadata(slot[..APP_DESCRIPTOR_PREFIX_SIZE]);
    if m.Some? { assert Describes(slot, m.value); }
  }

  /** With calls that work, verification fails with the first of these checks that fails, or goes on to activate. */
  lemma FinishExactly(b: Backend, u: Updater, s: Session, c: Crypto)
    requires u.session == Some(s) && SessionOk(s, b.flash) && s.phase == Verifying && s.completed == s.total
    requires Works(b.tape, b.pos, 3)
    ensures var o := DoFinish(b, u, s, c);
            var verdict := Verdict(b.flash.slots[s.targetSlot], u, s, c);
            && (verdict.Some? ==>
                  && o.b.flash == b.flash && o.b.log == b.log && o.status == verdict.value
                  && o.u == u.With(s.(phase := Failed, failure := verdict.value)))
            && (verdict.None? ==> o == DoActivate(b.Next().Next().Next(), u, s))
  {
    hide OtaCrc, DoActivate, DescriptorVerdict, LayoutOf, ParseSignatureBlock, SignedBelow, Describes, FromLe32;
    var slot := b.flash.slots[s.targetSlot];
    var limit := s.total - SIGNATURE_SECTOR_SIZE;
    DescriptorExactly(slot, u, s);
    AcceptedIsSigned(slot, limit, u.trustedKeyDigest, c);
    FirstThree(b);
    assert slot[0..APP_DESCRIPTOR_PREFIX_SIZE] == slot[..APP_DESCRIPTOR_PREFIX_SIZE];
    assert s.fullHasher == slot[..s.total] && s.signedHasher == slot[..limit];
  }

  lemma FirstThree(b: Backend)
    requires Works(b.tape, b.pos, 3)
    ensures b.Answered().ok && b.Next().Answered().ok && b.Next().Next().Answered().ok
  {
    assert b.tape(b.pos).ok && b.tape(b.pos + 1).ok && b.tape(b.pos + 2).ok;
  }

  /** Whatever the session believes, nothing is activated unless the records still offer the update it began with. */
  lemma ActivatesOnSameLayout(b: Backend, u: Updater, s: Session)
    ensures var o := DoActivate(b, u, s);
            && (Activations(o.b.log) != Activations(b.log) ==> LayoutOf(b.flash.records, b.flash.running) == Some(s.layout))
            && (b.tape(b.pos).ok && b.tape(b.pos + 1).ok && LayoutOf(b.flash.records, b.flash.running).Some?
                && LayoutOf(b.flash.records, b.flash.running) != Some(s.layout) ==>
                  o.status == ActiveSlotChanged && o.b.flash == b.flash)
  {
    hide LayoutOf, ReadLayout, Activations, ActivateUpdate;
    var (layout, b1) := ReadLayout(b);
    LayoutRead(b);
    ReadLayoutFaithful(b);
    ActivationsNext(b.log, Clock(b1.Answered().now));
  }

  // The bytes of an answer.

  const STATUSES: seq<StatusCode> := [
    Done, UserPresenceRequired, InvalidRequest, InvalidState, SessionMismatch, OutOfOrder, ImageSize, FlashError,
    HashMismatch, BadSignatureStatus, Rollback, VersionMismatch, ActiveSlotChanged, SessionExpired]

  const PHASES: seq<Phase> := [Idle, Erasing, Receiving, Verifying, Activated, Failed]

  /** Every answer is these bytes: status and phase by number, then the session, the floor and the version. */
  lemma AnswerBytes(u: Updater, status: StatusCode)
    requires SessionFits(u) && |u.currentVersion| < 0x100
    ensures var r := EncodeResponse(u, status);
            && |r| == 21 + |u.currentVersion|
            && r[0] < 14 && STATUSES[r[0]] == status && r[1] == 1 && r[2] < 6 && PHASES[r[2]] == u.CurrentPhase()
            && r[3] == (if u.session.None? then 0xff else u.session.value.targetSlot)
            && r[4..8] == ToLe32(if u.session.None? then 0 else u.session.value.id)
            && r[8..12] == ToLe32(if u.session.None? then 0 else u.session.value.completed)
            && r[12..16] == ToLe32(if u.session.None? then 0 else u.session.value.total)
            && r[16..20] == ToLe32(u.currentSecureVersion) && r[20] == |u.currentVersion| && r[21..] == u.currentVersion
  {
    hide ToLe32;
  }

  // The consent dispatch.

  /** A BEGIN is put to the user exactly when nothing else stands against it, and only a press brings it back. */
  lemma AskedExactly(b: Backend, u: Updater, r: Bytes, others: Others, c: Crypto)
    requires Sound(b, u) && |u.currentVersion| < 0x100 && others.diagnostics.None? && r != [] && r[0] == 1
    ensures var first := HandleReply(b.Logged(Received), u, r, false, c);
            && Sound(first.b, first.u) && |first.u.currentVersion| < 0x100
            && DispatchReply(b, u, r, others, c) ==
               if Refusal(PollStep(b.Logged(Received), u).1, r, false) == Some(UserPresenceRequired) && others.pressed
               then HandleReply(first.b.Logged(Approved), first.u, r, true, c) else first
  {
    hide PollStep, HandleInner, LayoutOf, HashersAgree, Refusal, Effect;
    LoggedSound(b, u);
    HandleEffect(b.Logged(Received), u, r, false, c);
    var (b1, u1) := PollStep(b.Logged(Received), u);
    PollOk(b.Logged(Received), u);
    FitsWhenSound(b1, u1);
    AlwaysRefused(u1, r);
    RefusedExactly(b1, u1, r, false, c);
    var o := Handle(b.Logged(Received), u, r, false, c);
    FitsWhenSound(o.b, o.u);
    FirstByte(o.u, o.status);
  }

  lemma AlwaysRefused(u: Updater, r: Bytes)
    requires r != [] && r[0] == 1
    ensures Refusal(u, r, false).Some?
  {
  }

  lemma LoggedSound(b: Backend, u: Updater)
    requires Sound(b, u)
    ensures Sound(b.Logged(Received), u)
  {
    hide LayoutOf, HashersAgree;
  }

  lemma FitsWhenSound(b: Backend, u: Updater)
    requires Sound(b, u)
    ensures SessionFits(u)
  {
    hide LayoutOf, HashersAgree;
  }

  lemma FirstByte(u: Updater, status: StatusCode)
    requires SessionFits(u) && |u.currentVersion| < 0x100
    ensures AsksForPresence(EncodeResponse(u, status)) <==> status == UserPresenceRequired
  {
  }
}
