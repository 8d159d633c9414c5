/** `install`: the host drives a whole update to the end. */
module HostInstall {
  import opened Words
  import opened Crc
  import opened OtaMetadata
  import opened FlashBackend
  import opened SignedImage
  import opened UsbUpdate
  import opened UpdateSoundness
  import opened UpdateAnswers
  import opened VendorCommands
  import opened UsbUpdaterClass
  import opened HostProtocol
  import opened InstallRuns

  /** A bound on how many ADVANCE requests can still succeed. */
  function Rank(u: Updater): int {
    if u.session.None? then 0 else
    var s := u.session.value;
    match s.phase
    case Erasing => 3 * (OTA_SLOT_SIZE + 1) - s.completed
    case Receiving => 2 * (OTA_SLOT_SIZE + 1)
    case Verifying => OTA_SLOT_SIZE + 1 - s.completed
    case _ => 0
  }

  /** Every ADVANCE that succeeds and leaves work to do makes headway, whatever the hardware does. */
  lemma AdvanceMakesHeadway(b: Backend, u: Updater, id: u32, c: Crypto)
    requires Sound(b, u)
    ensures SessionFits(u)
    ensures var o := Handle(b, u, AdvanceRequest(id), false, c);
            o.status == Done && o.u.CurrentPhase().Live() ==> 0 <= Rank(o.u) < Rank(u)
  {
    hide LayoutOf, Check, PollStep, DoVerify, DoErase, AdvanceRequest;
    PollOk(b, u);
    var (b1, u1) := PollStep(b, u);
    AdvanceFields(id);
    PollKeepsRank(b, u);
    if u1.session.Some? && u1.session.value.id == id {
      var (b2, s, expired) := Check(b1, u1.session.value);
      CheckOk(b1, u1.session.value);
      if !expired && s.phase == Erasing {
        EraseHeadway(b2, u1.With(s), s);
      } else if !expired && (s.phase == Verifying || (s.phase == Receiving && s.completed == s.total)) {
        var s1 := ReadingBack(s);
        VerifyHeadway(b2, u1.With(s1), s1, c);
      }
    }
  }

  lemma RankNatural(b: Backend, u: Updater)
    requires Sound(b, u)
    ensures Rank(u) >= 0
  {
  }

  lemma PollKeepsRank(b: Backend, u: Updater)
    requires Sound(b, u)
    ensures var (b1, u1) := PollStep(b, u);
            Rank(u1) <= Rank(u) && (u1.CurrentPhase().Live() ==> Rank(u1) == Rank(u))
  {
    hide LayoutOf, HashersAgree;
  }

  lemma EraseHeadway(b: Backend, u: Updater, s: Session)
    requires Aimed(s) && s.phase == Erasing
    ensures var o := DoErase(b, u, s);
            o.status == Done ==> o.u.session.Some? && 0 <= Rank(o.u) < Rank(u.With(s))
  {
    hide SetSlot;
  }

  lemma VerifyHeadway(b: Backend, u: Updater, s: Session, c: Crypto)
    requires SessionOk(s, b.flash) && s.phase == Verifying
    ensures var o := DoVerify(b, u, s, c);
            o.status == Done && o.u.CurrentPhase().Live() ==> 0 <= Rank(o.u) < Rank(u.With(s))
  {
    hide LayoutOf, VerifyChunks, Check, DoFinish;
    var stepEnd := Min(s.completed + VERIFY_STEP_SIZE, s.total);
    VerifyChunksOk(b, s, stepEnd);
    var (b1, s1, stopped) := VerifyChunks(b, s, stepEnd);
    if stopped.None? {
      var (b2, s2, expired) := Check(b1, s1);
      CheckOk(b1, s1);
      if !expired && s2.completed == s2.total {
        FinishEnds(b2, u.With(s2), s2, c);
      } else if !expired {
        ProgressKeeps(b2, u.With(s2), s2);
      }
    }
  }

  lemma ProgressKeeps(b: Backend, u: Updater, s: Session)
    ensures var o := Progressed(b, u, s);
            o.status == Done ==> o.u.session.Some? && o.u.session.value.phase == s.phase
                                 && o.u.session.value.completed == s.completed
  {
  }

  /** Verification that has read everything ends the session one way or the other. */
  lemma FinishEnds(b: Backend, u: Updater, s: Session, c: Crypto)
    requires s.total >= SIGNATURE_SECTOR_SIZE * 2
    ensures DoFinish(b, u, s, c).status == Done ==> !DoFinish(b, u, s, c).u.CurrentPhase().Live()
  {
    hide ReadSlot, DescriptorVerdict, ParseSignatureBlock, VerifyRsaPss, ReadLayout, ActivateUpdate, Check;
  }

  /** What a run of `install` ends with: how many requests each phase took. */
  datatype Report = Report(slot: byte, erases: nat, writes: nat, verifies: nat)

  /** Nothing goes wrong: the hardware works, the clock keeps up, the user presses, the image is right. */
  ghost predicate AllWell(b: Backend, u: Updater, image: Bytes, c: Crypto, utf8: Bytes -> bool, pressed: bool) {
    && Good(b, b.pos) && Genuine(image, u, c) && |c.sha(image)| == 32
    && LayoutOf(b.flash.records, b.flash.running).Some?
    && u.nextSessionId != 0 && utf8(u.currentVersion) && pressed
  }

  const CALM := Others(None, [], false)

  method CallDevice(updater: UsbUpdater, request: Bytes, others: Others, utf8: Bytes -> bool)
    returns (r: Result<DeviceStatus, HostError>)
    requires updater.Valid() && Sound(updater.device.Model(), updater.State())
    modifies updater, updater.device
    ensures updater.Valid() && Sound(updater.device.Model(), updater.State())
    ensures var d := DispatchReply(old(updater.device.Model()), old(updater.State()), request, others, updater.crypto);
            && updater.device.Model() == d.b && updater.State() == d.u
            && r == CallOutcome(d, utf8)
  {
    hide DispatchReply, DecodeStatus, LayoutOf, HashersAgree;
    var reply := updater.DispatchVendor(request, others);
    var decoded := DecodeStatus(reply, utf8);
    match decoded
    case Err(e) => r := Err(e);
    case Ok(status) => r := if status.status != 0 then Err(Refused(status.status)) else Ok(status);
  }

  /** The status fields the device reports. */
  function Reported(u: Updater): DeviceStatus
    requires SessionFits(u)
  {
    if u.session.None? then
      DeviceStatus(0, Idle.Code(), 0xff, 0, 0, 0, u.currentSecureVersion, u.currentVersion)
    else
      var s := u.session.value;
      DeviceStatus(0, s.phase.Code(), s.targetSlot, s.id, s.completed, s.total, u.currentSecureVersion, u.currentVersion)
  }

  /** What a call returns, given what the handler did. */
  function CallResult(o: Outcome, utf8: Bytes -> bool): Result<DeviceStatus, HostError>
    requires SessionFits(o.u)
  {
    if !utf8(o.u.currentVersion) then Err(NotUtf8)
    else if o.status != Done then Err(Refused(o.status.Code()))
    else Ok(Reported(o.u))
  }

  function CallOutcome(d: Reply, utf8: Bytes -> bool): Result<DeviceStatus, HostError> {
    match DecodeStatus(d.response, utf8)
    case Err(e) => Err(e)
    case Ok(status) => if status.status != 0 then Err(Refused(status.status)) else Ok(status)
  }

  lemma Fits(b: Backend, u: Updater)
    requires Sound(b, u)
    ensures SessionFits(u)
  {
    hide LayoutOf, HashersAgree;
  }

  /** A request nobody is asked about goes straight to the handler and back. */
  lemma CalmCall(b: Backend, u: Updater, request: Bytes, c: Crypto, utf8: Bytes -> bool)
    requires Sound(b, u) && 0 < |u.currentVersion| <= MAX_VERSION_LENGTH && request != [SECURITY_STATUS_REQUEST]
    ensures SessionFits(u)
    ensures var o := Handle(b.Logged(Received), u, request, false, c);
            var d := DispatchReply(b, u, request, CALM, c);
            && d.b == o.b && d.u == o.u && SessionFits(o.u) && Sound(o.b, o.u) && SameFirmware(u, o.u)
            && CallOutcome(d, utf8) == CallResult(o, utf8)
  {
    hide Handle, LayoutOf, HashersAgree, DecodeStatus, EncodeResponse;
    HandleEffect(b.Logged(Received), u, request, false, c);
    var o := Handle(b.Logged(Received), u, request, false, c);
    Fits(o.b, o.u);
    DecodeWhatWasEncoded(o.u, o.status, utf8);
  }

  /** A WRITE or an ADVANCE, whatever the hardware does: the session goes on, and reads activated only with good reason. */
  lemma WorkCall(b: Backend, u: Updater, request: Bytes, c: Crypto, utf8: Bytes -> bool)
    requires Sound(b, u) && 0 < |u.currentVersion| <= MAX_VERSION_LENGTH && request != [] && request[0] in {2, 3}
    ensures var d := DispatchReply(b, u, request, CALM, c);
            && Continues(u, d.u) && (NewlyActivated(u, d.u) ==> ActivatedWell(d.b, d.u, c))
            && (CallOutcome(d, utf8).Ok? ==> SessionFits(d.u) && CallOutcome(d, utf8) == Ok(Reported(d.u)))
  {
    hide Handle, LayoutOf, HashersAgree, DispatchReply, CallOutcome, Continues, ActivatedWell, NewlyActivated, Reported;
    LoggedSound(b, u);
    CalmCall(b, u, request, c, utf8);
    WorkContinues(b.Logged(Received), u, request, false, c);
    NewlyActivatedWell(b.Logged(Received), u, request, false, c);
  }

  /** The status in hand is the device's own, and if it reads activated there is good reason. */
  ghost predicate Known(b: Backend, u: Updater, status: DeviceStatus, c: Crypto) {
    SessionFits(u) && status == Reported(u) && (status.phase == 4 ==> ActivatedWell(b, u, c))
  }

  lemma KnownActivated(b: Backend, u: Updater, status: DeviceStatus, c: Crypto)
    requires Known(b, u, status, c) && status.phase == 4
    ensures ActivatedWell(b, u, c) && u.session.Some? && status.targetSlot == u.session.value.targetSlot
  {
    hide SessionFits, SignedBelow, Describes, NewRecord;
  }

  lemma SessionForOn(u: Updater, v: Updater, m: HostImage)
    requires Continues(u, v)
    ensures SessionFor(u, m) ==> SessionFor(v, m)
  {
  }

  lemma ContinuesOn(u: Updater, v: Updater, w: Updater)
    requires Continues(u, v) && Continues(v, w)
    ensures Continues(u, w)
  {
  }

  lemma SameSession(u: Updater)
    ensures Continues(u, u)
  {
  }

  /** A call of one of the host's loops keeps what it knows, and the session it works on. */
  lemma KnownOn(b0: Backend, u0: Updater, b: Backend, u: Updater, status: DeviceStatus, request: Bytes, c: Crypto,
                utf8: Bytes -> bool)
    requires Sound(b, u) && 0 < |u.currentVersion| <= MAX_VERSION_LENGTH && request != [] && request[0] in {2, 3}
    requires Continues(u0, u)
    ensures var d := DispatchReply(b, u, request, CALM, c);
            && Continues(u0, d.u)
            && (Known(b, u, status, c) && status.phase != 4 && CallOutcome(d, utf8).Ok? ==>
                  Known(d.b, d.u, CallOutcome(d, utf8).value, c))
  {
    hide DispatchReply, CallOutcome, ActivatedWell, Continues, Sound;
    WorkCall(b, u, request, c, utf8);
    ContinuesOn(u0, u, DispatchReply(b, u, request, CALM, c).u);
  }

  lemma InfoGood(b: Backend, u: Updater, c: Crypto)
    requires Good(b, b.pos) && Sound(b, u)
    ensures SessionFits(u)
    ensures var o := Handle(b, u, [OP_INFO], false, c);
            && o.status == Done && o.b.flash == b.flash && SameFirmware(u, o.u) && o.u.nextSessionId == u.nextSessionId
            && Good(o.b, b.pos)
  {
    hide LayoutOf, HashersAgree, PollStep, InTime, Perfect;
    PollOk(b, u);
    PollAdvances(b, u, b.pos);
  }

  /** A BEGIN that is asked about and approved. */
  lemma BeginCall(b: Backend, u: Updater, m: HostImage, image: Bytes, from: nat, c: Crypto, utf8: Bytes -> bool)
    requires Good(b, from) && Sound(b, u) && 0 < |u.currentVersion| <= MAX_VERSION_LENGTH
    requires m.size <= OTA_SLOT_SIZE && |m.version| < 0x100
    requires BeginRequest(m) != [] && BeginRequest(m)[0] == OP_BEGIN && Carries(BeginRequest(m)[1..], m, image, u, c)
    requires LayoutOf(b.flash.records, b.flash.running).Some? && u.nextSessionId != 0 && utf8(u.currentVersion)
    ensures var d := DispatchReply(b, u, BeginRequest(m), Others(None, [], true), c);
            && SessionFits(d.u) && CallOutcome(d, utf8) == Ok(Reported(d.u))
            && Running(d.b, d.u, from, image, c) && d.b.flash == b.flash && SameFirmware(u, d.u)
            && d.u.session.value.phase == Erasing && d.u.session.value.completed == 0 && d.u.session.value.id != 0
  {
    hide Handle, LayoutOf, HashersAgree, DecodeStatus, Carries, Running, EncodeResponse, BeginRequest, InTime, Perfect;
    var b0 := b.Logged(Received);
    BeginGood(b0, u, m, image, from, c);
    HandleEffect(b0, u, BeginRequest(m), false, c);
    var first := Handle(b0, u, BeginRequest(m), false, c);
    var b1 := first.b.Logged(Approved);
    CarriesKeeps(BeginRequest(m)[1..], m, image, u, first.u, c);
    BeginGood(b1, first.u, m, image, from, c);
    HandleEffect(b1, first.u, BeginRequest(m), true, c);
    var o := Handle(b1, first.u, BeginRequest(m), true, c);
    Fits(o.b, o.u);
    DecodeWhatWasEncoded(o.u, o.status, utf8);
    EncodedCode(first.u, first.status);
    FirstIs(b, u, BeginRequest(m), c);
  }

  /** The open session is for the image that the host described. */
  predicate SessionFor(u: Updater, m: HostImage) {
    && u.session.Some?
    && var s := u.session.value;
    s.total == m.size && s.expectedHash == m.sha256 && s.expectedSecureVersion == m.secureVersion && s.expectedVersion == m.version
  }

  /** The fields of a BEGIN request, at their places in the whole request. */
  lemma BeginPlaces(m: HostImage)
    requires m.size <= OTA_SLOT_SIZE && |m.version| <= MAX_VERSION_LENGTH && |m.sha256| == 32
    ensures var r := BeginRequest(m);
            && |r| >= 43 && r[0] == 1 && FromLe32(r[2..6]) == m.size && r[6..38] == m.sha256
            && FromLe32(r[38..42]) == m.secureVersion && r[43..] == m.version
  {
    hide FromLe32;
    BeginFields(m);
    Tail(BeginRequest(m));
  }

  lemma BeginByte(m: HostImage)
    requires m.size <= OTA_SLOT_SIZE && |m.version| <= MAX_VERSION_LENGTH
    ensures BeginRequest(m) != [] && BeginRequest(m)[0] == 1
  {
  }

  lemma FirstBegin(b: Backend, u: Updater, r: Bytes, c: Crypto)
    requires Sound(b, u) && r != [] && r[0] == 1
    ensures SessionFits(u) && Handle(b, u, r, false, c).status != Done
  {
    hide PollStep, HandleInner, LayoutOf, HashersAgree, FromLe32;
    PollOk(b, u);
    var (b1, u1) := PollStep(b, u);
    FitsWhenSound(b1, u1);
    AlwaysRefused(u1, r);
    RefusedExactly(b1, u1, r, false, c);
    Fits(b, u);
  }

  lemma SecondBegin(b: Backend, u: Updater, m: HostImage, c: Crypto)
    requires Sound(b, u) && m.size <= OTA_SLOT_SIZE && |m.version| <= MAX_VERSION_LENGTH
    ensures SessionFits(u)
    ensures var o := Handle(b, u, BeginRequest(m), true, c);
            o.status == Done ==> o.u.CurrentPhase() == Erasing && (|m.sha256| == 32 ==> SessionFor(o.u, m))
  {
    hide PollStep, HandleInner, LayoutOf, HashersAgree, FromLe32, BeginRequest, Refusal;
    PollOk(b, u);
    var (b1, u1) := PollStep(b, u);
    FitsWhenSound(b1, u1);
    Fits(b, u);
    if |m.sha256| == 32 { BeginPlaces(m); }
    var r := BeginRequest(m);
    BeginByte(m);
    if Refusal(u1, r, true).Some? {
      RefusedExactly(b1, u1, r, true, c);
      NeverDone(u1, r);
    } else {
      BeginExactly(b1, u1, r, c);
    }
  }

  lemma NeverDone(u: Updater, r: Bytes)
    requires r != [] && r[0] == 1
    ensures Refusal(u, r, true) != Some(Done)
  {
  }

  /** A BEGIN that the host takes as accepted opened a session for its image. */
  lemma BeginClaims(b: Backend, u: Updater, m: HostImage, pressed: bool, c: Crypto, utf8: Bytes -> bool)
    requires Sound(b, u) && 0 < |u.currentVersion| <= MAX_VERSION_LENGTH
    requires m.size <= OTA_SLOT_SIZE && |m.version| <= MAX_VERSION_LENGTH
    ensures var d := DispatchReply(b, u, BeginRequest(m), Others(None, [], pressed), c);
            CallOutcome(d, utf8).Ok? ==>
              && SessionFits(d.u) && CallOutcome(d, utf8) == Ok(Reported(d.u)) && d.u.CurrentPhase() == Erasing
              && (|m.sha256| == 32 ==> SessionFor(d.u, m))
  {
    hide Handle, LayoutOf, HashersAgree, DecodeStatus, EncodeResponse, BeginRequest, SessionFor, Reported;
    var r := BeginRequest(m);
    BeginByte(m);
    LoggedSound(b, u);
    var b0 := b.Logged(Received);
    HandleEffect(b0, u, r, false, c);
    var first := Handle(b0, u, r, false, c);
    FirstBegin(b0, u, r, c);
    Fits(first.b, first.u);
    EncodedCode(first.u, first.status);
    DecodeWhatWasEncoded(first.u, first.status, utf8);
    var b1 := first.b.Logged(Approved);
    ApprovedSound(first.b, first.u);
    HandleEffect(b1, first.u, r, true, c);
    SecondBegin(b1, first.u, m, c);
    var o := Handle(b1, first.u, r, true, c);
    Fits(o.b, o.u);
    DecodeWhatWasEncoded(o.u, o.status, utf8);
    ReportedIs(o.u);
  }

  lemma ApprovedSound(b: Backend, u: Updater)
    requires Sound(b, u)
    ensures Sound(b.Logged(Approved), u)
  {
    hide LayoutOf, HashersAgree;
  }

  lemma ReportedIs(u: Updater)
    requires SessionFits(u)
    ensures Reported(u) ==
            if u.session.None? then
              DeviceStatus(0, Idle.Code(), 0xff, 0, 0, 0, u.currentSecureVersion, u.currentVersion)
            else
              var s := u.session.value;
              DeviceStatus(0, s.phase.Code(), s.targetSlot, s.id, s.completed, s.total, u.currentSecureVersion, u.currentVersion)
  {
  }

  lemma EncodedCode(u: Updater, status: StatusCode)
    requires SessionFits(u) && |u.currentVersion| < 0x100
    ensures var r := EncodeResponse(u, status);
            r != [] && r[0] == status.Code()
  {
  }

  lemma FirstIs(b: Backend, u: Updater, request: Bytes, c: Crypto)
    requires Sound(b, u) && |u.currentVersion| < 0x100 && request != [] && request[0] == OP_BEGIN
    ensures FirstReply(b.Logged(Received), u, request, Others(None, [], true), c)
         == HandleReply(b.Logged(Received), u, request, false, c)
  {
  }

  lemma CarriesKeeps(request: Bytes, m: HostImage, image: Bytes, u: Updater, v: Updater, c: Crypto)
    requires Carries(request, m, image, u, c) && SameFirmware(u, v)
    ensures Carries(request, m, image, v, c)
  {
  }

  /** In the middle of a good run: the layout is the one at BEGIN and only the target slot has changed. */
  ghost predicate Stage(b: Backend, u: Updater, from: nat, f: Flash, l: UpdateLayout, image: Bytes, c: Crypto) {
    && u.session.Some? && u.session.value.total == |image|
    && Running(b, u, from, image, c) && Genuine(image, u, c)
    && u.session.value.layout == l && u.session.value.targetSlot < 2
    && OnlySlot(f, b.flash, u.session.value.targetSlot)
  }

  /** All that the erase phase has been through reads 0xff. */
  predicate Blanked(b: Backend, u: Updater) {
    && u.session.Some? && u.session.value.targetSlot < 2
    && var s := u.session.value;
    ErasedTo(b.flash.slots[s.targetSlot], if s.phase == Erasing then s.completed else s.total)
  }

  lemma BlankedFurther(before: Slot, at: nat, total: nat, after: Slot)
    requires ErasedTo(before, at) && ErasedStep(before, at, total, after)
    ensures ErasedTo(after, if at + 0x1_0000 >= total then total else at + 0x1_0000)
  {
    ErasedFurther(before, at, Min(total - at, 0x1_0000));
  }

  lemma StageErase(b: Backend, u: Updater, from: nat, f: Flash, l: UpdateLayout, image: Bytes, c: Crypto)
    requires Stage(b, u, from, f, l, image, c) && u.session.value.phase == Erasing
    requires Blanked(b, u)
    requires u.session.value.completed < u.session.value.total && u.session.value.completed % ERASE_STEP_SIZE == 0
    ensures SessionFits(u)
    ensures var s := u.session.value;
            var o := Handle(b.Logged(Received), u, AdvanceRequest(s.id), false, c);
            && o.status == Done && Stage(o.b, o.u, from, f, l, image, c) && SameFirmware(u, o.u) && Blanked(o.b, o.u)
            && var t := o.u.session.value;
            t.id == s.id && t.total == s.total &&
            if s.completed + ERASE_STEP_SIZE >= s.total then t.phase == Receiving && t.completed == 0
            else t.phase == Erasing && t.completed == s.completed + ERASE_STEP_SIZE
  {
    hide Handle, LayoutOf, HashersAgree, Describes, SignedBelow, InTime, Perfect, AdvanceRequest;
    hide ErasedTo, ErasedStep;
    AdvanceErasing(b.Logged(Received), u, from, image, c);
    var s := u.session.value;
    var o := Handle(b.Logged(Received), u, AdvanceRequest(s.id), false, c);
    BlankedFurther(b.flash.slots[s.targetSlot], s.completed, s.total, o.b.flash.slots[s.targetSlot]);
  }

  lemma StageWrite(b: Backend, u: Updater, from: nat, f: Flash, l: UpdateLayout, image: Bytes, c: Crypto, data: Bytes)
    requires Stage(b, u, from, f, l, image, c) && u.session.value.phase == Receiving
    requires var s := u.session.value;
             && 0 < |data| <= MAX_WRITE_CHUNK && |data| % 32 == 0 && s.completed % 32 == 0
             && s.completed + |data| <= s.total
             && b.flash.slots[s.targetSlot][..s.completed] == image[..s.completed]
             && data == image[s.completed..s.completed + |data|]
    ensures SessionFits(u)
    ensures var s := u.session.value;
            var o := Handle(b.Logged(Received), u, WriteRequest(s.id, s.completed, data), false, c);
            && o.status == Done && Stage(o.b, o.u, from, f, l, image, c) && SameFirmware(u, o.u)
            && var t := o.u.session.value;
            && t.id == s.id && t.total == s.total && t.phase == Receiving && t.completed == s.completed + |data|
            && o.b.flash.slots[t.targetSlot][..t.completed] == image[..t.completed]
  {
    hide Handle, LayoutOf, HashersAgree, Describes, SignedBelow, InTime, Perfect, WriteRequest;
    WriteGood(b.Logged(Received), u, WriteRequest(u.session.value.id, u.session.value.completed, data), data, from, image, c);
  }

  /** The end of a good run. */
  ghost predicate Finished(b: Backend, u: Updater, f: Flash, l: UpdateLayout, image: Bytes) {
    && u.session.Some? && u.session.value.phase == Activated && u.session.value.targetSlot == 1 - l.activeSlot
    && l.activeSlot < 2 && l.activationEntry < 2 && l.activeSequence < U32_MAX && |image| <= OTA_SLOT_SIZE
    && b.flash.slots[1 - l.activeSlot][..|image|] == image
    && b.flash.slots[l.activeSlot] == f.slots[l.activeSlot]
    && b.flash.records == f.records[l.activationEntry := NewRecord(l.activeSequence + 1)]
    && b.flash.running == f.running
  }

  /** What a successful ADVANCE of a good run's verification comes to: the end, or one more step read back. */
  ghost predicate VerifiedOn(
    u: Updater, o: Outcome, b: Backend, from: nat, f: Flash, l: UpdateLayout, image: Bytes, c: Crypto)
    requires u.session.Some?
  {
    var s := ReadingBack(u.session.value);
    && o.status == Done && SameFirmware(u, o.u) && o.u.session.Some?
    && var t := o.u.session.value;
    && t.id == s.id && t.total == s.total
    && if s.completed + VERIFY_STEP_SIZE >= s.total then Finished(o.b, o.u, f, l, image)
       else
         && Stage(o.b, o.u, from, f, l, image, c) && o.b.flash == b.flash
         && t.phase == Verifying && t.completed == s.completed + VERIFY_STEP_SIZE
  }

  lemma StageVerify(b: Backend, u: Updater, from: nat, f: Flash, l: UpdateLayout, image: Bytes, c: Crypto)
    requires Stage(b, u, from, f, l, image, c)
    requires var s := u.session.value;
             s.phase == Verifying || (s.phase == Receiving && s.completed == s.total)
    requires b.flash.slots[u.session.value.targetSlot][..u.session.value.total] == image
    ensures SessionFits(u)
    ensures VerifiedOn(u, Handle(b.Logged(Received), u, AdvanceRequest(u.session.value.id), false, c), b, from, f, l, image, c)
  {
    hide Handle, LayoutOf, HashersAgree, Describes, SignedBelow, InTime, Perfect, AdvanceRequest, NewRecord;
    AdvanceVerifying(b.Logged(Received), u, from, image, c);
  }

  /** Where a good run stands, as the loops carry it. */
  ghost predicate WellAt(
    b: Backend, u: Updater, status: DeviceStatus, id: u32, utf8: Bytes -> bool,
    from: nat, f: Flash, l: UpdateLayout, image: Bytes, c: Crypto
  )
    ensures WellAt(b, u, status, id, utf8, from, f, l, image, c) ==> u.session.Some?
  {
    && Stage(b, u, from, f, l, image, c)
    && SessionFits(u) && utf8(u.currentVersion)
    && status == Reported(u) && u.session.value.id == id
  }

  ghost predicate Well(
    updater: UsbUpdater, status: DeviceStatus, id: u32, utf8: Bytes -> bool,
    from: nat, f: Flash, l: UpdateLayout, image: Bytes
  )
    reads updater, updater.device
    ensures Well(updater, status, id, utf8, from, f, l, image) ==> updater.session.Some?
  {
    WellAt(updater.device.Model(), updater.State(), status, id, utf8, from, f, l, image, updater.crypto)
  }

  /** The target slot starts with these bytes. */
  ghost predicate TargetHolds(updater: UsbUpdater, data: Bytes)
    reads updater, updater.device
  {
    && updater.session.Some? && updater.session.value.targetSlot < 2 && |data| <= OTA_SLOT_SIZE
    && updater.device.slots[updater.session.value.targetSlot][..|data|] == data
  }

  method EraseAll(
    updater: UsbUpdater, started: DeviceStatus, id: u32, utf8: Bytes -> bool,
    ghost good: bool, ghost from: nat, ghost f: Flash, ghost l: UpdateLayout, ghost image: Bytes
  ) returns (r: Result<DeviceStatus, HostError>, erases: nat)
    requires updater.Valid() && Sound(updater.device.Model(), updater.State())
    requires Known(updater.device.Model(), updater.State(), started, updater.crypto)
    requires good ==> Well(updater, started, id, utf8, from, f, l, image)
    requires good ==> updater.session.value.phase == Erasing && updater.session.value.completed == 0 && |image| > 0
    modifies updater, updater.device
    ensures updater.Valid() && Sound(updater.device.Model(), updater.State())
    ensures Continues(old(updater.State()), updater.State())
    ensures r.Ok? ==> Known(updater.device.Model(), updater.State(), r.value, updater.crypto)
    ensures r.Ok? ==> r.value.phase == 2 && r.value.completed == 0
    ensures good ==>
              && r.Ok? && Well(updater, r.value, id, utf8, from, f, l, image)
              && updater.session.value.phase == Receiving && updater.session.value.completed == 0
              && TargetHolds(updater, Fill(|image|, 0xff))
              && erases == CeilDiv(|image|, ERASE_STEP_SIZE)
  {
    hide Handle, LayoutOf, HashersAgree, Running, Genuine, DispatchReply, CallOutcome, AdvanceRequest, Known, Continues;
    ghost var b0, u0 := updater.device.Model(), updater.State();
    SameSession(u0);
    var status := started;
    erases := 0;
    while status.phase == 1
      invariant updater.Valid() && Sound(updater.device.Model(), updater.State())
      invariant Continues(u0, updater.State())
      invariant Known(updater.device.Model(), updater.State(), status, updater.crypto)
      invariant good ==> Well(updater, status, id, utf8, from, f, l, image)
      invariant good ==> Blanked(updater.device.Model(), updater.State())
      invariant good ==>
        && var s := updater.session.value;
        (s.phase == Erasing && s.completed == ERASE_STEP_SIZE * erases < s.total)
        || (s.phase == Receiving && s.completed == 0 && erases == CeilDiv(s.total, ERASE_STEP_SIZE))
      decreases if status.phase == 1 then 1 + Rank(updater.State()) else 0
    {
      ghost var b, u := updater.device.Model(), updater.State();
      AdvanceFields(id);
      RankNatural(b, u);
      CalmCall(b, u, AdvanceRequest(id), updater.crypto, utf8);
      KnownOn(b0, u0, b, u, status, AdvanceRequest(id), updater.crypto, utf8);
      AdvanceMakesHeadway(b.Logged(Received), u, id, updater.crypto);
      if good { StageErase(b, u, from, f, l, image, updater.crypto); }
      r := CallDevice(updater, AdvanceRequest(id), CALM, utf8);
      erases := erases + 1;
      if r.Err? { return; }
      status := r.value;
    }
    r := if status.phase != 2 || status.completed != 0 then Err(NotReceiving) else Ok(status);
  }

  /** Full chunks and then whatever is left. */
  lemma ChunkCount(total: nat, writes: nat, offset: nat)
    requires offset == MAX_WRITE_CHUNK * writes < total && total % 32 == 0
    ensures var count := Min(MAX_WRITE_CHUNK, total - offset);
            && 0 < count <= MAX_WRITE_CHUNK && count % 32 == 0 && offset % 32 == 0
            && (offset + count == total ==> writes + 1 == CeilDiv(total, MAX_WRITE_CHUNK))
            && (offset + count < total ==> offset + count == MAX_WRITE_CHUNK * (writes + 1))
  {
    var t, left := total / 32, total - offset;
    MultipleOf32(offset, 31 * writes);
    MultipleOf32(Min(MAX_WRITE_CHUNK, left), Min(31, t - 31 * writes));
    if left <= MAX_WRITE_CHUNK { LastChunk(writes, left); }
  }

  /** After so many writes this much is written. */
  predicate Chunked(total: nat, writes: nat, offset: nat) {
    && offset % 32 == 0
    && (offset < total ==> offset == MAX_WRITE_CHUNK * writes)
    && (offset == total ==> writes == CeilDiv(total, MAX_WRITE_CHUNK))
  }

  lemma NoChunks(image: Bytes)
    requires WellSized(image)
    ensures 0 < |image| <= OTA_SLOT_SIZE && |image| % 32 == 0 && Chunked(|image|, 0, 0)
  {
    MultipleOf32(|image|, 128 * (|image| / SIGNATURE_SECTOR_SIZE));
  }

  lemma AllChunks(total: nat, writes: nat)
    requires Chunked(total, writes, total)
    ensures writes == CeilDiv(total, MAX_WRITE_CHUNK)
  {
  }

  lemma ChunkStep(total: nat, writes: nat, offset: nat)
    requires offset < total && total % 32 == 0 && Chunked(total, writes, offset)
    ensures var count := Min(MAX_WRITE_CHUNK, total - offset);
            && 0 < count <= MAX_WRITE_CHUNK && count % 32 == 0 && offset % 32 == 0
            && Chunked(total, writes + 1, offset + count)
  {
    var count := Min(MAX_WRITE_CHUNK, total - offset);
    ChunkCount(total, writes, offset);
    MultipleOf32(offset + count, offset / 32 + count / 32);
  }

  lemma MultipleOf32(x: nat, q: nat)
    requires x == 32 * q
    ensures x % 32 == 0
  {
  }

  /** Full chunks and at least one byte more round up to one chunk more. */
  lemma LastChunk(writes: nat, left: nat)
    requires 0 < left <= MAX_WRITE_CHUNK
    ensures CeilDiv(MAX_WRITE_CHUNK * writes + left, MAX_WRITE_CHUNK) == writes + 1
  {
    var total := 992 * writes + left;
    assert total + 991 == 992 * (writes + 1) + (left - 1);
  }

  /** The device is receiving and holds the first `offset` bytes of the image. */
  predicate WrittenUpTo(b: Backend, u: Updater, image: Bytes, offset: nat) {
    && u.session.Some? && u.session.value.phase == Receiving && u.session.value.completed == offset
    && u.session.value.targetSlot < 2 && offset <= OTA_SLOT_SIZE && offset <= |image|
    && b.flash.slots[u.session.value.targetSlot][..offset] == image[..offset]
  }

  lemma NothingWritten(
    b: Backend, u: Updater, status: DeviceStatus, id: u32, utf8: Bytes -> bool,
    from: nat, f: Flash, l: UpdateLayout, image: Bytes, c: Crypto
  )
    requires WellAt(b, u, status, id, utf8, from, f, l, image, c)
    requires u.session.value.phase == Receiving && u.session.value.completed == 0
    ensures WrittenUpTo(b, u, image, 0)
  {
    hide Running, Genuine;
  }

  lemma WrittenAll(
    b: Backend, u: Updater, status: DeviceStatus, id: u32, utf8: Bytes -> bool,
    from: nat, f: Flash, l: UpdateLayout, image: Bytes, c: Crypto
  )
    requires WellAt(b, u, status, id, utf8, from, f, l, image, c) && WrittenUpTo(b, u, image, |image|)
    ensures u.session.value.phase == Receiving && u.session.value.completed == u.session.value.total == |image|
    ensures u.session.value.targetSlot < 2 && |image| <= OTA_SLOT_SIZE
    ensures b.flash.slots[u.session.value.targetSlot][..|image|] == image
  {
    hide Running, Genuine;
    assert image[..|image|] == image;
  }

  lemma WriteNext(
    b: Backend, u: Updater, status: DeviceStatus, id: u32, utf8: Bytes -> bool,
    from: nat, f: Flash, l: UpdateLayout, image: Bytes, c: Crypto, offset: nat, data: Bytes
  )
    requires Sound(b, u) && 0 < |u.currentVersion| <= MAX_VERSION_LENGTH
    requires WellAt(b, u, status, id, utf8, from, f, l, image, c) && WrittenUpTo(b, u, image, offset)
    requires 0 < |data| <= MAX_WRITE_CHUNK && |data| % 32 == 0 && offset % 32 == 0 && offset + |data| <= |image|
    requires data == image[offset..offset + |data|]
    ensures var d := DispatchReply(b, u, WriteRequest(id, offset, data), CALM, c);
            var r := CallOutcome(d, utf8);
            && r.Ok? && r.value.phase == 2 && r.value.completed == offset + |data|
            && WellAt(d.b, d.u, r.value, id, utf8, from, f, l, image, c)
            && WrittenUpTo(d.b, d.u, image, offset + |data|)
  {
    hide Handle, LayoutOf, HashersAgree, Running, Genuine, DispatchReply, CallOutcome, WriteRequest;
    WriteFields(id, offset, data);
    CalmCall(b, u, WriteRequest(id, offset, data), c, utf8);
    StageWrite(b, u, from, f, l, image, c, data);
  }

  method WriteAll(
    updater: UsbUpdater, started: DeviceStatus, id: u32, image: Bytes, utf8: Bytes -> bool,
    ghost good: bool, ghost from: nat, ghost f: Flash, ghost l: UpdateLayout
  ) returns (r: Result<DeviceStatus, HostError>, writes: nat)
    requires updater.Valid() && Sound(updater.device.Model(), updater.State())
    requires Known(updater.device.Model(), updater.State(), started, updater.crypto)
    requires started.phase == 2
    requires WellSized(image)
    requires good ==> Well(updater, started, id, utf8, from, f, l, image)
    requires good ==> updater.session.value.phase == Receiving && updater.session.value.completed == 0
    modifies updater, updater.device
    ensures updater.Valid() && Sound(updater.device.Model(), updater.State())
    ensures Continues(old(updater.State()), updater.State())
    ensures r.Ok? ==> Known(updater.device.Model(), updater.State(), r.value, updater.crypto)
    ensures r.Ok? ==> r.value.phase == 2 && r.value.completed == |image|
    ensures good ==>
              && r.Ok? && Well(updater, r.value, id, utf8, from, f, l, image)
              && updater.session.value.phase == Receiving
              && updater.session.value.completed == updater.session.value.total > 0
              && TargetHolds(updater, image)
              && writes == CeilDiv(|image|, MAX_WRITE_CHUNK)
  {
    hide LayoutOf, HashersAgree, WellAt, DispatchReply, CallOutcome, WriteRequest, CeilDiv, Sound, WrittenUpTo, Chunked;
    hide Known, Continues, WellSized;
    ghost var b0, u0 := updater.device.Model(), updater.State();
    SameSession(u0);
    NoChunks(image);
    var status := started;
    writes := 0;
    var offset := 0;
    if good { NothingWritten(updater.device.Model(), updater.State(), status, id, utf8, from, f, l, image, updater.crypto); }
    while offset < |image|
      invariant updater.Valid() && Sound(updater.device.Model(), updater.State())
      invariant Continues(u0, updater.State()) && status.phase == 2 && (offset > 0 ==> status.completed == offset)
      invariant Known(updater.device.Model(), updater.State(), status, updater.crypto)
      invariant good ==> Well(updater, status, id, utf8, from, f, l, image)
      invariant offset <= |image| && Chunked(|image|, writes, offset)
      invariant good ==> WrittenUpTo(updater.device.Model(), updater.State(), image, offset)
      decreases |image| - offset
    {
      var count := Min(MAX_WRITE_CHUNK, |image| - offset);
      ChunkStep(|image|, writes, offset);
      var data := image[offset..offset + count];
      var request := WriteRequest(id, offset, data);
      WriteFields(id, offset, data);
      KnownOn(b0, u0, updater.device.Model(), updater.State(), status, request, updater.crypto, utf8);
      if good {
        WriteNext(updater.device.Model(), updater.State(), status, id, utf8, from, f, l, image, updater.crypto, offset, data);
      }
      r := CallDevice(updater, request, CALM, utf8);
      if r.Err? { return; }
      status := r.value;
      offset := offset + count;
      writes := writes + 1;
      if status.phase != 2 || status.completed != offset { return Err(WriteDiverged), writes; }
    }
    AllChunks(|image|, writes);
    if good {
      WrittenAll(updater.device.Model(), updater.State(), status, id, utf8, from, f, l, image, updater.crypto);
    }
    r := Ok(status);
  }

  method VerifyAll(
    updater: UsbUpdater, started: DeviceStatus, id: u32, utf8: Bytes -> bool,
    ghost good: bool, ghost from: nat, ghost f: Flash, ghost l: UpdateLayout, ghost image: Bytes
  ) returns (r: Result<DeviceStatus, HostError>, verifies: nat)
    requires updater.Valid() && Sound(updater.device.Model(), updater.State())
    requires Known(updater.device.Model(), updater.State(), started, updater.crypto)
    requires good ==> Well(updater, started, id, utf8, from, f, l, image)
    requires good ==>
               && updater.session.value.phase == Receiving
               && updater.session.value.completed == updater.session.value.total > 0
               && TargetHolds(updater, image)
    modifies updater, updater.device
    ensures updater.Valid() && Sound(updater.device.Model(), updater.State())
    ensures r.Ok? ==> r.value.phase == 4 && r.value.targetSlot <= 1
    ensures Continues(old(updater.State()), updater.State())
    ensures r.Ok? ==> Known(updater.device.Model(), updater.State(), r.value, updater.crypto)
    ensures good ==>
              && r.Ok? && Finished(updater.device.Model(), updater.State(), f, l, image)
              && r.value.targetSlot == 1 - l.activeSlot
              && verifies == CeilDiv(|image|, VERIFY_STEP_SIZE)
  {
    hide Handle, LayoutOf, HashersAgree, Running, Genuine, DispatchReply, CallOutcome, AdvanceRequest, NewRecord, Known;
    hide Continues;
    ghost var b0, u0 := updater.device.Model(), updater.State();
    SameSession(u0);
    var status := started;
    verifies := 0;
    while status.phase == 2 || status.phase == 3
      invariant updater.Valid() && Sound(updater.device.Model(), updater.State())
      invariant Continues(u0, updater.State())
      invariant Known(updater.device.Model(), updater.State(), status, updater.crypto)
      invariant good ==> utf8(updater.currentVersion)
      invariant good ==> SessionFits(updater.State()) && status == Reported(updater.State())
      invariant good && (status.phase == 2 || status.phase == 3) ==>
        && Stage(updater.device.Model(), updater.State(), from, f, l, image, updater.crypto)
        && TargetHolds(updater, image)
        && var s := updater.session.value;
        s.id == id &&
        if s.phase == Receiving then s.completed == s.total > 0 && verifies == 0
        else s.phase == Verifying && s.completed == VERIFY_STEP_SIZE * verifies < s.total
      invariant good && status.phase != 2 && status.phase != 3 ==>
        && Finished(updater.device.Model(), updater.State(), f, l, image)
        && verifies == CeilDiv(|image|, VERIFY_STEP_SIZE)
      decreases if status.phase == 2 || status.phase == 3 then 1 + Rank(updater.State()) else 0
    {
      ghost var b, u := updater.device.Model(), updater.State();
      AdvanceFields(id);
      RankNatural(b, u);
      CalmCall(b, u, AdvanceRequest(id), updater.crypto, utf8);
      KnownOn(b0, u0, b, u, status, AdvanceRequest(id), updater.crypto, utf8);
      AdvanceMakesHeadway(b.Logged(Received), u, id, updater.crypto);
      if good { StageVerify(b, u, from, f, l, image, updater.crypto); }
      r := CallDevice(updater, AdvanceRequest(id), CALM, utf8);
      verifies := verifies + 1;
      if r.Err? { return; }
      status := r.value;
    }
    r := if status.phase != 4 || status.targetSlot > 1 then Err(NotActivated) else Ok(status);
  }

  /** Ask the device who it is, and open the session. */
  method BeginSession(
    updater: UsbUpdater, image: Bytes, m: HostImage, utf8: Bytes -> bool, pressed: bool, ghost good: bool
  ) returns (r: Result<DeviceStatus, HostError>)
    requires updater.Valid() && Sound(updater.device.Model(), updater.State())
    requires LoadImage(image, updater.crypto, utf8) == Ok(m)
    requires good == AllWell(updater.device.Model(), updater.State(), image, updater.crypto, utf8, pressed)
    modifies updater, updater.device
    ensures updater.Valid() && Sound(updater.device.Model(), updater.State())
    ensures r.Ok? ==> r.value.phase == 1 && r.value.sessionId != 0 && r.value.total == m.size
    ensures r.Ok? ==> Known(updater.device.Model(), updater.State(), r.value, updater.crypto)
    ensures r.Ok? && |updater.crypto.sha(image)| == 32 ==> SessionFor(updater.State(), m)
    ensures good ==>
              var f := old(updater.device.Model()).flash;
              && r.Ok?
              && Well(updater, r.value, r.value.sessionId, utf8, old(updater.device.pos), f,
                      LayoutOf(f.records, f.running).value, image)
              && updater.session.value.phase == Erasing && updater.session.value.completed == 0
  {
    hide Handle, HashersAgree, Running, SignedBelow, DispatchReply, CallOutcome, BeginRequest, Carries, InTime, Perfect;
    hide LayoutOf;
    ghost var c := updater.crypto;
    ghost var from, f := updater.device.pos, updater.device.Model().flash;
    HostAndDeviceAgree(image, c, utf8);
    CalmCall(updater.device.Model(), updater.State(), [OP_INFO], c, utf8);
    if good { InfoGood(updater.device.Model().Logged(Received), updater.State(), c); }
    var info := CallDevice(updater, [OP_INFO], CALM, utf8);
    if info.Err? { return Err(info.error); }
    if m.secureVersion < info.value.currentSecureVersion { return Err(HostRollback); }
    if good {
      HostCarries(updater.State(), m, image, c);
      BeginCall(updater.device.Model(), updater.State(), m, image, from, c, utf8);
    }
    BeginClaims(updater.device.Model(), updater.State(), m, pressed, c, utf8);
    r := CallDevice(updater, BeginRequest(m), Others(None, [], pressed), utf8);
    if r.Err? { return; }
    if good { OpenedStage(updater.device.Model(), updater.State(), from, f, image, c); }
    if r.value.phase != 1 || r.value.sessionId == 0 || r.value.total != m.size {
      r := Err(NoEraseSession);
    }
  }

  /** A live session's layout is the one in flash. */
  lemma OpenedStage(b: Backend, u: Updater, from: nat, f: Flash, image: Bytes, c: Crypto)
    requires Running(b, u, from, image, c) && Genuine(image, u, c) && b.flash == f
    ensures LayoutOf(f.records, f.running).Some?
    ensures Stage(b, u, from, f, LayoutOf(f.records, f.running).value, image, c)
  {
    hide LayoutOf, SignedBelow, Describes, InTime, Perfect;
  }

  /**
   * Install `image`. Whatever the device and its flash do, this ends; and if it ends without an error, the slot it
   * reports holds bytes with the image's hash, the described versions and a signature under the device's trusted key,
   * and the record for it is in flash. When all is well it does end so, with the image itself in the other slot, the
   * running slot untouched, and exactly as many requests as the sizes call for.
   */
  method Install(updater: UsbUpdater, image: Bytes, m: HostImage, utf8: Bytes -> bool, pressed: bool)
    returns (r: Result<Report, HostError>)
    requires updater.Valid() && Sound(updater.device.Model(), updater.State())
    requires LoadImage(image, updater.crypto, utf8) == Ok(m)
    modifies updater, updater.device
    ensures updater.Valid() && Sound(updater.device.Model(), updater.State())
    ensures r.Ok? && |updater.crypto.sha(image)| == 32 ==>
              && SessionFor(updater.State(), m) && r.value.slot == updater.session.value.targetSlot
              && ActivatedWell(updater.device.Model(), updater.State(), updater.crypto)
    ensures old(AllWell(updater.device.Model(), updater.State(), image, updater.crypto, utf8, pressed)) ==>
              var f := old(updater.device.Model()).flash;
              var l := LayoutOf(f.records, f.running).value;
              && Finished(updater.device.Model(), updater.State(), f, l, image)
              && r == Ok(Report(1 - l.activeSlot, CeilDiv(|image|, ERASE_STEP_SIZE), CeilDiv(|image|, MAX_WRITE_CHUNK),
                                CeilDiv(|image|, VERIFY_STEP_SIZE)))
  {
    hide LayoutOf, HashersAgree, Well, NewRecord, CeilDiv, AllWell, Finished, OtaCrc;
    hide Known, Continues, SessionFor, ActivatedWell, Sound;
    ghost var good := AllWell(updater.device.Model(), updater.State(), image, updater.crypto, utf8, pressed);
    ghost var from, f := updater.device.pos, updater.device.Model().flash;
    ghost var l := if LayoutOf(f.records, f.running).Some? then LayoutOf(f.records, f.running).value else UpdateLayout(0, 0, 0);
    HostAndDeviceAgree(image, updater.crypto, utf8);
    AllWellHasLayout(updater.device.Model(), updater.State(), image, updater.crypto, utf8, pressed);
    var begun := BeginSession(updater, image, m, utf8, pressed, good);
    if begun.Err? { return Err(begun.error); }
    ghost var u0 := updater.State();
    var erased, erases := EraseAll(updater, begun.value, begun.value.sessionId, utf8, good, from, f, l, image);
    if erased.Err? { return Err(erased.error); }
    ghost var u1 := updater.State();
    var written, writes := WriteAll(updater, erased.value, begun.value.sessionId, image, utf8, good, from, f, l);
    if written.Err? { return Err(written.error); }
    ContinuesOn(u0, u1, updater.State());
    ghost var u2 := updater.State();
    var done, verifies := VerifyAll(updater, written.value, begun.value.sessionId, utf8, good, from, f, l, image);
    if done.Err? { return Err(done.error); }
    KnownActivated(updater.device.Model(), updater.State(), done.value, updater.crypto);
    ContinuesOn(u0, u2, updater.State());
    SessionForOn(u0, updater.State(), m);
    r := Ok(Report(done.value.targetSlot, erases, writes, verifies));
  }

  lemma AllWellHasLayout(b: Backend, u: Updater, image: Bytes, c: Crypto, utf8: Bytes -> bool, pressed: bool)
    ensures AllWell(b, u, image, c, utf8, pressed) ==>
              LayoutOf(b.flash.records, b.flash.running).Some? && WellSized(image)
  {
  }
}
