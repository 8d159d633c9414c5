/** The request handler, changing its session and the flash in place. */
module UsbUpdaterClass {
  import opened Words
  import opened Crc
  import opened OtaMetadata
  import opened FlashBackend
  import opened SignedImage
  import opened UsbUpdate
  import opened UpdateSoundness
  import opened VendorCommands

  class UsbUpdater {
    const device: FlashDevice
    const crypto: Crypto
    const trustedKeyDigest: Bytes
    const currentVersion: Bytes
    const currentSecureVersion: u32
    var nextSessionId: u32
    var session: Option<Session>

    ghost function State(): Updater
      reads this
    {
      Updater(trustedKeyDigest, currentVersion, currentSecureVersion, nextSessionId, session)
    }

    ghost predicate Valid()
      reads this
    {
      SessionFits(State()) && 0 < |currentVersion| <= MAX_VERSION_LENGTH
    }

    constructor (device: FlashDevice, crypto: Crypto, trusted: Bytes, version: Bytes, secureVersion: u32)
      requires 0 < |version| <= MAX_VERSION_LENGTH
      ensures Valid() && this.device == device && this.crypto == crypto
      ensures State() == Updater(trusted, version, secureVersion, 1, None)
    {
      this.device, this.crypto, this.trustedKeyDigest := device, crypto, trusted;
      this.currentVersion, this.currentSecureVersion := version, secureVersion;
      this.nextSessionId, this.session := 1, None;
    }

    method FailWith(failure: StatusCode) returns (status: StatusCode)
      requires session.Some?
      modifies this`session
      ensures session == Some(old(session.value).FailedWith(failure)) && status == failure
    {
      session := Some(session.value.(phase := Failed, failure := failure));
      status := failure;
    }

    /** Apply the deadlines to a clock reading. */
    method Expire(now: u64) returns (expired: bool)
      requires session.Some?
      modifies this`session
      ensures session.Some? && (session.value, expired) == old(session.value).Expire(now)
    {
      var s := session.value;
      if !s.phase.Live() { return s.failure == SessionExpired; }
      expired := now < s.lastCheckedMs
        || SaturatingSub(now, s.startedMs) >= SESSION_MAX_LIFETIME_MS
        || SaturatingSub(now, s.lastProgressMs) >= SESSION_IDLE_TIMEOUT_MS;
      session := Some(s.(lastCheckedMs := now));
      if expired { var _ := FailWith(SessionExpired); }
    }

    method CheckDeadlines() returns (expired: bool)
      requires session.Some?
      modifies device`pos, device`log, this`session
      ensures session.Some? && (device.Model(), session.value, expired) == Check(old(device.Model()), old(session.value))
    {
      var now := device.NowMs();
      expired := Expire(now);
    }

    method MakeProgress() returns (status: StatusCode)
      requires session.Some?
      modifies device`pos, device`log, this`session
      ensures Outcome(device.Model(), State(), status)
           == Progressed(old(device.Model()), old(State()), old(session.value))
    {
      var now := device.NowMs();
      var expired := Expire(now);
      if expired { return SessionExpired; }
      session := Some(session.value.(lastProgressMs := now));
      device.Note(Progress(session.value.id));
      status := Done;
    }

    method Poll()
      requires Valid()
      modifies device`pos, device`log, this`session
      ensures (device.Model(), State()) == PollStep(old(device.Model()), old(State()))
      ensures Valid()
    {
      if session.Some? {
        var _ := CheckDeadlines();
      }
    }

    method BeginUpdate(request: Bytes, userPresent: bool) returns (status: StatusCode)
      requires Valid()
      modifies this, device
      ensures Outcome(device.Model(), State(), status)
           == DoBegin(old(device.Model()), old(State()), request, userPresent)
    {
      hide OtaCrc, ReadLayout, NextSequence, Progressed;
      if |request| < BEGIN_FIXED || request[0] != PROTOCOL_VERSION { return InvalidRequest; }
      var total := FromLe32(request[1..5]);
      var versionLength := request[41] as nat;
      if |request| != BEGIN_FIXED + versionLength || versionLength == 0 || versionLength > MAX_VERSION_LENGTH {
        return InvalidRequest;
      }
      if !(SIGNATURE_SECTOR_SIZE * 2 <= total <= OTA_SLOT_SIZE) || total % SIGNATURE_SECTOR_SIZE != 0 {
        return ImageSize;
      }
      var secureVersion := FromLe32(request[37..41]);
      if secureVersion < currentSecureVersion { return Rollback; }
      if !userPresent { return UserPresenceRequired; }
      var started := device.NowMs(true);
      var layout := device.Layout();
      if layout.None? { return FlashError; }
      if layout.value.activeSlot > 1 || layout.value.activationEntry > 1 { return InvalidState; }
      var targetSlot := 1 - layout.value.activeSlot;
      var targetSequence := NextSequence(layout.value.activeSequence, targetSlot);
      if targetSequence.None? { return InvalidState; }
      var id := nextSessionId;
      nextSessionId := if id == U32_MAX then 1 else id + 1;
      session := Some(Session(
        started, started, started, id, Erasing, targetSlot, layout.value, targetSequence.value, total,
        request[5..37], secureVersion, request[42..], 0, [], [], Done));
      device.Note(Opened(id));
      status := MakeProgress();
    }

    method WriteChunk(request: Bytes) returns (status: StatusCode)
      requires Valid()
      modifies device, this`session
      ensures Outcome(device.Model(), State(), status) == DoWrite(old(device.Model()), old(State()), request)
    {
      hide Progressed, WriteSlot;
      if |request| < 9 || |request| > 9 + MAX_WRITE_CHUNK { return InvalidRequest; }
      var id := FromLe32(request[..4]);
      var offset := FromLe32(request[4..8]);
      var data := request[8..];
      if session.None? { return InvalidState; }
      if session.value.id != id { return SessionMismatch; }
      var expired := CheckDeadlines();
      if expired { return SessionExpired; }
      if session.value.phase != Receiving { return InvalidState; }
      if |data| == 0 || |data| % 32 != 0 { return InvalidRequest; }
      if offset != session.value.completed { return OutOfOrder; }
      if offset + |data| > U32_MAX { return ImageSize; }
      var end := offset + |data|;
      if end > session.value.total { return ImageSize; }
      var ok := device.Write(session.value.targetSlot, offset, data);
      if !ok {
        status := FailWith(FlashError);
        return;
      }
      session := Some(session.value.(completed := end));
      status := MakeProgress();
    }

    method EraseStep() returns (status: StatusCode)
      requires session.Some? && session.value.completed <= session.value.total
      modifies device, this`session
      ensures Outcome(device.Model(), State(), status)
           == DoErase(old(device.Model()), old(State()), old(session.value))
      ensures var s := old(session.value);
              var left := s.total - s.completed;
              old(device.log) + [EraseCall(s.targetSlot, s.completed, if left < 0x1_0000 then left else 0x1_0000)] <= device.log
    {
      hide SetSlot;
      var length := Min(session.value.total - session.value.completed, ERASE_STEP_SIZE);
      var ok := device.Erase(session.value.targetSlot, session.value.completed, length);
      if !ok {
        status := FailWith(FlashError);
        return;
      }
      session := Some(session.value.(completed := session.value.completed + length));
      if session.value.completed == session.value.total {
        session := Some(session.value.(completed := 0, phase := Receiving));
      }
      status := MakeProgress();
    }

    method ReadChunk(stepEnd: nat) returns (stopped: Option<StatusCode>)
      requires session.Some? && session.value.completed < stepEnd
      modifies device`pos, device`log, this`session
      ensures session.Some? && (device.Model(), session.value, stopped)
           == VerifyChunk(old(device.Model()), old(session.value), stepEnd)
    {
      var expired := CheckDeadlines();
      if expired { return Some(SessionExpired); }
      var s := session.value;
      var length := Min(stepEnd - s.completed, VERIFY_CHUNK);
      var chunk := device.Read(s.targetSlot, s.completed, length);
      if chunk.None? {
        var status := FailWith(FlashError);
        return Some(status);
      }
      var signed := s.signedHasher + SignedPart(s, chunk.value);
      session := Some(s.(
        fullHasher := s.fullHasher + chunk.value, signedHasher := signed, completed := s.completed + length));
      stopped := None;
    }

    method ReadBack(stepEnd: nat) returns (stopped: Option<StatusCode>)
      requires session.Some?
      modifies device`pos, device`log, this`session
      ensures session.Some? && (device.Model(), session.value, stopped)
           == VerifyChunks(old(device.Model()), old(session.value), stepEnd)
    {
      hide VerifyChunk;
      while session.value.completed < stepEnd
        invariant session.Some?
        invariant VerifyChunks(device.Model(), session.value, stepEnd)
               == VerifyChunks(old(device.Model()), old(session.value), stepEnd)
        decreases stepEnd - session.value.completed
      {
        stopped := ReadChunk(stepEnd);
        if stopped.Some? { return; }
      }
      stopped := None;
    }

    method VerifyStep() returns (status: StatusCode)
      requires session.Some? && session.value.total >= SIGNATURE_SECTOR_SIZE * 2
      modifies device, this`session
      ensures Outcome(device.Model(), State(), status)
           == DoVerify(old(device.Model()), old(State()), old(session.value), crypto)
    {
      hide DoFinish, Check, Progressed, VerifyChunks;
      var stepEnd := Min(session.value.completed + VERIFY_STEP_SIZE, session.value.total);
      var stopped := ReadBack(stepEnd);
      if stopped.Some? { return stopped.value; }
      var expired := CheckDeadlines();
      if expired { return SessionExpired; }
      if session.value.completed != session.value.total {
        status := MakeProgress();
        return;
      }
      status := FinishVerification();
    }

    method FinishVerification() returns (status: StatusCode)
      requires session.Some? && session.value.total >= SIGNATURE_SECTOR_SIZE * 2
      modifies device, this`session
      ensures Outcome(device.Model(), State(), status)
           == DoFinish(old(device.Model()), old(State()), old(session.value), crypto)
      ensures old(SessionOk(session.value, device.Model().flash)) && old(session.value.phase == Verifying) &&
              old(session.value.completed == session.value.total) && device.log != old(device.log) ==>
                Passes(old(device.Model().flash), old(State()), old(session.value), crypto)
    {
      ghost var b, u, s := device.Model(), State(), session.value;
      PassesWhenItLogs(b, u, s, crypto);
      hide ParseSignatureBlock, DoActivate, ParseImageMetadata, ReadSlot, VerifyRsaPss, Passes, SessionOk;
      if crypto.sha(session.value.fullHasher) != session.value.expectedHash {
        status := FailWith(HashMismatch);
        return;
      }
      var descriptor := device.Read(session.value.targetSlot, 0, APP_DESCRIPTOR_PREFIX_SIZE);
      if descriptor.None? {
        status := FailWith(FlashError);
        return;
      }
      var metadata := ParseImageMetadata(descriptor.value);
      if metadata.None? {
        status := FailWith(BadSignatureStatus);
        return;
      }
      if metadata.value.secureVersion < currentSecureVersion {
        status := FailWith(Rollback);
        return;
      }
      if metadata.value.secureVersion != session.value.expectedSecureVersion
         || metadata.value.version != session.value.expectedVersion
      {
        status := FailWith(VersionMismatch);
        return;
      }
      var digest := crypto.sha(session.value.signedHasher);
      var block := device.Read(session.value.targetSlot, session.value.total - SIGNATURE_SECTOR_SIZE, SIGNATURE_BLOCK_SIZE);
      if block.None? {
        status := FailWith(FlashError);
        return;
      }
      var signature := ParseSignatureBlock(block.value, trustedKeyDigest, crypto);
      if signature.None? || signature.value.imageDigest != digest {
        status := FailWith(BadSignatureStatus);
        return;
      }
      var valid := device.VerifyRsa(crypto, signature.value.publicKey, signature.value.signature, digest);
      if valid.None? {
        status := FailWith(FlashError);
        return;
      }
      if !valid.value {
        status := FailWith(BadSignatureStatus);
        return;
      }
      status := ActivateVerified();
    }

    method ActivateVerified() returns (status: StatusCode)
      requires session.Some?
      modifies device, this`session
      ensures Outcome(device.Model(), State(), status)
           == DoActivate(old(device.Model()), old(State()), old(session.value))
    {
      hide OtaCrc, ActivateUpdate, ReadLayout;
      var layout := device.Layout();
      if layout.None? {
        status := FailWith(FlashError);
        return;
      }
      if layout.value.activeSlot != session.value.layout.activeSlot
         || layout.value.activeSequence != session.value.layout.activeSequence
         || layout.value.activationEntry != session.value.layout.activationEntry
      {
        status := FailWith(ActiveSlotChanged);
        return;
      }
      // The signature and the layout took time; the deadline is checked again right before the commit.
      var expired := CheckDeadlines();
      if expired { return SessionExpired; }
      var ok := device.Activate(session.value.targetSlot, session.value.targetSequence, session.value.layout.activationEntry);
      if !ok {
        status := FailWith(FlashError);
        return;
      }
      session := Some(session.value.(phase := Activated, failure := Done));
      status := Done;
    }

    method AdvanceUpdate(request: Bytes) returns (status: StatusCode)
      requires Valid()
      modifies device, this`session
      ensures Outcome(device.Model(), State(), status) == DoAdvance(old(device.Model()), old(State()), request, crypto)
    {
      hide DoVerify, DoErase;
      var id := ParseSessionId(request);
      if id.None? { return InvalidRequest; }
      if session.None? { return InvalidState; }
      if session.value.id != id.value { return SessionMismatch; }
      var expired := CheckDeadlines();
      if expired { return SessionExpired; }
      match session.value.phase {
        case Erasing => status := EraseStep();
        case Receiving =>
          if session.value.completed != session.value.total { return InvalidState; }
          session := Some(session.value.(phase := Verifying, completed := 0, fullHasher := [], signedHasher := []));
          status := VerifyStep();
        case Verifying => status := VerifyStep();
        case Activated => status := Done;
        case Failed => status := session.value.failure;
        case Idle => status := InvalidState;
      }
    }

    method StatusOf(request: Bytes) returns (status: StatusCode)
      ensures status == DoStatus(State(), request)
    {
      if request == [] { return Done; }
      var id := ParseSessionId(request);
      if id.None? { return InvalidRequest; }
      if session.None? { return InvalidState; }
      if session.value.id != id.value { return SessionMismatch; }
      status := if session.value.phase == Failed then session.value.failure else Done;
    }

    method AbortUpdate(request: Bytes) returns (status: StatusCode)
      modifies this`session
      ensures Outcome(device.Model(), State(), status) == DoAbort(old(device.Model()), old(State()), request)
      ensures status == Done ==> session == None
    {
      var id := ParseSessionId(request);
      if id.None? { return InvalidRequest; }
      if session.None? { return InvalidState; }
      if session.value.id == id.value && session.value.phase != Activated {
        session := None;
        return Done;
      }
      status := if session.value.id != id.value then SessionMismatch else InvalidState;
    }

    method HandleOperation(request: Bytes, userPresent: bool) returns (status: StatusCode)
      requires Valid()
      modifies this, device
      ensures Outcome(device.Model(), State(), status)
           == HandleInner(old(device.Model()), old(State()), request, userPresent, crypto)
    {
      hide DoAdvance, DoBegin, DoWrite;
      if request == [] { return InvalidRequest; }
      var operation := ParseOperation(request[0]);
      if operation.None? { return InvalidRequest; }
      match operation.value {
        case Info => status := if |request| == 1 then Done else InvalidRequest;
        case Begin => status := BeginUpdate(request[1..], userPresent);
        case Write => status := WriteChunk(request[1..]);
        case Advance => status := AdvanceUpdate(request[1..]);
        case Status => status := StatusOf(request[1..]);
        case Abort => status := AbortUpdate(request[1..]);
      }
    }

    /** Serve one request and encode the answer. */
    method HandleRequest(request: Bytes, userPresent: bool) returns (response: Bytes)
      requires Valid() && Sound(device.Model(), State())
      modifies this, device
      ensures Valid() && Sound(device.Model(), State())
      ensures Reply(device.Model(), State(), response)
           == HandleReply(old(device.Model()), old(State()), request, userPresent, crypto)
    {
      hide HandleInner, PollStep, LayoutOf, HashersAgree;
      HandleEffect(device.Model(), State(), request, userPresent, crypto);
      Poll();
      var status := HandleOperation(request, userPresent);
      response := Encode(status);
    }

    method Encode(status: StatusCode) returns (response: Bytes)
      requires Valid()
      ensures response == EncodeResponse(State(), status)
    {
      var phase, slot, id, completed, total := Idle, 0xff, 0, 0, 0;
      if session.Some? {
        phase, slot, id := session.value.phase, session.value.targetSlot, session.value.id;
        completed, total := session.value.completed, session.value.total;
      }
      response := [status.Code(), PROTOCOL_VERSION, phase.Code(), slot]
        + ToLe32(id) + ToLe32(completed) + ToLe32(total) + ToLe32(currentSecureVersion)
        + [|currentVersion|] + currentVersion;
    }

    /** Route a vendor request; ask the user only when the first answer says so. */
    method DispatchVendor(request: Bytes, others: Others) returns (response: Bytes)
      requires Valid() && Sound(device.Model(), State())
      modifies this, device
      ensures Valid() && Sound(device.Model(), State())
      ensures Reply(device.Model(), State(), response)
           == DispatchReply(old(device.Model()), old(State()), request, others, crypto)
    {
      hide HandleReply, LayoutOf, HashersAgree;
      device.Note(Received);
      if others.diagnostics.Some? {
        response := others.diagnostics.value;
      } else if request == [SECURITY_STATUS_REQUEST] {
        response := others.securityStatus;
      } else {
        response := HandleRequest(request, false);
      }
      if AsksForPresence(response) && others.pressed {
        device.Note(Approved);
        response := HandleRequest(request, true);
      }
    }
  }
}
