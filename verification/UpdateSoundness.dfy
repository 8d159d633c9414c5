/** What any request may do to flash, and what is true of the image when one is activated. */
module UpdateSoundness {
  import opened Words
  import opened Crc
  import opened OtaMetadata
  import opened FlashBackend
  import opened SignedImage
  import opened UsbUpdate

  /** The layout a faithful read of the records finds. */
  function LayoutOf(r: Records, running: u32): Option<UpdateLayout> {
    UpdateLayoutFromEntries(DecodeBoth(r), running)
  }

  /** The target is the other slot and the next sequence. */
  predicate Aimed(s: Session) {
    && s.layout.activeSlot < 2 && s.layout.activationEntry < 2
    && SlotOf(s.layout.activeSequence) == Some(s.layout.activeSlot)
    && s.targetSlot == 1 - s.layout.activeSlot
    && s.targetSequence == s.layout.activeSequence + 1
    && SIGNATURE_SECTOR_SIZE * 2 <= s.total <= OTA_SLOT_SIZE
    && s.total % SIGNATURE_SECTOR_SIZE == 0
    && s.completed <= s.total
  }

  /** While verifying, the hashers hold exactly the bytes read so far. */
  predicate HashersAgree(s: Session, f: Flash)
    requires Aimed(s)
  {
    s.phase == Verifying ==>
      && s.fullHasher == f.slots[s.targetSlot][..s.completed]
      && s.signedHasher == f.slots[s.targetSlot][..Min(s.completed, s.total - SIGNATURE_SECTOR_SIZE)]
  }

  predicate SessionOk(s: Session, f: Flash) {
    Aimed(s) && (s.phase.Live() ==> LayoutOf(f.records, f.running) == Some(s.layout)) && HashersAgree(s, f)
  }

  predicate Sound(b: Backend, u: Updater) {
    u.session.Some? ==> SessionOk(u.session.value, b.flash)
  }

  /** Everything that has been established about the target slot when it is activated. */
  ghost predicate Certified(f: Flash, u: Updater, s: Session, c: Crypto)
    requires Aimed(s)
  {
    var slot := f.slots[s.targetSlot];
    && c.sha(slot[..s.total]) == s.expectedHash
    && Describes(slot, ImageMetadata(s.expectedSecureVersion, s.expectedVersion))
    && s.expectedSecureVersion >= u.currentSecureVersion
    && SignedBelow(slot, s.total - SIGNATURE_SECTOR_SIZE, u.trustedKeyDigest, c)
    && LayoutOf(f.records, f.running) == Some(s.layout)
  }

  /** The claim of a session, which no request changes. */
  predicate SameClaim(s: Session, t: Session) {
    && s.id == t.id && s.layout == t.layout && s.targetSlot == t.targetSlot && s.targetSequence == t.targetSequence
    && s.total == t.total && s.expectedHash == t.expectedHash && s.startedMs == t.startedMs
    && s.expectedSecureVersion == t.expectedSecureVersion && s.expectedVersion == t.expectedVersion
  }

  predicate SameFirmware(u: Updater, v: Updater) {
    && u.trustedKeyDigest == v.trustedKeyDigest
    && u.currentVersion == v.currentVersion
    && u.currentSecureVersion == v.currentSecureVersion
  }

  /** Only the target slot's bytes differ. */
  predicate OnlySlot(f: Flash, g: Flash, slot: byte)
    requires slot < 2
  {
    f.records == g.records && f.running == g.running && f.slots[1 - slot] == g.slots[1 - slot]
  }

  /** Only the record that activation may replace differs, and it holds some prefix of the new record. */
  ghost predicate OnlyRecord(f: Flash, g: Flash, s: Session)
    requires Aimed(s)
  {
    exists a: Answer :: g == f.(records := f.records[
      s.layout.activationEntry := Attempted(f.records[s.layout.activationEntry], NewRecord(s.targetSequence), a)])
  }

  /**
   * The only three things a request can do to flash: nothing; erase or write the target slot of an
   * open session that is still erasing or receiving; or, with a single activation call, replace the
   * inactive record, and then only when everything about the target slot has been established.
   */
  ghost predicate Effect(b: Backend, u: Updater, o: Outcome, c: Crypto) {
    && o.b.tape == b.tape
    && SameFirmware(u, o.u)
    && (|| (o.b.flash == b.flash && Activations(o.b.log) == Activations(b.log) && !NewlyActivated(u, o.u))
        || (exists s :: WorkedOn(b, u, o, s))
        || (exists s :: Committed(b, u, o, s, c)))
  }

  predicate NewlyActivated(u: Updater, v: Updater) {
    v.CurrentPhase() == Activated && u.CurrentPhase() != Activated
  }

  /** How often the backend was told to activate. */
  function Activations(log: seq<Event>): nat {
    if log == [] then 0
    else Activations(log[..|log| - 1]) + if log[|log| - 1].ActivateCall? then 1 else 0
  }

  lemma ActivationsNext(log: seq<Event>, e: Event)
    ensures Activations(log + [e]) == Activations(log) + if e.ActivateCall? then 1 else 0
  {
    assert (log + [e])[..|log|] == log;
  }

  ghost predicate WorkedOn(b: Backend, u: Updater, o: Outcome, s: Session) {
    && u.session.Some? && SameClaim(u.session.value, s)
    && (u.session.value.phase == Erasing || u.session.value.phase == Receiving)
    && Aimed(s) && LayoutOf(b.flash.records, b.flash.running) == Some(s.layout) && OnlySlot(b.flash, o.b.flash, s.targetSlot)
    && Activations(o.b.log) == Activations(b.log) && !NewlyActivated(u, o.u)
  }

  ghost predicate Committed(b: Backend, u: Updater, o: Outcome, s: Session, c: Crypto) {
    && u.session.Some? && SameClaim(u.session.value, s)
    && (u.session.value.phase == Receiving || u.session.value.phase == Verifying)
    && o.u.session.Some? && SameClaim(s, o.u.session.value)
    && (o.u.session.value.phase == Activated || o.u.session.value.phase == Failed)
    && Aimed(s) && Certified(b.flash, u, s, c) && OnlyRecord(b.flash, o.b.flash, s)
    && (o.u.session.value.phase == Activated ==> o.b.flash.records[s.layout.activationEntry] == NewRecord(s.targetSequence))
    && Activations(o.b.log) == Activations(b.log) + 1
  }

  /** The sequence that follows an active one is the next number: the target slot has the other parity. */
  lemma NextSequenceIsNext(layout: UpdateLayout)
    requires SlotOf(layout.activeSequence) == Some(layout.activeSlot)
    ensures NextSequence(layout.activeSequence, 1 - layout.activeSlot) ==
            if layout.activeSequence == U32_MAX then None else Some(layout.activeSequence + 1)
  {
  }

  /** For any sequence and slot: the least greater sequence that names the slot, when there is one in 32 bits. */
  lemma NextSequenceIsLeast(current: u32, target: byte)
    ensures var next := NextSequence(current, target);
            && (current == 0 || target > 1 ==> next == None)
            && (next.Some? ==> next.value > current && SlotOf(next.value) == Some(target))
            && (current != 0 ==> forall n: u32 :: n > current && SlotOf(n) == Some(target) && target < 2 ==>
                  next.Some? && next.value <= n)
  {
  }

  lemma LayoutShape(e: Entries, running: u32)
    ensures var l := UpdateLayoutFromEntries(e, running);
            l.Some? ==>
              && l.value.activeSlot < 2 && l.value.activationEntry < 2 && l.value.activeSequence != U32_MAX
              && SlotOf(l.value.activeSequence) == Some(l.value.activeSlot)
              && e[1 - l.value.activationEntry].sequence == l.value.activeSequence
              && ActiveEntry(e) == Some((1 - l.value.activationEntry) as nat)
              && e[1 - l.value.activationEntry].IsSelectable()
              && e[1 - l.value.activationEntry].state == STATE_VALID
              && UpdateSlotOffset(l.value.activeSlot) == Some(running)
  {
    hide OtaCrc;
  }

  /** A layout that was read is the layout. */
  lemma ReadLayoutFaithful(b: Backend)
    ensures var (l, b1) := ReadLayout(b);
            b1.flash == b.flash && b1.tape == b.tape && b1.log == b.log && (l.Some? ==> LayoutOf(b.flash.records, b.flash.running) == l)
  {
    hide OtaCrc;
  }

  lemma ProgressedOk(b: Backend, u: Updater, s: Session)
    requires SessionOk(s, b.flash)
    ensures var o := Progressed(b, u, s);
            && o.b.flash == b.flash && o.b.tape == b.tape && SameFirmware(u, o.u) && Sound(o.b, o.u)
            && o.u.session.Some? && SameClaim(s, o.u.session.value)
            && (o.u.session.value.phase == s.phase || o.u.session.value.phase == Failed)
            && Activations(o.b.log) == Activations(b.log)
  {
    hide OtaCrc, LayoutOf, Activations;
    var now := b.Answered().now;
    ActivationsNext(b.log, Clock(now));
    ActivationsNext(b.log + [Clock(now)], Progress(s.id));
  }

  /** A session opens on a layout that was just read, aimed at the other slot. */
  lemma OpenedOk(u: Updater, request: Bytes, started: u64, layout: UpdateLayout, f: Flash)
    requires BeginRefusal(u, request).None? && LayoutOf(f.records, f.running) == Some(layout)
    ensures layout.activeSlot <= 1
    ensures var sequence := NextSequence(layout.activeSequence, 1 - layout.activeSlot);
            sequence.Some? ==> SessionOk(OpenedSession(u, request, started, layout, sequence.value), f)
  {
    LayoutShape(DecodeBoth(f.records), f.running);
    hide UpdateLayoutFromEntries;
    NextSequenceIsNext(layout);
  }

  lemma BeginEffect(b: Backend, u: Updater, request: Bytes, userPresent: bool, c: Crypto)
    requires Sound(b, u)
    ensures var o := DoBegin(b, u, request, userPresent);
            Effect(b, u, o, c) && Sound(o.b, o.u) && o.b.flash == b.flash
  {
    hide LayoutOf, ReadLayout, Progressed, BeginRefusal, NextSequence, HashersAgree, Aimed, Activations;
    if BeginRefusal(u, request).None? && userPresent {
      var (started, b1) := ReadStartClock(b);
      ActivationsNext(b.log, StartClock(started));
      var (layout, b2) := ReadLayout(b1);
      ReadLayoutFaithful(b1);
      if layout.Some? {
        OpenedOk(u, request, started, layout.value, b.flash);
        var sequence := NextSequence(layout.value.activeSequence, 1 - layout.value.activeSlot);
        if sequence.Some? {
          var s := OpenedSession(u, request, started, layout.value, sequence.value);
          ActivationsNext(b2.log, Opened(s.id));
          ProgressedOk(b2.Logged(Opened(s.id)), u.(nextSessionId := NextSessionId(u.nextSessionId)).With(s), s);
        }
      }
    }
  }

  lemma CheckOk(b: Backend, s: Session)
    requires SessionOk(s, b.flash)
    ensures var (b1, s1, expired) := Check(b, s);
            && b1.flash == b.flash && b1.tape == b.tape && SameClaim(s, s1) && SessionOk(s1, b.flash)
            && s1.completed == s.completed
            && (s.phase.Live() && !expired ==> s1.phase == s.phase)
            && (!s.phase.Live() ==> s1 == s)
            && (s1.phase == s.phase || s1.phase == Failed)
            && Activations(b1.log) == Activations(b.log)
  {
    hide OtaCrc, LayoutOf, Activations;
    ActivationsNext(b.log, Clock(b.Answered().now));
  }

  lemma WriteEffect(b: Backend, u: Updater, request: Bytes, c: Crypto)
    requires Sound(b, u)
    ensures var o := DoWrite(b, u, request);
            Effect(b, u, o, c) && Sound(o.b, o.u)
  {
    hide OtaCrc, LayoutOf, Progressed, Check, Committed, WriteSlot, Activations;
    var o := DoWrite(b, u, request);
    if |request| >= 9 && u.session.Some? {
      var (b1, s, expired) := Check(b, u.session.value);
      CheckOk(b, u.session.value);
      var offset, data := FromLe32(request[4..8]), request[8..];
      var (ok, b2) := WriteSlot(b1, s.targetSlot, offset, data);
      WriteKeeps(b1, s.targetSlot, offset, data);
      if !expired && s.phase == Receiving && offset + |data| <= s.total && ok {
        var s1 := s.(completed := offset + |data|);
        ProgressedOk(b2, u.With(s1), s1);
      }
      if o.b.flash != b.flash {
        assert WorkedOn(b, u, o, u.session.value);
      }
    }
  }

  lemma EraseKeeps(b: Backend, slot: byte, offset: nat, length: nat)
    requires slot < 2
    ensures var (_, b1) := EraseSlot(b, slot, offset, length);
            b1.tape == b.tape && Activations(b1.log) == Activations(b.log) && OnlySlot(b.flash, b1.flash, slot)
  {
    hide Activations;
    ActivationsNext(b.log, EraseCall(slot, offset, length));
  }

  lemma WriteKeeps(b: Backend, slot: byte, offset: nat, data: Bytes)
    requires slot < 2
    ensures var (_, b1) := WriteSlot(b, slot, offset, data);
            b1.tape == b.tape && Activations(b1.log) == Activations(b.log) && OnlySlot(b.flash, b1.flash, slot)
  {
    hide Activations;
    ActivationsNext(b.log, WriteCall(slot, offset, |data|));
  }

  lemma EraseEffect(b: Backend, u: Updater, s: Session, c: Crypto)
    requires u.session == Some(s) && SessionOk(s, b.flash) && s.phase == Erasing
    ensures var o := DoErase(b, u, s);
            Effect(b, u, o, c) && Sound(o.b, o.u)
  {
    hide OtaCrc, LayoutOf, Progressed, Committed, EraseSlot, Activations;
    var o := DoErase(b, u, s);
    var length := Min(s.total - s.completed, ERASE_STEP_SIZE);
    var (ok, b1) := EraseSlot(b, s.targetSlot, s.completed, length);
    EraseKeeps(b, s.targetSlot, s.completed, length);
    if ok {
      var s1 := if s.completed + length == s.total then s.(completed := 0, phase := Receiving)
                else s.(completed := s.completed + length);
      ProgressedOk(b1, u.With(s1), s1);
    }
    if o.b.flash != b.flash {
      assert WorkedOn(b, u, o, s);
    }
  }

  lemma {:induction false} VerifyChunksOk(b: Backend, s: Session, stepEnd: nat)
    requires SessionOk(s, b.flash) && s.phase == Verifying && s.completed <= stepEnd <= s.total
    ensures var (b1, s1, stopped) := VerifyChunks(b, s, stepEnd);
            && b1.flash == b.flash && b1.tape == b.tape
            && SessionOk(s1, b.flash) && SameClaim(s, s1) && Activations(b1.log) == Activations(b.log)
            && (stopped.None? ==> s1.phase == Verifying && s1.completed == stepEnd)
            && (s1.phase == Verifying || s1.phase == Failed)
    decreases stepEnd - s.completed
  {
    hide OtaCrc, LayoutOf, Activations;
    if s.completed < stepEnd {
      var (b1, s1, stopped) := VerifyChunk(b, s, stepEnd);
      ActivationsNext(b.log, Clock(b.Answered().now));
      if stopped.None? {
        VerifyChunkOk(b, s, stepEnd);
        VerifyChunksOk(b1, s1, stepEnd);
      }
    }
  }

  lemma VerifyChunkOk(b: Backend, s: Session, stepEnd: nat)
    requires SessionOk(s, b.flash) && s.phase == Verifying && s.completed < stepEnd <= s.total
    requires VerifyChunk(b, s, stepEnd).2.None?
    ensures var (b1, s1, _) := VerifyChunk(b, s, stepEnd);
            && b1.flash == b.flash && b1.tape == b.tape
            && SessionOk(s1, b.flash) && SameClaim(s, s1) && s1.phase == Verifying
  {
    hide OtaCrc, LayoutOf, Activations;
    var (_, s1, _) := VerifyChunk(b, s, stepEnd);
    PrefixGrows(b.flash.slots[s.targetSlot], s.completed, s1.completed - s.completed, s.total - SIGNATURE_SECTOR_SIZE);
  }

  lemma PrefixGrows(slot: Bytes, at: nat, n: nat, limit: nat)
    requires at + n <= |slot| && limit <= |slot|
    ensures slot[..at] + slot[at..at + n] == slot[..at + n]
    ensures at < limit ==> slot[..at] + slot[at..at + n][..Min(limit - at, n)] == slot[..Min(at + n, limit)]
    ensures slot[..limit] + [] == slot[..limit]
  {
    if at < limit {
      var m := Min(limit - at, n);
      SliceOfSlice(slot, at, at + n, 0, m);
      PrefixAndSlice(slot, at, at + m);
    }
  }

  lemma PrefixAndSlice(b: Bytes, from: nat, to: nat)
    requires from <= to <= |b|
    ensures b[..from] + b[from..to] == b[..to]
  {
  }

  /** The checks before activation, on the bytes the hashers took in. */
  predicate Passes(f: Flash, u: Updater, s: Session, c: Crypto)
    requires Aimed(s)
  {
    var slot := f.slots[s.targetSlot];
    && c.sha(slot[..s.total]) == s.expectedHash
    && Describes(slot, ImageMetadata(s.expectedSecureVersion, s.expectedVersion))
    && s.expectedSecureVersion >= u.currentSecureVersion
    && SignedBelow(slot, s.total - SIGNATURE_SECTOR_SIZE, u.trustedKeyDigest, c)
  }

  /** Verification either fails the session without touching flash or goes on to activate a sound image. */
  lemma FinishPasses(b: Backend, u: Updater, s: Session, c: Crypto)
    requires u.session == Some(s) && SessionOk(s, b.flash) && s.phase == Verifying && s.completed == s.total
    ensures var o := DoFinish(b, u, s, c);
            || (o.b.flash == b.flash && o.b.tape == b.tape && o.b.log == b.log && o.u == u.With(s.FailedWith(o.status)))
            || (Passes(b.flash, u, s, c) && exists b3: Backend ::
                  b3.flash == b.flash && b3.tape == b.tape && b3.log == b.log && o == DoActivate(b3, u, s))
  {
    hide OtaCrc, DoActivate, ParseImageMetadata, LayoutOf, ReadSlot, VerifyRsaPss, ParseSignatureBlock, SignedBelow;
    hide Describes;
    var slot := b.flash.slots[s.targetSlot];
    var limit := s.total - SIGNATURE_SECTOR_SIZE;
    MetadataIsBytes(slot);
    AcceptedIsSigned(slot, limit, u.trustedKeyDigest, c);
    var (descriptor, b1) := ReadSlot(b, s.targetSlot, 0, APP_DESCRIPTOR_PREFIX_SIZE);
    ReadKeeps(b, s.targetSlot, 0, APP_DESCRIPTOR_PREFIX_SIZE);
    var (block, b2) := ReadSlot(b1, s.targetSlot, limit, SIGNATURE_BLOCK_SIZE);
    ReadKeeps(b1, s.targetSlot, limit, SIGNATURE_BLOCK_SIZE);
    assert slot[0..APP_DESCRIPTOR_PREFIX_SIZE] == slot[..APP_DESCRIPTOR_PREFIX_SIZE];
    assert s.fullHasher == slot[..s.total] && s.signedHasher == slot[..limit];
    if block.Some? {
      var signature := ParseSignatureBlock(block.value, u.trustedKeyDigest, c);
      if signature.Some? {
        var digest := c.sha(s.signedHasher);
        VerifyKeeps(b2, c, signature.value.publicKey, signature.value.signature, digest);
        var (valid, b3) := VerifyRsaPss(b2, c, signature.value.publicKey, signature.value.signature, digest);
        var o := DoFinish(b, u, s, c);
        if o != FailOutcome(b3, u, s, o.status) && o != FailOutcome(b2, u, s, o.status)
           && o != FailOutcome(b1, u, s, o.status) && o != FailOutcome(b, u, s, o.status)
        {
          assert o == DoActivate(b3, u, s);
          assert Accepted(block.value, digest, u.trustedKeyDigest, c);
        }
      }
    }
  }

  /** The log moves only when verification goes on to activate. */
  lemma PassesWhenItLogs(b: Backend, u: Updater, s: Session, c: Crypto)
    requires u.session == Some(s) && s.total >= SIGNATURE_SECTOR_SIZE * 2
    ensures SessionOk(s, b.flash) && s.phase == Verifying && s.completed == s.total && DoFinish(b, u, s, c).b.log != b.log ==>
              Passes(b.flash, u, s, c)
  {
    hide DoFinish, DoActivate, Passes, SessionOk;
    if SessionOk(s, b.flash) && s.phase == Verifying && s.completed == s.total { FinishPasses(b, u, s, c); }
  }

  lemma ReadKeeps(b: Backend, slot: byte, offset: nat, length: nat)
    ensures var (data, b1) := ReadSlot(b, slot, offset, length);
            b1.flash == b.flash && b1.tape == b.tape && b1.log == b.log
            && (data.Some? ==> |data.value| == length)
  {
  }

  lemma VerifyKeeps(b: Backend, c: Crypto, key: Bytes, signature: Bytes, digest: Bytes)
    ensures var (valid, b1) := VerifyRsaPss(b, c, key, signature, digest);
            b1.flash == b.flash && b1.tape == b.tape && b1.log == b.log
            && (valid.Some? ==> valid.value == c.rsa(key, signature, digest))
  {
  }

  lemma ActivateEffect(b: Backend, u: Updater, s: Session, c: Crypto)
    requires u.session == Some(s) && SessionOk(s, b.flash) && s.phase == Verifying
    requires Passes(b.flash, u, s, c)
    ensures var o := DoActivate(b, u, s);
            Effect(b, u, o, c) && Sound(o.b, o.u)
  {
    hide OtaCrc, SignedBelow, Describes, ReadLayout, LayoutOf, Check, ActivateUpdate, Activations;
    var (layout, b1) := ReadLayout(b);
    ReadLayoutFaithful(b);
    var (b2, s2, expired) := Check(b1, s);
    CheckOk(b1, s);
    var o := DoActivate(b, u, s);
    if layout == Some(s.layout) && !expired {
      CommitCall(b2, s2);
      assert Committed(b, u, o, s, c);
    }
  }

  /** The activation call can only replace the inactive record, and succeeds only when the new one is in place. */
  lemma CommitCall(b: Backend, s: Session)
    requires Aimed(s)
    ensures var (ok, b1) := ActivateUpdate(b, s.targetSlot, s.targetSequence, s.layout.activationEntry);
            && b1.tape == b.tape && OnlyRecord(b.flash, b1.flash, s)
            && (ok ==> b1.flash.records[s.layout.activationEntry] == NewRecord(s.targetSequence))
            && Activations(b1.log) == Activations(b.log) + 1
  {
    hide OtaCrc, ReadLayout, NewRecord, Activations;
    var e := ActivateCall(s.targetSlot, s.targetSequence, s.layout.activationEntry);
    ActivationsNext(b.log, e);
    ReadLayoutFaithful(b.Logged(e));
    var index := s.layout.activationEntry;
    var nothing := Answer(0, false, None, false, 0);
    assert b.flash.records[index := b.flash.records[index]] == b.flash.records;
    assert Attempted(b.flash.records[index], NewRecord(s.targetSequence), nothing) == b.flash.records[index];
  }

  lemma FinishEffect(b: Backend, u: Updater, s: Session, c: Crypto)
    requires u.session == Some(s) && SessionOk(s, b.flash) && s.phase == Verifying && s.completed == s.total
    ensures var o := DoFinish(b, u, s, c);
            Effect(b, u, o, c) && Sound(o.b, o.u)
  {
    hide OtaCrc, DoFinish, DoActivate, LayoutOf, Passes;
    FinishPasses(b, u, s, c);
    var o := DoFinish(b, u, s, c);
    if !(o.b.flash == b.flash && o.b.tape == b.tape && o.b.log == b.log && o.u == u.With(s.FailedWith(o.status))) {
      var b3: Backend :| b3.flash == b.flash && b3.tape == b.tape && b3.log == b.log && o == DoActivate(b3, u, s);
      ActivateEffect(b3, u, s, c);
      EffectFrom(b, b3, u, o, c);
    }
  }

  /** An effect depends on the backend only through its flash, its tape and the activations so far. */
  lemma EffectFrom(b: Backend, b3: Backend, u: Updater, o: Outcome, c: Crypto)
    requires b3.flash == b.flash && b3.tape == b.tape && Activations(b3.log) == Activations(b.log)
    requires Effect(b3, u, o, c)
    ensures Effect(b, u, o, c)
  {
    hide LayoutOf, Certified, OnlyRecord, Activations;
    if s :| WorkedOn(b3, u, o, s) {
      assert WorkedOn(b, u, o, s);
    } else if s :| Committed(b3, u, o, s, c) {
      assert Committed(b, u, o, s, c);
    }
  }

  /** A later moment of the same session, with flash still as it was. */
  ghost predicate Later(b: Backend, u: Updater, b1: Backend, u1: Updater) {
    && b1.flash == b.flash && b1.tape == b.tape && SameFirmware(u, u1)
    && Activations(b1.log) == Activations(b.log)
    && u.session.Some? && u1.session.Some? && SameClaim(u.session.value, u1.session.value)
    && (u1.session.value.phase == Activated <==> u.session.value.phase == Activated)
    && (u1.session.value.phase == Erasing ==> u.session.value.phase == Erasing)
    && (u1.session.value.phase == Receiving ==> u.session.value.phase == Receiving)
    && (u1.session.value.phase == Verifying ==> u.session.value.phase == Receiving || u.session.value.phase == Verifying)
  }

  lemma EffectFromLater(b: Backend, u: Updater, b1: Backend, u1: Updater, o: Outcome, c: Crypto)
    requires Later(b, u, b1, u1) && Effect(b1, u1, o, c)
    ensures Effect(b, u, o, c)
  {
    hide LayoutOf, SignedBelow, Describes, OnlyRecord, Activations;
    if s :| WorkedOn(b1, u1, o, s) {
      assert WorkedOn(b, u, o, s);
    } else if s :| Committed(b1, u1, o, s, c) {
      assert Committed(b, u, o, s, c);
    }
  }

  lemma VerifyEffect(b: Backend, u: Updater, s: Session, c: Crypto)
    requires u.session == Some(s) && SessionOk(s, b.flash) && s.phase == Verifying
    ensures var o := DoVerify(b, u, s, c);
            Effect(b, u, o, c) && Sound(o.b, o.u)
  {
    hide OtaCrc, LayoutOf, VerifyChunks, Check, DoFinish, Progressed, HashersAgree, Effect, Activations;
    var stepEnd := Min(s.completed + VERIFY_STEP_SIZE, s.total);
    var (b1, s1, stopped) := VerifyChunks(b, s, stepEnd);
    VerifyChunksOk(b, s, stepEnd);
    var (b2, s2, expired) := Check(b1, s1);
    CheckOk(b1, s1);
    var o := DoVerify(b, u, s, c);
    if stopped.Some? || expired {
      QuietEffect(b, u, o, c);
    } else if s2.completed != s2.total {
      ProgressedOk(b2, u.With(s2), s2);
      QuietEffect(b, u, o, c);
    } else {
      FinishEffect(b2, u.With(s2), s2, c);
      EffectFromLater(b, u, b2, u.With(s2), o, c);
    }
  }

  lemma QuietEffect(b: Backend, u: Updater, o: Outcome, c: Crypto)
    requires o.b.flash == b.flash && o.b.tape == b.tape && SameFirmware(u, o.u)
    requires Activations(o.b.log) == Activations(b.log) && !NewlyActivated(u, o.u)
    ensures Effect(b, u, o, c)
  {
  }

  lemma AdvanceEffect(b: Backend, u: Updater, request: Bytes, c: Crypto)
    requires Sound(b, u)
    ensures SessionFits(u)
    ensures var o := DoAdvance(b, u, request, c);
            Effect(b, u, o, c) && Sound(o.b, o.u)
  {
    hide OtaCrc, LayoutOf, Check, DoVerify, DoErase, Effect, Activations;
    var id := ParseSessionId(request);
    var o := DoAdvance(b, u, request, c);
    if id.Some? && u.session.Some? && u.session.value.id == id.value {
      var (b1, s, expired) := Check(b, u.session.value);
      CheckOk(b, u.session.value);
      if !expired && s.phase == Erasing {
        EraseEffect(b1, u.With(s), s, c);
        EffectFromLater(b, u, b1, u.With(s), o, c);
      } else if !expired && ((s.phase == Receiving && s.completed == s.total) || s.phase == Verifying) {
        var s1 := if s.phase == Verifying then s
                  else s.(phase := Verifying, completed := 0, fullHasher := [], signedHasher := []);
        VerifyEffect(b1, u.With(s1), s1, c);
        EffectFromLater(b, u, b1, u.With(s1), o, c);
      } else {
        QuietEffect(b, u, o, c);
      }
    } else {
      QuietEffect(b, u, o, c);
    }
  }

  lemma PollOk(b: Backend, u: Updater)
    requires Sound(b, u)
    ensures var (b1, u1) := PollStep(b, u);
            && Sound(b1, u1) && SameFirmware(u, u1) && b1.flash == b.flash && b1.tape == b.tape
            && (u.session.Some? ==> Later(b, u, b1, u1)) && (u.session.None? ==> u1 == u && b1 == b)
  {
    hide OtaCrc, LayoutOf, Check, HashersAgree, Activations;
    if u.session.Some? { CheckOk(b, u.session.value); }
  }

  lemma HandleInnerEffect(b: Backend, u: Updater, request: Bytes, userPresent: bool, c: Crypto)
    requires Sound(b, u)
    ensures SessionFits(u)
    ensures var o := HandleInner(b, u, request, userPresent, c);
            Effect(b, u, o, c) && Sound(o.b, o.u)
  {
    hide OtaCrc, LayoutOf, DoBegin, DoWrite, DoAdvance, HashersAgree, WorkedOn, Committed, Activations;
    if request != [] && ParseOperation(request[0]).Some? {
      match ParseOperation(request[0]).value
      case Begin => BeginEffect(b, u, request[1..], userPresent, c);
      case Write => WriteEffect(b, u, request[1..], c);
      case Advance => AdvanceEffect(b, u, request[1..], c);
      case Info =>
      case Status =>
      case Abort =>
    }
  }

  /**
   * The classification, for every request in every reachable state. The invariant `Sound` it keeps says
   * that a live session always aims away from the slot the bootloader would pick, and that the
   * streaming hashers hold what flash holds.
   */
  lemma HandleEffect(b: Backend, u: Updater, request: Bytes, userPresent: bool, c: Crypto)
    requires Sound(b, u)
    ensures SessionFits(u)
    ensures var o := Handle(b, u, request, userPresent, c);
            Effect(b, u, o, c) && Sound(o.b, o.u)
  {
    hide OtaCrc, LayoutOf, PollStep, HandleInner, HashersAgree, Effect;
    var (b1, u1) := PollStep(b, u);
    PollOk(b, u);
    HandleInnerEffect(b1, u1, request, userPresent, c);
    var o := Handle(b, u, request, userPresent, c);
    if u.session.Some? {
      EffectFromLater(b, u, b1, u1, o, c);
    } else {
      EffectFrom(b, b1, u, o, c);
    }
  }

  /**
   * Activation soundness. If any request leads to an activation call, it is exactly one, and at that
   * moment flash holds, in the slot the session aimed at when it began: an image whose hash is the
   * one in BEGIN, whose descriptor is the one claimed and not below the running floor, whose
   * signature block signs everything below it under the trusted key; and the layout is the one read
   * at BEGIN.
   */
  lemma ActivationSound(b: Backend, u: Updater, request: Bytes, userPresent: bool, c: Crypto)
    requires Sound(b, u)
    ensures SessionFits(u)
    ensures var o := Handle(b, u, request, userPresent, c);
            Activations(o.b.log) != Activations(b.log) ==>
              && Activations(o.b.log) == Activations(b.log) + 1
              && u.session.Some? && Aimed(u.session.value) && Certified(b.flash, u, u.session.value, c)
              && o.b.flash.slots == b.flash.slots
              && o.u.session.Some? && !o.u.session.value.phase.Live()
              && (o.u.session.value.phase == Activated ==>
                    var s := u.session.value;
                    o.b.flash.records[s.layout.activationEntry] == NewRecord(s.targetSequence))
  {
    hide OtaCrc, LayoutOf, Handle, SignedBelow, Describes, Activations, HashersAgree;
    HandleEffect(b, u, request, userPresent, c);
    var o := Handle(b, u, request, userPresent, c);
    if Activations(o.b.log) != Activations(b.log) {
      var s :| Committed(b, u, o, s, c);
    }
  }

  // What a session that reads activated stands for.

  /** The slot's bytes are the image the session was opened for, signed under the trusted key, and its record is written. */
  ghost predicate ActivatedWell(b: Backend, u: Updater, c: Crypto) {
    && u.session.Some?
    && var s := u.session.value;
    && s.phase == Activated && Aimed(s)
    && var slot := b.flash.slots[s.targetSlot];
    && c.sha(slot[..s.total]) == s.expectedHash
    && Describes(slot, ImageMetadata(s.expectedSecureVersion, s.expectedVersion))
    && SignedBelow(slot, s.total - SIGNATURE_SECTOR_SIZE, u.trustedKeyDigest, c)
    && b.flash.records[s.layout.activationEntry] == NewRecord(s.targetSequence)
  }

  /** No request makes a session read activated in any other way. */
  lemma NewlyActivatedWell(b: Backend, u: Updater, request: Bytes, userPresent: bool, c: Crypto)
    requires Sound(b, u)
    ensures SessionFits(u)
    ensures var o := Handle(b, u, request, userPresent, c);
            NewlyActivated(u, o.u) ==> ActivatedWell(o.b, o.u, c)
  {
    hide OtaCrc, LayoutOf, Handle, SignedBelow, Describes, Activations, HashersAgree, NewRecord;
    HandleEffect(b, u, request, userPresent, c);
    var o := Handle(b, u, request, userPresent, c);
    if NewlyActivated(u, o.u) {
      var s :| Committed(b, u, o, s, c);
    }
  }

  /** The session is still the one it was. */
  predicate Continues(u: Updater, v: Updater) {
    u.session.Some? ==> v.session.Some? && SameClaim(u.session.value, v.session.value)
  }

  lemma ActivateContinues(b: Backend, u: Updater, s: Session)
    ensures var o := DoActivate(b, u, s);
            o.u.session.Some? && SameClaim(s, o.u.session.value)
  {
    hide ReadLayout, Check, ActivateUpdate;
    var (_, b1) := ReadLayout(b);
    CheckContinues(b1, s);
  }

  lemma CheckContinues(b: Backend, s: Session)
    ensures SameClaim(s, Check(b, s).1)
  {
  }

  lemma FinishContinues(b: Backend, u: Updater, s: Session, c: Crypto)
    requires s.total >= SIGNATURE_SECTOR_SIZE * 2
    ensures var o := DoFinish(b, u, s, c);
            o.u.session.Some? && SameClaim(s, o.u.session.value)
  {
    hide ReadSlot, DescriptorVerdict, ParseSignatureBlock, VerifyRsaPss, DoActivate;
    var (_, b1) := ReadSlot(b, s.targetSlot, 0, APP_DESCRIPTOR_PREFIX_SIZE);
    ReadKeeps(b, s.targetSlot, 0, APP_DESCRIPTOR_PREFIX_SIZE);
    var (block, b2) := ReadSlot(b1, s.targetSlot, s.total - SIGNATURE_SECTOR_SIZE, SIGNATURE_BLOCK_SIZE);
    ReadKeeps(b1, s.targetSlot, s.total - SIGNATURE_SECTOR_SIZE, SIGNATURE_BLOCK_SIZE);
    if block.Some? && ParseSignatureBlock(block.value, u.trustedKeyDigest, c).Some? {
      var p := ParseSignatureBlock(block.value, u.trustedKeyDigest, c).value;
      var (_, b3) := VerifyRsaPss(b2, c, p.publicKey, p.signature, c.sha(s.signedHasher));
      ActivateContinues(b3, u, s);
    }
  }

  lemma VerifyContinues(b: Backend, u: Updater, s: Session, c: Crypto)
    requires SessionOk(s, b.flash) && s.phase == Verifying
    ensures var o := DoVerify(b, u, s, c);
            o.u.session.Some? && SameClaim(s, o.u.session.value)
  {
    hide LayoutOf, VerifyChunks, Check, DoFinish, HashersAgree;
    var stepEnd := Min(s.completed + VERIFY_STEP_SIZE, s.total);
    VerifyChunksOk(b, s, stepEnd);
    var (b1, s1, stopped) := VerifyChunks(b, s, stepEnd);
    if stopped.None? {
      var (b2, s2, expired) := Check(b1, s1);
      CheckOk(b1, s1);
      if !expired && s2.completed == s2.total { FinishContinues(b2, u.With(s2), s2, c); }
    }
  }

  lemma ProgressContinues(b: Backend, u: Updater, s: Session)
    ensures var o := Progressed(b, u, s);
            o.u.session.Some? && SameClaim(s, o.u.session.value)
  {
  }

  lemma WriteContinues(b: Backend, u: Updater, request: Bytes)
    requires Sound(b, u)
    ensures Continues(u, DoWrite(b, u, request).u)
  {
    hide LayoutOf, HashersAgree, Check, WriteSlot, Progressed, Aimed, Activations;
    if |request| >= 9 && u.session.Some? {
      var (b1, s, expired) := Check(b, u.session.value);
      CheckOk(b, u.session.value);
      var s1 := s.(completed := FromLe32(request[4..8]) + |request[8..]|);
      var (ok, b2) := WriteSlot(b1, s.targetSlot, FromLe32(request[4..8]), request[8..]);
      ProgressContinues(b2, u.With(s1), s1);
    }
  }

  lemma EraseContinues(b: Backend, u: Updater, s: Session)
    requires s.completed <= s.total
    ensures var o := DoErase(b, u, s);
            o.u.session.Some? && SameClaim(s, o.u.session.value)
  {
    hide EraseSlot, Progressed;
    var length := Min(s.total - s.completed, ERASE_STEP_SIZE);
    var (ok, b1) := EraseSlot(b, s.targetSlot, s.completed, length);
    var s1 := if s.completed + length == s.total then s.(completed := 0, phase := Receiving)
              else s.(completed := s.completed + length);
    ProgressContinues(b1, u.With(s1), s1);
  }

  lemma AdvanceContinues(b: Backend, u: Updater, request: Bytes, c: Crypto)
    requires Sound(b, u)
    ensures SessionFits(u)
    ensures Continues(u, DoAdvance(b, u, request, c).u)
  {
    hide OtaCrc, LayoutOf, Check, DoVerify, DoErase, Activations;
    if u.session.Some? {
      var (b1, s, expired) := Check(b, u.session.value);
      CheckOk(b, u.session.value);
      if !expired && s.phase == Erasing {
        EraseContinues(b1, u.With(s), s);
      } else if !expired && ((s.phase == Receiving && s.completed == s.total) || s.phase == Verifying) {
        var s1 := if s.phase == Verifying then s
                  else s.(phase := Verifying, completed := 0, fullHasher := [], signedHasher := []);
        VerifyContinues(b1, u.With(s1), s1, c);
      }
    }
  }

  /** Neither WRITE nor ADVANCE replaces the session. */
  lemma WorkContinues(b: Backend, u: Updater, request: Bytes, userPresent: bool, c: Crypto)
    requires Sound(b, u) && request != [] && request[0] in {2, 3}
    ensures SessionFits(u)
    ensures Continues(u, Handle(b, u, request, userPresent, c).u)
  {
    hide LayoutOf, HashersAgree, PollStep, DoWrite, DoAdvance, Activations;
    var (b1, u1) := PollStep(b, u);
    PollOk(b, u);
    if request[0] == 2 { WriteContinues(b1, u1, request[1..]); } else { AdvanceContinues(b1, u1, request[1..], c); }
  }
}
