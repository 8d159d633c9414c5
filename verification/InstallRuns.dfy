/** What the device does for the host when nothing goes wrong. */
module InstallRuns {
  import opened Words
  import opened Crc
  import opened OtaMetadata
  import opened FlashBackend
  import opened SignedImage
  import opened UsbUpdate
  import opened UpdateSoundness
  import opened VendorCommands
  import opened HostProtocol

  /** Longer than any one request's run of hardware calls. */
  const STRETCH: nat := 150

  /** From `from` on, every call reports success and does all that was asked. */
  ghost predicate Perfect(t: Tape, from: nat) {
    forall i :: from <= i ==> t(i).ok && t(i).left == None && t(i).erased && t(i).written >= OTA_ENTRY_SIZE
  }

  /** The clock does not run back; the whole run is within a lifetime and any stretch within the idle time. */
  ghost predicate InTime(t: Tape, from: nat) {
    forall i, j {:trigger t(i), t(j)} :: from <= i <= j ==>
      && t(i).now <= t(j).now
      && t(j).now < t(from).now + 900_000
      && (j <= i + STRETCH ==> t(j).now < t(i).now + 120_000)
  }

  ghost predicate Good(b: Backend, from: nat) {
    Perfect(b.tape, from) && InTime(b.tape, from) && from <= b.pos
  }

  /** The session last made progress at tape position `g`. */
  predicate Alive(b: Backend, s: Session, from: nat, g: nat) {
    && from <= g < b.pos <= g + STRETCH
    && s.phase.Live()
    && s.lastProgressMs == b.tape(g).now && s.lastCheckedMs <= b.tape(b.pos).now
    && b.tape(from).now <= s.startedMs <= s.lastProgressMs
  }

  predicate WellSized(image: Bytes) {
    SIGNATURE_SECTOR_SIZE * 2 <= |image| <= OTA_SLOT_SIZE && |image| % SIGNATURE_SECTOR_SIZE == 0
  }

  /** An image this firmware should install. */
  ghost predicate Genuine(image: Bytes, u: Updater, c: Crypto) {
    && WellSized(image)
    && (exists m :: Describes(image, m) && m.secureVersion >= u.currentSecureVersion)
    && SignedBelow(image, |image| - SIGNATURE_SECTOR_SIZE, u.trustedKeyDigest, c)
  }

  /** The session was opened for this image. */
  predicate For(s: Session, image: Bytes, c: Crypto) {
    && s.total == |image| && s.expectedHash == c.sha(image)
    && |image| >= SIGNATURE_SECTOR_SIZE * 2
    && Describes(image, ImageMetadata(s.expectedSecureVersion, s.expectedVersion))
  }

  lemma CheckAlive(b: Backend, s: Session, from: nat, g: nat)
    requires Good(b, from) && Alive(b, s, from, g) && b.pos < g + STRETCH
    ensures var (b1, s1, expired) := Check(b, s);
            && b1 == b.Next().Logged(Clock(b.Answered().now)) && s1 == s.(lastCheckedMs := b.Answered().now) && !expired
            && Good(b1, from) && Alive(b1, s1, from, g)
  {
    var t := b.tape;
    assert t(g).now <= t(b.pos).now && t(b.pos).now < t(g).now + SESSION_IDLE_TIMEOUT_MS;
    assert t(from).now <= t(b.pos).now;
    assert t(b.pos).now <= t(b.pos + 1).now;
  }

  /** Any other call leaves the session alive for the calls that remain. */
  lemma StillAlive(b: Backend, b1: Backend, s: Session, from: nat, g: nat)
    requires Good(b, from) && Alive(b, s, from, g)
    requires b1.tape == b.tape && b.pos <= b1.pos <= g + STRETCH
    ensures Good(b1, from) && Alive(b1, s, from, g)
  {
    assert b.tape(b.pos).now <= b.tape(b1.pos).now;
  }

  lemma ProgressAlive(b: Backend, u: Updater, s: Session, from: nat, g: nat)
    requires Good(b, from) && Alive(b, s, from, g) && b.pos < g + STRETCH
    ensures var o := Progressed(b, u, s);
            var now := b.Answered().now;
            var s1 := s.(lastCheckedMs := now, lastProgressMs := now);
            && o.status == Done && o.u == u.With(s1) && o.b.flash == b.flash && o.b.tape == b.tape && o.b.pos == b.pos + 1
            && Good(o.b, from) && Alive(o.b, s1, from, b.pos)
  {
    hide Check;
    CheckAlive(b, s, from, g);
    var t := b.tape;
    assert t(g).now <= t(b.pos).now && t(b.pos).now <= t(b.pos + 1).now;
  }

  /** A session right after it made progress, on flash that is as the invariant wants it. */
  ghost predicate Running(b: Backend, u: Updater, from: nat, image: Bytes, c: Crypto) {
    && Good(b, from) && u.session.Some? && 0 < b.pos
    && Alive(b, u.session.value, from, b.pos - 1)
    && SessionOk(u.session.value, b.flash)
    && For(u.session.value, image, c)
  }

  /** `a` divided by `b`, rounded up. */
  function CeilDiv(a: nat, b: nat): nat
    requires b > 0
  {
    (a + b - 1) / b
  }

  /** The poll and the check that open every ADVANCE and WRITE. */
  lemma PollAndCheck(b: Backend, u: Updater, from: nat, image: Bytes, c: Crypto)
    requires Running(b, u, from, image, c)
    ensures var (b1, u1) := PollStep(b, u);
            && u1.session.Some?
            && var (b2, s2, expired) := Check(b1, u1.session.value);
            && !expired && s2 == u.session.value.(lastCheckedMs := b1.Answered().now) && b1.pos == b.pos + 1
            && u1.With(s2) == u.With(s2)
            && b2.flash == b.flash && b2.tape == b.tape && b2.pos == b.pos + 2
            && Good(b2, from) && Alive(b2, s2, from, b.pos - 1) && SessionOk(s2, b.flash) && For(s2, image, c)
            && u1.session.value.id == u.session.value.id
  {
    hide Check, LayoutOf;
    CheckAlive(b, u.session.value, from, b.pos - 1);
    var (b1, s1, _) := Check(b, u.session.value);
    CheckAlive(b1, s1, from, b.pos - 1);
  }

  lemma EraseSucceeds(b: Backend, slot: byte, offset: nat, length: nat)
    requires InSlot(slot, offset, length) && length > 0
    requires offset % FLASH_SECTOR_SIZE == 0 && length % FLASH_SECTOR_SIZE == 0
    requires b.Answered().ok && b.Answered().left == None
    ensures var (ok, b1) := EraseSlot(b, slot, offset, length);
            && ok && b1.pos == b.pos + 1
            && b1.flash.slots[slot] == Splice(b.flash.slots[slot], offset, Fill(length, 0xff))
  {
  }

  lemma AnswersWell(b: Backend, from: nat)
    requires Good(b, from)
    ensures b.Answered().ok && b.Answered().left == None
  {
    hide InTime;
    assert b.Answered() == b.tape(b.pos);
  }

  /** The first `n` bytes of the slot are erased. */
  predicate ErasedTo(slot: Slot, n: nat) {
    n <= OTA_SLOT_SIZE && slot[..n] == Fill(n, 0xff)
  }

  lemma ErasedFurther(slot: Slot, at: nat, length: nat)
    requires ErasedTo(slot, at) && at + length <= OTA_SLOT_SIZE
    ensures ErasedTo(Splice(slot, at, Fill(length, 0xff)), at + length)
  {
    var after := Splice(slot, at, Fill(length, 0xff));
    assert after[..at + length] == after[..at] + after[at..at + length];
    assert Fill(at + length, 0xff) == Fill(at, 0xff) + Fill(length, 0xff);
  }

  /** What a good step of the erase phase leaves: 64 KiB more, or the rest, erased, and nothing else touched. */
  predicate ErasedStep(before: Slot, at: nat, total: nat, after: Slot) {
    at <= total <= OTA_SLOT_SIZE && after == Splice(before, at, Fill(Min(total - at, 0x1_0000), 0xff))
  }

  /** The erase call of a good step. */
  lemma EraseCallGood(b: Backend, s: Session, from: nat)
    requires Good(b, from) && Aimed(s) && s.completed < s.total && s.completed % ERASE_STEP_SIZE == 0
    ensures var length := Min(s.total - s.completed, ERASE_STEP_SIZE);
            var (ok, b1) := EraseSlot(b, s.targetSlot, s.completed, length);
            && ok && b1.pos == b.pos + 1 && b1.tape == b.tape && OnlySlot(b.flash, b1.flash, s.targetSlot)
            && ErasedStep(b.flash.slots[s.targetSlot], s.completed, s.total, b1.flash.slots[s.targetSlot])
  {
    hide Splice, InTime;
    var length := Min(s.total - s.completed, ERASE_STEP_SIZE);
    AnswersWell(b, from);
    EraseSucceeds(b, s.targetSlot, s.completed, length);
    EraseKeeps(b, s.targetSlot, s.completed, length);
  }

  lemma EraseGood(b: Backend, u: Updater, s: Session, from: nat, g: nat, image: Bytes, c: Crypto)
    requires Good(b, from) && Alive(b, s, from, g) && b.pos + 1 < g + STRETCH
    requires SessionOk(s, b.flash) && For(s, image, c) && s.phase == Erasing
    requires s.completed < s.total && s.completed % ERASE_STEP_SIZE == 0
    ensures var o := DoErase(b, u, s);
            && o.status == Done && Running(o.b, o.u, from, image, c) && SameClaim(s, o.u.session.value)
            && OnlySlot(b.flash, o.b.flash, s.targetSlot) && SameFirmware(u, o.u)
            && ErasedStep(b.flash.slots[s.targetSlot], s.completed, s.total, o.b.flash.slots[s.targetSlot])
            && o.u.nextSessionId == u.nextSessionId
            && var t := o.u.session.value;
            if s.completed + ERASE_STEP_SIZE >= s.total then t.phase == Receiving && t.completed == 0
            else t.phase == Erasing && t.completed == s.completed + ERASE_STEP_SIZE
  {
    hide Progressed, LayoutOf, Describes, EraseSlot, ErasedStep, InTime, Perfect;
    var length := Min(s.total - s.completed, ERASE_STEP_SIZE);
    var (ok, b1) := EraseSlot(b, s.targetSlot, s.completed, length);
    EraseCallGood(b, s, from);
    var s1 := if s.completed + length == s.total then s.(completed := 0, phase := Receiving)
              else s.(completed := s.completed + length);
    StillAlive(b, b1, s, from, g);
    ProgressAlive(b1, u.With(s1), s1, from, g);
  }

  lemma WriteGood(b: Backend, u: Updater, request: Bytes, data: Bytes, from: nat, image: Bytes, c: Crypto)
    requires Running(b, u, from, image, c) && u.session.value.phase == Receiving
    requires var s := u.session.value;
             && 0 < |data| <= MAX_WRITE_CHUNK && |data| % 32 == 0 && s.completed % 32 == 0
             && s.completed + |data| <= s.total
             && b.flash.slots[s.targetSlot][..s.completed] == image[..s.completed]
             && data == image[s.completed..s.completed + |data|]
             && request == WriteRequest(s.id, s.completed, data)
    ensures SessionFits(u)
    ensures var o := Handle(b, u, request, false, c);
            var s := u.session.value;
            && o.status == Done && Running(o.b, o.u, from, image, c) && SameClaim(s, o.u.session.value)
            && OnlySlot(b.flash, o.b.flash, s.targetSlot) && SameFirmware(u, o.u)
            && o.u.session.value.phase == Receiving && o.u.session.value.completed == s.completed + |data|
            && o.b.flash.slots[s.targetSlot][..s.completed + |data|] == image[..s.completed + |data|]
  {
    hide Progressed, LayoutOf, Describes, Check, PollStep, WriteSlot;
    var s := u.session.value;
    PollAndCheck(b, u, from, image, c);
    WriteFields(s.id, s.completed, data);
    var (b1, u1) := PollStep(b, u);
    var (b2, s2, _) := Check(b1, u1.session.value);
    var (ok, b3) := WriteSlot(b2, s.targetSlot, s.completed, data);
    WriteStores(b2, s.targetSlot, s.completed, data, image);
    WriteKeeps(b2, s.targetSlot, s.completed, data);
    StillAlive(b2, b3, s2, from, b.pos - 1);
    var s3 := s2.(completed := s.completed + |data|);
    ProgressAlive(b3, u1.With(s3), s3, from, b.pos - 1);
  }

  lemma WriteStores(b: Backend, slot: byte, offset: nat, data: Bytes, image: Bytes)
    requires slot < 2 && 0 < |data| && |data| % 32 == 0 && offset % 32 == 0
    requires offset + |data| <= |image| <= OTA_SLOT_SIZE
    requires b.Answered().ok && b.Answered().left == None
    requires b.flash.slots[slot][..offset] == image[..offset] && data == image[offset..offset + |data|]
    ensures var (ok, b1) := WriteSlot(b, slot, offset, data);
            ok && b1.pos == b.pos + 1 && b1.flash.slots[slot][..offset + |data|] == image[..offset + |data|]
  {
    var (_, b1) := WriteSlot(b, slot, offset, data);
    var after := b1.flash.slots[slot];
    assert after == Splice(b.flash.slots[slot], offset, data);
    assert after[..offset + |data|] == after[..offset] + after[offset..offset + |data|];
    assert image[..offset + |data|] == image[..offset] + image[offset..offset + |data|];
  }

  lemma CeilDivStep(n: nat)
    requires n > 0
    ensures CeilDiv(n, VERIFY_CHUNK) == 1 + CeilDiv(n - Min(n, VERIFY_CHUNK), VERIFY_CHUNK)
  {
  }

  lemma VerifyChunkGood(b: Backend, s: Session, stepEnd: nat, from: nat, g: nat)
    requires Good(b, from) && Alive(b, s, from, g) && SessionOk(s, b.flash) && s.phase == Verifying
    requires s.completed < stepEnd <= s.total && b.pos + 2 <= g + STRETCH
    ensures var (b1, s1, stopped) := VerifyChunk(b, s, stepEnd);
            && stopped.None? && b1.pos == b.pos + 2 && b1.flash == b.flash && b1.tape == b.tape
            && Good(b1, from) && Alive(b1, s1, from, g)
            && SessionOk(s1, b.flash) && SameClaim(s, s1) && s1.phase == Verifying
            && s1.completed == s.completed + Min(stepEnd - s.completed, VERIFY_CHUNK)
  {
    hide Check, LayoutOf, HashersAgree;
    CheckAlive(b, s, from, g);
    var (b0, s0, _) := Check(b, s);
    assert b0.Answered().ok;
    VerifyChunkOk(b, s, stepEnd);
    var (b1, s1, _) := VerifyChunk(b, s, stepEnd);
    StillAlive(b0, b1, s0, from, g);
  }

  lemma {:induction false} VerifyChunksGood(b: Backend, s: Session, stepEnd: nat, from: nat, g: nat)
    requires Good(b, from) && Alive(b, s, from, g) && SessionOk(s, b.flash) && s.phase == Verifying
    requires s.completed <= stepEnd <= s.total
    requires b.pos + 2 * CeilDiv(stepEnd - s.completed, VERIFY_CHUNK) <= g + STRETCH
    ensures var (b1, s1, stopped) := VerifyChunks(b, s, stepEnd);
            && stopped.None? && b1.pos == b.pos + 2 * CeilDiv(stepEnd - s.completed, VERIFY_CHUNK)
            && b1.flash == b.flash && b1.tape == b.tape
            && Good(b1, from) && Alive(b1, s1, from, g)
            && SessionOk(s1, b.flash) && SameClaim(s, s1) && s1.phase == Verifying && s1.completed == stepEnd
    decreases stepEnd - s.completed
  {
    hide VerifyChunk, SessionOk, Alive, Good, CeilDiv;
    if s.completed < stepEnd {
      CeilDivStep(stepEnd - s.completed);
      CeilDivNonNegative(stepEnd - s.completed - Min(stepEnd - s.completed, VERIFY_CHUNK));
      var (b1, s1, _) := VerifyChunk(b, s, stepEnd);
      VerifyChunkGood(b, s, stepEnd, from, g);
      VerifyChunksGood(b1, s1, stepEnd, from, g);
    } else {
      CeilDivZero();
    }
  }

  lemma CeilDivNonNegative(n: nat)
    ensures CeilDiv(n, VERIFY_CHUNK) >= 0
  {
  }

  lemma CeilDivZero()
    ensures CeilDiv(0, VERIFY_CHUNK) == 0
  {
  }

  lemma ReadLayoutGood(b: Backend, from: nat)
    requires Good(b, from)
    ensures var (l, b1) := ReadLayout(b);
            l == LayoutOf(b.flash.records, b.flash.running)
            && b1.flash == b.flash && b1.tape == b.tape && b1.log == b.log && b1.pos == b.pos + 2
  {
    hide UpdateLayoutFromEntries;
    assert b.tape(b.pos).ok && b.tape(b.pos + 1).ok;
  }

  /** The session is finished and the inactive record, and nothing else in flash, is the new one. */
  ghost predicate Installed(f: Flash, u: Updater, s: Session, o: Outcome) {
    && o.status == Done && SameFirmware(u, o.u)
    && o.u.session.Some? && o.u.session.value.phase == Activated
    && SameClaim(s, o.u.session.value) && o.u.session.value.completed == s.total
    && s.layout.activationEntry < 2
    && o.b.flash == f.(records := f.records[s.layout.activationEntry := NewRecord(s.targetSequence)])
  }

  lemma ActivateGood(b: Backend, u: Updater, s: Session, from: nat, g: nat)
    requires Good(b, from) && Alive(b, s, from, g) && b.pos + 8 <= g + STRETCH
    requires SessionOk(s, b.flash) && s.completed == s.total
    ensures var o := DoActivate(b, u, s);
            Installed(b.flash, u, s, o)
  {
    hide LayoutOf, Check, NewRecord, ReadLayout, Decode;
    var (l, b1) := ReadLayout(b);
    ReadLayoutGood(b, from);
    StillAlive(b, b1, s, from, g);
    CheckAlive(b1, s, from, g);
    var (b2, s2, _) := Check(b1, s);
    var b3 := b2.Logged(ActivateCall(s.targetSlot, s.targetSequence, s.layout.activationEntry));
    ReadLayoutGood(b3, from);
    assert b.tape(b.pos + 5).ok && b.tape(b.pos + 5).erased && b.tape(b.pos + 5).written >= OTA_ENTRY_SIZE;
    assert b.tape(b.pos + 6).ok;
    LayoutIsAimed(s);
  }

  lemma LayoutIsAimed(s: Session)
    requires Aimed(s)
    ensures ActivationIsValid(s.layout, s.targetSlot, s.targetSequence, s.layout.activationEntry)
  {
    OtherSlot(s.layout.activeSequence);
  }

  /** The slot that holds the image says what the image says. */
  lemma SameInSlot(slot: Slot, image: Bytes, trusted: Bytes, c: Crypto)
    requires WellSized(image) && slot[..|image|] == image
    ensures var limit := |image| - SIGNATURE_SECTOR_SIZE;
            SignedBelow(slot, limit, trusted, c) == SignedBelow(image, limit, trusted, c)
    ensures slot[..APP_DESCRIPTOR_PREFIX_SIZE] == image[..APP_DESCRIPTOR_PREFIX_SIZE]
  {
    hide SignedBelow;
    var limit := |image| - SIGNATURE_SECTOR_SIZE;
    AcceptedIsSigned(slot, limit, trusted, c);
    AcceptedIsSigned(image, limit, trusted, c);
    SliceOfSlice(slot, 0, |image|, 0, limit);
    SliceOfSlice(slot, 0, |image|, limit, limit + SIGNATURE_BLOCK_SIZE);
    SliceOfSlice(slot, 0, |image|, 0, APP_DESCRIPTOR_PREFIX_SIZE);
    hide Accepted;
    assert slot[0..|image|] == image && slot[0..limit] == slot[..limit] && image[0..limit] == image[..limit];
  }

  /** What verification does once both digests, the descriptor, the block and the signature are right. */
  lemma FinishActivates(b: Backend, u: Updater, s: Session, c: Crypto)
    requires s.total >= SIGNATURE_SECTOR_SIZE * 2 && s.total <= OTA_SLOT_SIZE && s.targetSlot < 2
    requires c.sha(s.fullHasher) == s.expectedHash
    requires b.tape(b.pos).ok && b.tape(b.pos + 1).ok && b.tape(b.pos + 2).ok
    requires var slot := b.flash.slots[s.targetSlot];
             && DescriptorVerdict(u, s, slot[..APP_DESCRIPTOR_PREFIX_SIZE]).None?
             && s.signedHasher == slot[..s.total - SIGNATURE_SECTOR_SIZE]
             && SignedBelow(slot, s.total - SIGNATURE_SECTOR_SIZE, u.trustedKeyDigest, c)
    ensures DoFinish(b, u, s, c) == DoActivate(b.Next().Next().Next(), u, s)
  {
    hide EspCrc32, DoActivate, DescriptorVerdict, OtaCrc, ParseSignatureBlock, SignedBelow;
    var slot := b.flash.slots[s.targetSlot];
    AcceptedIsSigned(slot, s.total - SIGNATURE_SECTOR_SIZE, u.trustedKeyDigest, c);
    assert slot[0..APP_DESCRIPTOR_PREFIX_SIZE] == slot[..APP_DESCRIPTOR_PREFIX_SIZE];
  }

  lemma ExpectedIsRight(u: Updater, s: Session, image: Bytes, c: Crypto)
    requires For(s, image, c) && Genuine(image, u, c)
    ensures DescriptorVerdict(u, s, image[..APP_DESCRIPTOR_PREFIX_SIZE]).None?
  {
    hide ParseImageMetadata, SignedBelow;
    MetadataIsBytes(image);
  }

  /** The image in the slot is the genuine one, so every check passes and activation is called. */
  lemma FinishGood(b: Backend, u: Updater, s: Session, from: nat, g: nat, image: Bytes, c: Crypto)
    requires Good(b, from) && Alive(b, s, from, g) && b.pos + 11 <= g + STRETCH
    requires SessionOk(s, b.flash) && s.phase == Verifying && s.completed == s.total
    requires For(s, image, c) && Genuine(image, u, c) && b.flash.slots[s.targetSlot][..s.total] == image
    ensures var o := DoFinish(b, u, s, c);
            Installed(b.flash, u, s, o)
  {
    hide EspCrc32, DoActivate, DoFinish, ParseImageMetadata, LayoutOf, OtaCrc, SignedBelow;
    var limit := s.total - SIGNATURE_SECTOR_SIZE;
    SameInSlot(b.flash.slots[s.targetSlot], image, u.trustedKeyDigest, c);
    ExpectedIsRight(u, s, image, c);
    assert s.fullHasher == image && s.signedHasher == b.flash.slots[s.targetSlot][..limit];
    assert b.tape(b.pos).ok && b.tape(b.pos + 1).ok && b.tape(b.pos + 2).ok;
    var b3 := b.Next().Next().Next();
    FinishActivates(b, u, s, c);
    StillAlive(b, b3, s, from, g);
    ActivateGood(b3, u, s, from, g);
  }

  /** One step's worth of reading back: at most 64 chunks of two calls each, then a check. */
  lemma ReadBackGood(b: Backend, s: Session, stepEnd: nat, from: nat, g: nat)
    requires Good(b, from) && Alive(b, s, from, g) && b.pos <= g + 5
    requires SessionOk(s, b.flash) && s.phase == Verifying
    requires s.completed <= stepEnd <= s.total && stepEnd <= s.completed + VERIFY_STEP_SIZE
    ensures var (b1, s1, stopped) := VerifyChunks(b, s, stepEnd);
            var (b2, s2, expired) := Check(b1, s1);
            && stopped.None? && !expired && b2.pos <= g + 134 && b2.flash == b.flash && b2.tape == b.tape
            && Good(b2, from) && Alive(b2, s2, from, g)
            && SessionOk(s2, b.flash) && SameClaim(s, s2) && s2.phase == Verifying && s2.completed == stepEnd
  {
    hide VerifyChunks, Check, SessionOk;
    assert CeilDiv(stepEnd - s.completed, VERIFY_CHUNK) <= 64;
    VerifyChunksGood(b, s, stepEnd, from, g);
    var (b1, s1, _) := VerifyChunks(b, s, stepEnd);
    CheckAlive(b1, s1, from, g);
    CheckOk(b1, s1);
  }

  lemma VerifyMore(b: Backend, u: Updater, s: Session, from: nat, g: nat, image: Bytes, c: Crypto)
    requires Good(b, from) && Alive(b, s, from, g) && b.pos <= g + 5
    requires SessionOk(s, b.flash) && s.phase == Verifying && s.completed + VERIFY_STEP_SIZE < s.total
    requires For(s, image, c)
    ensures var o := DoVerify(b, u, s, c);
            && o.status == Done && Running(o.b, o.u, from, image, c) && SameFirmware(u, o.u)
            && SameClaim(s, o.u.session.value) && o.b.flash == b.flash
            && o.u.session.value.phase == Verifying
            && o.u.session.value.completed == s.completed + VERIFY_STEP_SIZE
  {
    hide VerifyChunks, Check, Progressed, DoFinish, LayoutOf, Describes, HashersAgree;
    var stepEnd := s.completed + VERIFY_STEP_SIZE;
    ReadBackGood(b, s, stepEnd, from, g);
    var (b1, s1, _) := VerifyChunks(b, s, stepEnd);
    var (b2, s2, _) := Check(b1, s1);
    ProgressAlive(b2, u.With(s2), s2, from, g);
    ProgressedOk(b2, u.With(s2), s2);
  }

  lemma VerifyLast(b: Backend, u: Updater, s: Session, from: nat, g: nat, image: Bytes, c: Crypto)
    requires Good(b, from) && Alive(b, s, from, g) && b.pos <= g + 5
    requires SessionOk(s, b.flash) && s.phase == Verifying && s.total <= s.completed + VERIFY_STEP_SIZE
    requires For(s, image, c) && Genuine(image, u, c) && b.flash.slots[s.targetSlot][..s.total] == image
    ensures Installed(b.flash, u, s, DoVerify(b, u, s, c))
  {
    hide VerifyChunks, Check, Progressed, DoFinish, LayoutOf, Describes, SignedBelow, HashersAgree, NewRecord;
    hide InTime, Perfect;
    ReadBackGood(b, s, s.total, from, g);
    var (b1, s1, _) := VerifyChunks(b, s, s.total);
    var (b2, s2, _) := Check(b1, s1);
    FinishGood(b2, u.With(s2), s2, from, g, image, c);
  }

  // The same at the level of requests.

  lemma AdvanceErasing(b: Backend, u: Updater, from: nat, image: Bytes, c: Crypto)
    requires Running(b, u, from, image, c) && u.session.value.phase == Erasing
    requires u.session.value.completed < u.session.value.total && u.session.value.completed % ERASE_STEP_SIZE == 0
    ensures SessionFits(u) && u.session.value.targetSlot < 2
    ensures var s := u.session.value;
            var o := Handle(b, u, AdvanceRequest(s.id), false, c);
            && o.status == Done && Running(o.b, o.u, from, image, c) && SameClaim(s, o.u.session.value)
            && OnlySlot(b.flash, o.b.flash, s.targetSlot) && SameFirmware(u, o.u)
            && ErasedStep(b.flash.slots[s.targetSlot], s.completed, s.total, o.b.flash.slots[s.targetSlot])
            && var t := o.u.session.value;
            if s.completed + ERASE_STEP_SIZE >= s.total then t.phase == Receiving && t.completed == 0
            else t.phase == Erasing && t.completed == s.completed + ERASE_STEP_SIZE
  {
    hide Progressed, LayoutOf, Describes, Check, PollStep, DoErase, AdvanceRequest, HashersAgree, ErasedStep;
    var s := u.session.value;
    PollAndCheck(b, u, from, image, c);
    AdvanceFields(s.id);
    var (b1, u1) := PollStep(b, u);
    var (b2, s2, _) := Check(b1, u1.session.value);
    EraseGood(b2, u1.With(s2), s2, from, b.pos - 1, image, c);
  }

  /** The session whose read-back an ADVANCE starts or continues. */
  function ReadingBack(s: Session): Session {
    if s.phase == Verifying then s else s.(phase := Verifying, completed := 0, fullHasher := [], signedHasher := [])
  }

  /** Verification has come to its good end, or is one step further. */
  ghost predicate VerifiedStep(b: Backend, u: Updater, o: Outcome, from: nat, image: Bytes, c: Crypto)
    requires u.session.Some?
  {
    var s := ReadingBack(u.session.value);
    if s.completed + VERIFY_STEP_SIZE >= s.total then Installed(b.flash, u, s, o)
    else
      && o.status == Done && Running(o.b, o.u, from, image, c) && SameClaim(s, o.u.session.value)
      && o.b.flash == b.flash && SameFirmware(u, o.u)
      && o.u.session.value.phase == Verifying && o.u.session.value.completed == s.completed + VERIFY_STEP_SIZE
  }

  lemma AdvanceVerifying(b: Backend, u: Updater, from: nat, image: Bytes, c: Crypto)
    requires Running(b, u, from, image, c)
    requires var s := u.session.value;
             s.phase == Verifying || (s.phase == Receiving && s.completed == s.total)
    requires Genuine(image, u, c)
    requires b.flash.slots[u.session.value.targetSlot][..u.session.value.total] == image
    ensures SessionFits(u)
    ensures VerifiedStep(b, u, Handle(b, u, AdvanceRequest(u.session.value.id), false, c), from, image, c)
  {
    hide LayoutOf, Describes, Check, PollStep, DoVerify, AdvanceRequest, SignedBelow, NewRecord, InTime, Perfect;
    PollAndCheck(b, u, from, image, c);
    AdvanceFields(u.session.value.id);
    var (b1, u1) := PollStep(b, u);
    var (b2, s2, _) := Check(b1, u1.session.value);
    var s := ReadingBack(s2);
    if s.completed + VERIFY_STEP_SIZE >= s.total {
      VerifyLast(b2, u1.With(s), s, from, b.pos - 1, image, c);
    } else {
      VerifyMore(b2, u1.With(s), s, from, b.pos - 1, image, c);
    }
  }

  /** The fields of a BEGIN request are those of the image the host loaded. */
  predicate Carries(request: Bytes, m: HostImage, image: Bytes, u: Updater, c: Crypto) {
    && BeginRefusal(u, request).None?
    && FromLe32(request[1..5]) == m.size == |image| && request[5..37] == m.sha256 == c.sha(image)
    && FromLe32(request[37..41]) == m.secureVersion && request[42..] == m.version
    && |image| >= SIGNATURE_SECTOR_SIZE * 2
    && Describes(image, ImageMetadata(m.secureVersion, m.version))
  }

  lemma BeginOpens(b: Backend, u: Updater, request: Bytes, m: HostImage, image: Bytes, from: nat, c: Crypto)
    requires Good(b, from) && Carries(request, m, image, u, c)
    requires LayoutOf(b.flash.records, b.flash.running).Some? && u.nextSessionId != 0
    ensures var o := DoBegin(b, u, request, true);
            && o.status == Done && Running(o.b, o.u, from, image, c) && o.b.flash == b.flash && SameFirmware(u, o.u)
            && o.u.session.value.phase == Erasing && o.u.session.value.completed == 0 && o.u.session.value.id != 0
  {
    hide LayoutOf, ReadLayout, Progressed, BeginRefusal, OpenedSession, NextSequence, HashersAgree, Aimed;
    var (started, b2) := ReadStartClock(b);
    var (l, b3) := ReadLayout(b2);
    ReadLayoutGood(b2, from);
    LayoutHasNext(b.flash);
    OpenedOk(u, request, started, l.value, b.flash);
    var s := OpenedFor(u, request, started, l.value, image, m, c);
    var b4 := b3.Logged(Opened(s.id));
    assert b.tape(from).now <= b.tape(b.pos).now <= b.tape(b.pos + 3).now;
    var u1 := u.(nextSessionId := NextSessionId(u.nextSessionId)).With(s);
    ProgressAlive(b4, u1, s, from, b.pos);
    ProgressedOk(b4, u1, s);
  }

  lemma HostCarries(u: Updater, m: HostImage, image: Bytes, c: Crypto)
    requires Genuine(image, u, c) && |c.sha(image)| == 32
    requires Describes(image, ImageMetadata(m.secureVersion, m.version))
    requires m.size == |image| && m.sha256 == c.sha(image)
    ensures |m.version| <= MAX_VERSION_LENGTH
    ensures BeginRequest(m) != [] && BeginRequest(m)[0] == OP_BEGIN && Carries(BeginRequest(m)[1..], m, image, u, c)
  {
    hide SignedBelow;
    MetadataIsBytes(image);
    BeginFields(m);
    BeginNotRefused(u, m, BeginRequest(m)[1..]);
  }

  /** A well-formed BEGIN with a press opens a session for the image. */
  lemma BeginGood(b: Backend, u: Updater, m: HostImage, image: Bytes, from: nat, c: Crypto)
    requires Good(b, from) && Sound(b, u)
    requires m.size <= OTA_SLOT_SIZE && |m.version| < 0x100
    requires BeginRequest(m)[0] == OP_BEGIN && Carries(BeginRequest(m)[1..], m, image, u, c)
    requires LayoutOf(b.flash.records, b.flash.running).Some? && u.nextSessionId != 0
    ensures SessionFits(u)
    ensures var o := Handle(b, u, BeginRequest(m), true, c);
            && o.status == Done && Running(o.b, o.u, from, image, c) && o.b.flash == b.flash && SameFirmware(u, o.u)
            && o.u.session.value.phase == Erasing && o.u.session.value.completed == 0 && o.u.session.value.id != 0
    ensures var o := Handle(b, u, BeginRequest(m), false, c);
            && o.status == UserPresenceRequired && o.b.flash == b.flash && o.u.nextSessionId == u.nextSessionId
            && SameFirmware(u, o.u) && Good(o.b, from)
  {
    hide LayoutOf, PollStep, DoBegin, Describes, HashersAgree, Running, InTime, Perfect;
    var (b1, u1) := PollStep(b, u);
    PollOk(b, u);
    PollAdvances(b, u, from);
    var request := BeginRequest(m)[1..];
    assert Carries(request, m, image, u1, c);
    BeginOpens(b1, u1, request, m, image, from, c);
    BeginAsks(b1, u1, request);
  }

  lemma BeginAsks(b: Backend, u: Updater, request: Bytes)
    requires BeginRefusal(u, request).None?
    ensures DoBegin(b, u, request, false) == Outcome(b, u, UserPresenceRequired)
  {
  }

  lemma PollAdvances(b: Backend, u: Updater, from: nat)
    requires Good(b, from)
    ensures var (b1, u1) := PollStep(b, u);
            && Good(b1, from) && b1.pos <= b.pos + 1 && u1.nextSessionId == u.nextSessionId
            && SameFirmware(u, u1)
  {
  }

  lemma LayoutHasNext(f: Flash)
    requires LayoutOf(f.records, f.running).Some?
    ensures var l := LayoutOf(f.records, f.running).value;
            l.activeSlot < 2 && l.activationEntry < 2 && NextSequence(l.activeSequence, 1 - l.activeSlot).Some?
  {
    LayoutShape(DecodeBoth(f.records), f.running);
    hide UpdateLayoutFromEntries;
    NextSequenceIsNext(LayoutOf(f.records, f.running).value);
  }

  lemma BeginNotRefused(u: Updater, m: HostImage, request: Bytes)
    requires |request| == BEGIN_FIXED + |m.version| && 0 < |m.version| <= MAX_VERSION_LENGTH
    requires request[0] == PROTOCOL_VERSION && FromLe32(request[1..5]) == m.size
    requires FromLe32(request[37..41]) == m.secureVersion && request[41] == |m.version|
    requires SIGNATURE_SECTOR_SIZE * 2 <= m.size <= OTA_SLOT_SIZE && m.size % SIGNATURE_SECTOR_SIZE == 0
    requires m.secureVersion >= u.currentSecureVersion
    ensures BeginRefusal(u, request).None?
  {
  }

  function OpenedFor(
    u: Updater, request: Bytes, started: u64, layout: UpdateLayout, image: Bytes, m: HostImage, c: Crypto
  ): (s: Session)
    requires Carries(request, m, image, u, c) && layout.activeSlot <= 1
    requires NextSequence(layout.activeSequence, 1 - layout.activeSlot).Some?
    ensures BeginRefusal(u, request).None?
    ensures s == OpenedSession(u, request, started, layout, NextSequence(layout.activeSequence, 1 - layout.activeSlot).value)
    ensures For(s, image, c) && s.phase == Erasing && s.completed == 0 && s.id == u.nextSessionId
    ensures s.startedMs == s.lastProgressMs == s.lastCheckedMs == started
  {
    OpenedSession(u, request, started, layout, NextSequence(layout.activeSequence, 1 - layout.activeSlot).value)
  }
}
