/**
 * The signed update protocol: what one request does to the session and to flash.
 *
 * The functions say what each handler leaves behind; `UsbUpdater` is the handler itself.
 */
module UsbUpdate {
  import opened Words
  import opened Crc
  import opened OtaMetadata
  import opened FlashBackend
  import opened SignedImage

  const PROTOCOL_VERSION: byte := 1
  const MAX_WRITE_CHUNK: nat := 992
  const ERASE_STEP_SIZE: nat := 0x1_0000
  const VERIFY_STEP_SIZE: nat := 0x1_0000
  const VERIFY_CHUNK: nat := 1024
  const SESSION_IDLE_TIMEOUT_MS: nat := 120_000
  const SESSION_MAX_LIFETIME_MS: nat := 900_000
  const BEGIN_FIXED: nat := 42
  const RESPONSE_FIXED: nat := 21

  datatype Operation = Info | Begin | Write | Advance | Status | Abort

  function ParseOperation(value: byte): Option<Operation> {
    match value
    case 0 => Some(Info)
    case 1 => Some(Begin)
    case 2 => Some(Write)
    case 3 => Some(Advance)
    case 4 => Some(Status)
    case 5 => Some(Abort)
    case _ => None
  }

  datatype StatusCode =
    | Done
    | UserPresenceRequired
    | InvalidRequest
    | InvalidState
    | SessionMismatch
    | OutOfOrder
    | ImageSize
    | FlashError
    | HashMismatch
    | BadSignatureStatus
    | Rollback
    | VersionMismatch
    | ActiveSlotChanged
    | SessionExpired
  {
    function Code(): byte {
      match this
      case Done => 0
      case UserPresenceRequired => 1
      case InvalidRequest => 2
      case InvalidState => 3
      case SessionMismatch => 4
      case OutOfOrder => 5
      case ImageSize => 6
      case FlashError => 7
      case HashMismatch => 8
      case BadSignatureStatus => 9
      case Rollback => 10
      case VersionMismatch => 11
      case ActiveSlotChanged => 12
      case SessionExpired => 13
    }
  }

  datatype Phase = Idle | Erasing | Receiving | Verifying | Activated | Failed
  {
    function Code(): byte {
      match this
      case Idle => 0
      case Erasing => 1
      case Receiving => 2
      case Verifying => 3
      case Activated => 4
      case Failed => 5
    }

    /** Phases in which the session still holds authority over the inactive slot. */
    predicate Live() {
      Erasing? || Receiving? || Verifying?
    }
  }

  /** The hashers are the bytes fed to them so far. */
  datatype Session = Session(
    startedMs: u64,
    lastProgressMs: u64,
    lastCheckedMs: u64,
    id: u32,
    phase: Phase,
    targetSlot: byte,
    layout: UpdateLayout,
    targetSequence: u32,
    total: nat,
    expectedHash: Bytes,
    expectedSecureVersion: u32,
    expectedVersion: Bytes,
    completed: nat,
    fullHasher: Bytes,
    signedHasher: Bytes,
    failure: StatusCode
  )
  {
    function FailedWith(status: StatusCode): Session {
      this.(phase := Failed, failure := status)
    }

    predicate ExpiredAt(now: u64) {
      || now < lastCheckedMs
      || SaturatingSub(now, startedMs) >= SESSION_MAX_LIFETIME_MS
      || SaturatingSub(now, lastProgressMs) >= SESSION_IDLE_TIMEOUT_MS
    }

    function Expire(now: u64): (Session, bool) {
      if !phase.Live() then (this, failure == SessionExpired)
      else if ExpiredAt(now) then (this.(lastCheckedMs := now).FailedWith(SessionExpired), true)
      else (this.(lastCheckedMs := now), false)
    }
  }

  /** What does not change while the firmware runs, plus the session. */
  datatype Updater = Updater(
    trustedKeyDigest: Bytes,
    currentVersion: Bytes,
    currentSecureVersion: u32,
    nextSessionId: u32,
    session: Option<Session>
  )
  {
    function With(s: Session): Updater { this.(session := Some(s)) }

    function CurrentPhase(): Phase { if session.Some? then session.value.phase else Idle }
  }

  datatype Outcome = Outcome(b: Backend, u: Updater, status: StatusCode)

  function NextSequence(current: u32, targetSlot: byte): Option<u32> {
    if current == 0 || targetSlot > 1 then None else
    var parity := targetSlot + 1;
    var increment := if current % 2 == parity % 2 then 2 else 1;
    if current + increment > U32_MAX then None else Some(current + increment)
  }

  function ParseSessionId(request: Bytes): Option<u32> {
    if |request| == 4 then Some(FromLe32(request)) else None
  }

  // The clock checks, each with its reading.

  /** Read the clock and apply the deadlines; the flag says the session is out of time. */
  function Check(b: Backend, s: Session): (r: (Backend, Session, bool))
    ensures r.1.total == s.total && r.1.completed == s.completed
  {
    var (now, b1) := ReadClock(b);
    var (s1, expired) := s.Expire(now);
    (b1, s1, expired)
  }

  /** Successful work extends the idle deadline, unless it came too late. */
  function Progressed(b: Backend, u: Updater, s: Session): Outcome {
    var (now, b1) := ReadClock(b);
    var (s1, expired) := s.Expire(now);
    if expired then Outcome(b1, u.With(s1), SessionExpired)
    else Outcome(b1.Logged(Progress(s.id)), u.With(s1.(lastProgressMs := now)), Done)
  }

  function FailOutcome(b: Backend, u: Updater, s: Session, status: StatusCode): Outcome {
    Outcome(b, u.With(s.FailedWith(status)), status)
  }

  // The handlers.

  function PollStep(b: Backend, u: Updater): (Backend, Updater) {
    if u.session.None? then (b, u) else
    var (b1, s1, _) := Check(b, u.session.value);
    (b1, u.With(s1))
  }

  /** The fields of a BEGIN request, or why it is refused before anyone is asked to approve it. */
  function BeginRefusal(u: Updater, request: Bytes): Option<StatusCode> {
    if |request| < BEGIN_FIXED || request[0] != PROTOCOL_VERSION then Some(InvalidRequest) else
    var total := FromLe32(request[1..5]);
    var versionLength := request[41] as nat;
    if |request| != BEGIN_FIXED + versionLength || versionLength == 0 || versionLength > MAX_VERSION_LENGTH
    then Some(InvalidRequest)
    else if !(SIGNATURE_SECTOR_SIZE * 2 <= total <= OTA_SLOT_SIZE) || total % SIGNATURE_SECTOR_SIZE != 0
    then Some(ImageSize)
    else if FromLe32(request[37..41]) < u.currentSecureVersion then Some(Rollback)
    else None
  }

  function NextSessionId(id: u32): u32 {
    if id == U32_MAX then 1 else id + 1
  }

  function OpenedSession(u: Updater, request: Bytes, started: u64, layout: UpdateLayout, targetSequence: u32): Session
    requires BeginRefusal(u, request).None?
    requires layout.activeSlot <= 1
  {
    Session(
      started, started, started, u.nextSessionId, Erasing, 1 - layout.activeSlot, layout, targetSequence,
      FromLe32(request[1..5]), request[5..37], FromLe32(request[37..41]), request[42..],
      0, [], [], Done)
  }

  function DoBegin(b: Backend, u: Updater, request: Bytes, userPresent: bool): Outcome {
    var refusal := BeginRefusal(u, request);
    if refusal.Some? then Outcome(b, u, refusal.value)
    else if !userPresent then Outcome(b, u, UserPresenceRequired) else
    var (started, b1) := ReadStartClock(b);
    var (layout, b2) := ReadLayout(b1);
    if layout.None? then Outcome(b2, u, FlashError) else
    OpenSession(b2, u, request, started, layout.value)
  }

  function OpenSession(b: Backend, u: Updater, request: Bytes, started: u64, layout: UpdateLayout): Outcome
    requires BeginRefusal(u, request).None?
  {
    if layout.activeSlot > 1 || layout.activationEntry > 1 then Outcome(b, u, InvalidState) else
    var sequence := NextSequence(layout.activeSequence, 1 - layout.activeSlot);
    if sequence.None? then Outcome(b, u, InvalidState) else
    var s := OpenedSession(u, request, started, layout, sequence.value);
    var u1 := u.(nextSessionId := NextSessionId(u.nextSessionId));
    Progressed(b.Logged(Opened(s.id)), u1.With(s), s)
  }

  function DoWrite(b: Backend, u: Updater, request: Bytes): Outcome {
    if |request| < 9 || |request| > 9 + MAX_WRITE_CHUNK then Outcome(b, u, InvalidRequest) else
    var id := FromLe32(request[..4]);
    var offset := FromLe32(request[4..8]);
    var data := request[8..];
    if u.session.None? then Outcome(b, u, InvalidState) else
    if u.session.value.id != id then Outcome(b, u, SessionMismatch) else
    var (b1, s, expired) := Check(b, u.session.value);
    if expired then Outcome(b1, u.With(s), SessionExpired)
    else if s.phase != Receiving then Outcome(b1, u.With(s), InvalidState)
    else if |data| % 32 != 0 then Outcome(b1, u.With(s), InvalidRequest)
    else if offset != s.completed then Outcome(b1, u.With(s), OutOfOrder)
    else if offset + |data| > U32_MAX then Outcome(b1, u.With(s), ImageSize)
    else if offset + |data| > s.total then Outcome(b1, u.With(s), ImageSize) else
    var (ok, b2) := WriteSlot(b1, s.targetSlot, offset, data);
    if !ok then FailOutcome(b2, u, s, FlashError)
    else
      var s1 := s.(completed := offset + |data|);
      Progressed(b2, u.With(s1), s1)
  }

  function DoErase(b: Backend, u: Updater, s: Session): Outcome
    requires s.completed <= s.total
  {
    var length := Min(s.total - s.completed, ERASE_STEP_SIZE);
    var (ok, b1) := EraseSlot(b, s.targetSlot, s.completed, length);
    if !ok then FailOutcome(b1, u, s, FlashError)
    else
      var s1 := if s.completed + length == s.total then s.(completed := 0, phase := Receiving)
                else s.(completed := s.completed + length);
      Progressed(b1, u.With(s1), s1)
  }

  /** The signed part ends where the signature sector begins. */
  function SignedPart(s: Session, chunk: Bytes): Bytes {
    var signedLength := s.total - SIGNATURE_SECTOR_SIZE;
    if s.completed < signedLength then chunk[..Min(signedLength - s.completed, |chunk|)] else []
  }

  /** Check the deadlines, read back one chunk and feed the hashers; a status means it stopped. */
  function VerifyChunk(b: Backend, s: Session, stepEnd: nat): (r: (Backend, Session, Option<StatusCode>))
    requires s.completed < stepEnd
    ensures r.1.total == s.total
    ensures r.2.None? ==> s.completed < r.1.completed <= stepEnd
    ensures r.2 != Some(Done)
  {
    var (b1, s1, expired) := Check(b, s);
    if expired then (b1, s1, Some(SessionExpired)) else
    var length := Min(stepEnd - s1.completed, VERIFY_CHUNK);
    var (chunk, b2) := ReadSlot(b1, s1.targetSlot, s1.completed, length);
    if chunk.None? then (b2, s1.FailedWith(FlashError), Some(FlashError)) else
    (b2, s1.(fullHasher := s1.fullHasher + chunk.value,
             signedHasher := s1.signedHasher + SignedPart(s1, chunk.value),
             completed := s1.completed + length), None)
  }

  /** Read back up to `stepEnd`. */
  function VerifyChunks(b: Backend, s: Session, stepEnd: nat): (r: (Backend, Session, Option<StatusCode>))
    ensures r.1.total == s.total && r.2 != Some(Done)
    decreases stepEnd - s.completed
  {
    if s.completed >= stepEnd then (b, s, None) else
    var (b1, s1, stopped) := VerifyChunk(b, s, stepEnd);
    if stopped.Some? then (b1, s1, stopped) else VerifyChunks(b1, s1, stepEnd)
  }

  function DoVerify(b: Backend, u: Updater, s: Session, c: Crypto): Outcome
    requires s.total >= SIGNATURE_SECTOR_SIZE * 2
  {
    var (b1, s1, stopped) := VerifyChunks(b, s, Min(s.completed + VERIFY_STEP_SIZE, s.total));
    if stopped.Some? then Outcome(b1, u.With(s1), stopped.value) else
    var (b2, s2, expired) := Check(b1, s1);
    if expired then Outcome(b2, u.With(s2), SessionExpired)
    else if s2.completed != s2.total then Progressed(b2, u.With(s2), s2)
    else DoFinish(b2, u.With(s2), s2, c)
  }

  /** The verdict on the descriptor read back from the target slot. */
  function DescriptorVerdict(u: Updater, s: Session, descriptor: Bytes): Option<StatusCode>
    requires |descriptor| == APP_DESCRIPTOR_PREFIX_SIZE
  {
    var metadata := ParseImageMetadata(descriptor);
    if metadata.None? then Some(BadSignatureStatus)
    else if metadata.value.secureVersion < u.currentSecureVersion then Some(Rollback)
    else if metadata.value.secureVersion != s.expectedSecureVersion || metadata.value.version != s.expectedVersion
    then Some(VersionMismatch)
    else None
  }

  function DoFinish(b: Backend, u: Updater, s: Session, c: Crypto): Outcome
    requires s.total >= SIGNATURE_SECTOR_SIZE * 2
  {
    if c.sha(s.fullHasher) != s.expectedHash then FailOutcome(b, u, s, HashMismatch) else
    var (descriptor, b1) := ReadSlot(b, s.targetSlot, 0, APP_DESCRIPTOR_PREFIX_SIZE);
    if descriptor.None? then FailOutcome(b1, u, s, FlashError) else
    var verdict := DescriptorVerdict(u, s, descriptor.value);
    if verdict.Some? then FailOutcome(b1, u, s, verdict.value) else
    var digest := c.sha(s.signedHasher);
    var (block, b2) := ReadSlot(b1, s.targetSlot, s.total - SIGNATURE_SECTOR_SIZE, SIGNATURE_BLOCK_SIZE);
    if block.None? then FailOutcome(b2, u, s, FlashError) else
    var signature := ParseSignatureBlock(block.value, u.trustedKeyDigest, c);
    if signature.None? || signature.value.imageDigest != digest then FailOutcome(b2, u, s, BadSignatureStatus) else
    var (valid, b3) := VerifyRsaPss(b2, c, signature.value.publicKey, signature.value.signature, digest);
    if valid.None? then FailOutcome(b3, u, s, FlashError)
    else if !valid.value then FailOutcome(b3, u, s, BadSignatureStatus)
    else DoActivate(b3, u, s)
  }

  function DoActivate(b: Backend, u: Updater, s: Session): Outcome {
    var (layout, b1) := ReadLayout(b);
    if layout.None? then FailOutcome(b1, u, s, FlashError)
    else if layout.value != s.layout then FailOutcome(b1, u, s, ActiveSlotChanged) else
    var (b2, s2, expired) := Check(b1, s);
    if expired then Outcome(b2, u.With(s2), SessionExpired) else
    var (ok, b3) := ActivateUpdate(b2, s2.targetSlot, s2.targetSequence, s2.layout.activationEntry);
    if !ok then FailOutcome(b3, u, s2, FlashError)
    else Outcome(b3, u.With(s2.(phase := Activated, failure := Done)), Done)
  }

  function DoAdvance(b: Backend, u: Updater, request: Bytes, c: Crypto): Outcome
    requires SessionFits(u)
  {
    var id := ParseSessionId(request);
    if id.None? then Outcome(b, u, InvalidRequest) else
    if u.session.None? then Outcome(b, u, InvalidState) else
    if u.session.value.id != id.value then Outcome(b, u, SessionMismatch) else
    var (b1, s, expired) := Check(b, u.session.value);
    if expired then Outcome(b1, u.With(s), SessionExpired) else
    match s.phase
    case Erasing => DoErase(b1, u.With(s), s)
    case Receiving =>
      if s.completed != s.total then Outcome(b1, u.With(s), InvalidState)
      else
        var s1 := s.(phase := Verifying, completed := 0, fullHasher := [], signedHasher := []);
        DoVerify(b1, u.With(s1), s1, c)
    case Verifying => DoVerify(b1, u.With(s), s, c)
    case Activated => Outcome(b1, u.With(s), Done)
    case Failed => Outcome(b1, u.With(s), s.failure)
    case Idle => Outcome(b1, u.With(s), InvalidState)
  }

  function DoStatus(u: Updater, request: Bytes): StatusCode {
    if request == [] then Done else
    var id := ParseSessionId(request);
    if id.None? then InvalidRequest
    else if u.session.None? then InvalidState
    else if u.session.value.id != id.value then SessionMismatch
    else if u.session.value.phase == Failed then u.session.value.failure
    else Done
  }

  function DoAbort(b: Backend, u: Updater, request: Bytes): Outcome {
    var id := ParseSessionId(request);
    if id.None? then Outcome(b, u, InvalidRequest)
    else if u.session.None? then Outcome(b, u, InvalidState)
    else if u.session.value.id != id.value then Outcome(b, u, SessionMismatch)
    else if u.session.value.phase == Activated then Outcome(b, u, InvalidState)
    else Outcome(b, u.(session := None), Done)
  }

  function HandleInner(b: Backend, u: Updater, request: Bytes, userPresent: bool, c: Crypto): Outcome
    requires SessionFits(u)
  {
    if request == [] then Outcome(b, u, InvalidRequest) else
    var operation := ParseOperation(request[0]);
    if operation.None? then Outcome(b, u, InvalidRequest) else
    match operation.value
    case Info => Outcome(b, u, if |request| == 1 then Done else InvalidRequest)
    case Begin => DoBegin(b, u, request[1..], userPresent)
    case Write => DoWrite(b, u, request[1..])
    case Advance => DoAdvance(b, u, request[1..], c)
    case Status => Outcome(b, u, DoStatus(u, request[1..]))
    case Abort => DoAbort(b, u, request[1..])
  }

  function Handle(b: Backend, u: Updater, request: Bytes, userPresent: bool, c: Crypto): Outcome
    requires SessionFits(u)
  {
    var (b1, u1) := PollStep(b, u);
    HandleInner(b1, u1, request, userPresent, c)
  }

  /** Sizes stay inside the slot, so no 32-bit sum the handlers form can overflow. */
  predicate SessionFits(u: Updater) {
    u.session.Some? ==>
      && u.session.value.completed <= u.session.value.total <= OTA_SLOT_SIZE
      && u.session.value.total >= SIGNATURE_SECTOR_SIZE * 2
  }

  function EncodeResponse(u: Updater, status: StatusCode): Bytes
    requires SessionFits(u) && |u.currentVersion| < 0x100
  {
    var (phase, slot, id, completed, total) :=
      if u.session.Some? then
        var s := u.session.value;
        (s.phase, s.targetSlot, s.id, s.completed, s.total)
      else (Idle, 0xff, 0, 0, 0);
    [status.Code(), PROTOCOL_VERSION, phase.Code(), slot]
    + ToLe32(id) + ToLe32(completed) + ToLe32(total) + ToLe32(u.currentSecureVersion)
    + [|u.currentVersion|] + u.currentVersion
  }
}
