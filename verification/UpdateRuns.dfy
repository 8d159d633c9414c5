/**
 * Whole runs: requests, confirmations, resets with a bootloader that may itself be cut short, and
 * security-epoch raises, in any order and with any answers from the hardware.
 */
module UpdateRuns {
  import opened Words
  import opened Crc
  import opened OtaMetadata
  import opened FlashBackend
  import opened SignedImage
  import opened UsbUpdate
  import opened UpdateSoundness
  import opened VendorCommands
  import E = SecurityEpoch
  import T = EfuseTransaction

  /** The last confirmed image: its slot, the sequence of its record, and every byte of it. */
  datatype Stable = Stable(slot: byte, sequence: u32, image: Slot)

  datatype World = World(b: Backend, u: Updater, stable: Stable, fuses: E.Block0)

  datatype Action =
    | Serve(request: Bytes, others: Others)
    | Tick
    | Confirm
    | Boot(runningSlot: byte, version: Bytes, floor: u32) // a reset, after which this slot executes
    | Raise(plan: E.ApprovedPlan, device: Bytes, bootloader: Bytes, controller: T.Tape, took: E.Block0)

  /** The bootloader gives up on an image that was on trial and never confirmed. */
  function AbortPending(b: Backend, index: nat): Backend
    requires index < 2
  {
    var e := Decode(b.flash.records[index]);
    if e.IsSelectable() && e.state == STATE_PENDING_VERIFY
    then ReplaceEntry(b, index, e.EncodeWithState(STATE_ABORTED)).1
    else b
  }

  /** It then puts a newly activated image on trial. */
  function StartTrial(b: Backend): Backend {
    var active := ActiveEntry(DecodeBoth(b.flash.records));
    if active.None? then b else
    var e := Decode(b.flash.records[active.value]);
    if e.state == STATE_NEW then ReplaceEntry(b, active.value, e.EncodeWithState(STATE_PENDING_VERIFY)).1 else b
  }

  function Bootloader(b: Backend): Backend {
    StartTrial(AbortPending(AbortPending(b, 0), 1))
  }

  /** The record the bootloader follows is VALID and is not the one of the stable image. */
  predicate NewlyConfirmed(f: Flash, st: Stable) {
    var e := DecodeBoth(f.records);
    var a := ActiveEntry(e);
    a.Some? && e[a.value].state == STATE_VALID && e[a.value].sequence != st.sequence && SlotOf(e[a.value].sequence).Some?
  }

  function Restabilize(f: Flash, st: Stable): Stable {
    if !NewlyConfirmed(f, st) then st else
    var e := DecodeBoth(f.records);
    var sequence := e[ActiveEntry(e).value].sequence;
    Stable(SlotOf(sequence).value, sequence, f.slots[SlotOf(sequence).value])
  }

  function SecureVersionOf(s: Slot): u32 {
    FromLe32(s[36..40])
  }

  /** What the maintenance request finds out about a verified slot. */
  function Evidence(image: VerifiedInstalledImage): E.SlotEvidence {
    E.SlotEvidence(true, true, image.secureVersion, image.signedContentDigest)
  }

  /** What it finds out about the device, when the records qualify both slots and both images verify. */
  ghost function Observed(w: World, device: Bytes, bootloader: Bytes, c: Crypto): Option<E.ObservedState> {
    var image0 := InstalledImage(w.b.flash.slots[0], w.u.trustedKeyDigest, c);
    var image1 := InstalledImage(w.b.flash.slots[1], w.u.trustedKeyDigest, c);
    if !(exists l :: Qualified(DecodeBoth(w.b.flash.records), w.b.flash.running, l)) || image0.Err? || image1.Err? then None
    else
      Some(E.ObservedState(
        E.Identity(device, bootloader, w.u.trustedKeyDigest), w.fuses,
        if w.b.flash.running == OTA_0_OFFSET then 0 else 1, Evidence(image0.value), Evidence(image1.value)))
  }

  /** No session is open, and the plan is accepted for this device as it is. */
  ghost predicate MayRaise(w: World, plan: E.ApprovedPlan, device: Bytes, bootloader: Bytes, c: Crypto) {
    var observed := Observed(w, device, bootloader, c);
    w.u.session.None? && observed.Some? && E.Refusal(plan, observed.value).None?
  }

  ghost function Act(w: World, a: Action, c: Crypto): World
    requires Sound(w.b, w.u) && |w.u.currentVersion| < 0x100
  {
    match a
    case Serve(request, others) =>
      var r := DispatchReply(w.b, w.u, request, others, c);
      w.(b := r.b, u := r.u)
    case Tick =>
      var (b1, u1) := PollStep(w.b, w.u);
      w.(b := b1, u := u1)
    case Confirm =>
      var (_, b1) := ConfirmRunningImage(w.b, w.u.currentVersion, w.u.currentSecureVersion);
      w.(b := b1, stable := Restabilize(b1.flash, w.stable))
    case Boot(runningSlot, version, floor) =>
      if UpdateSlotOffset(runningSlot).None? || |version| > MAX_VERSION_LENGTH then w else
      var b1 := Bootloader(w.b);
      w.(b := b1.Kept(b1.flash.(running := UpdateSlotOffset(runningSlot).value)),
         u := Updater(w.u.trustedKeyDigest, version, floor, 1, None))
    case Raise(plan, device, bootloader, controller, took) =>
      if !MayRaise(w, plan, device, bootloader, c) then w
      else
        var change := E.Planned(plan, Observed(w, device, bootloader, c).value);
        w.(fuses := T.FusesAfter(change, controller, took))
  }

  /** The bootloader follows the confirmed record, and the confirmed image is intact. */
  predicate Settled(f: Flash, st: Stable) {
    var e := DecodeBoth(f.records);
    var a := ActiveEntry(e);
    && a.Some? && e[a.value].state == STATE_VALID && e[a.value].sequence == st.sequence
    && SlotOf(st.sequence) == Some(st.slot) && f.slots[st.slot] == st.image
  }

  /** A well-formed image signed under the trusted key. */
  ghost predicate Authentic(s: Slot, trusted: Bytes, c: Crypto) {
    && (exists m :: Describes(s, m))
    && exists end: nat :: end + SIGNATURE_SECTOR_SIZE <= OTA_SLOT_SIZE && SignedBelow(s, end, trusted, c)
  }

  /**
   * The bootloader follows a candidate that is not confirmed yet, while the other record is VALID for
   * the confirmed image, which is intact.
   */
  predicate TrialRecords(f: Flash, st: Stable) {
    TrialEntries(DecodeBoth(f.records), st) && SlotOf(st.sequence) == Some(st.slot) && f.slots[st.slot] == st.image
  }

  predicate TrialEntries(e: Entries, st: Stable) {
    var a := ActiveEntry(e);
    && a.Some? && (e[a.value].state == STATE_NEW || e[a.value].state == STATE_PENDING_VERIFY)
    && e[a.value].sequence == st.sequence + 1
    && e[1 - a.value].IsSelectable() && e[1 - a.value].state == STATE_VALID && e[1 - a.value].sequence == st.sequence
  }

  /** The candidate, too, is authentic. */
  ghost predicate OnTrial(f: Flash, st: Stable, trusted: Bytes, c: Crypto) {
    TrialRecords(f, st) && Authentic(f.slots[1 - st.slot], trusted, c)
  }

  ghost predicate Safe(w: World, c: Crypto) {
    && Sound(w.b, w.u) && |w.u.currentVersion| < 0x100
    && (Settled(w.b.flash, w.stable) || OnTrial(w.b.flash, w.stable, w.u.trustedKeyDigest, c))
  }


  // One rewritten record.

  /** A layout that offers updates belongs to a settled device. */
  lemma LayoutMeansSettled(f: Flash, st: Stable, layout: UpdateLayout)
    requires LayoutOf(f.records, f.running) == Some(layout)
    requires Settled(f, st) || TrialRecords(f, st)
    ensures Settled(f, st) && layout.activeSequence == st.sequence && layout.activeSlot == st.slot
    ensures UpdateSlotOffset(st.slot) == Some(f.running)
    ensures ActiveEntry(DecodeBoth(f.records)) == Some((1 - layout.activationEntry) as nat)
  {
    hide OtaCrc;
    LayoutShape(DecodeBoth(f.records), f.running);
  }

  /**
   * Whatever is left of a record's rewrite is the old record, or nothing selectable, or the new
   * record; a record of sequence zero may also stay selectable, still at sequence zero.
   */
  lemma AttemptOutcome(previous: Record, e: OtaEntry, state: u32, a: Answer)
    ensures var r := Attempted(previous, e.EncodeWithState(state), a);
            || r == previous
            || !Decode(r).IsSelectable()
            || (e.sequence == 0 && Decode(r).sequence == 0)
            || (r == e.EncodeWithState(state) && Decode(r) == OtaEntry(e.sequence, state, OtaCrc(e.sequence)))
  {
    hide OtaCrc;
    DecodeEncode(e, state);
    if e.sequence == 0 {
      TornSequenceZero(e, state, a.written);
    } else {
      TornRecord(e, state, a.written);
    }
  }

  predicate Harmless(e: OtaEntry, st: Stable) {
    !e.IsSelectable() || e.sequence < st.sequence
  }

  /** Losing the inactive record, or having it replaced by an unselectable one, changes no selection. */
  lemma StillFollows(f: Flash, st: Stable, index: nat, r: Record)
    requires index < 2 && Settled(f, st) && ActiveEntry(DecodeBoth(f.records)) == Some(1 - index)
    requires Harmless(Decode(r), st)
    ensures Settled(f.(records := f.records[index := r]), st)
  {
    hide OtaCrc, Decode;
    DecodeUpdate(f.records, index, r);
  }

  lemma ServeKeepsSafe(w: World, request: Bytes, present: bool, c: Crypto)
    requires Safe(w, c)
    ensures SessionFits(w.u)
    ensures var o := Handle(w.b, w.u, request, present, c);
            Safe(w.(b := o.b, u := o.u), c)
  {
    HandleEffect(w.b, w.u, request, present, c);
    EffectKeepsSafe(w, Handle(w.b, w.u, request, present, c), c);
  }

  lemma EffectKeepsSafe(w: World, o: Outcome, c: Crypto)
    requires Safe(w, c) && Effect(w.b, w.u, o, c) && Sound(o.b, o.u)
    ensures Safe(w.(b := o.b, u := o.u), c)
  {
    hide OtaCrc, LayoutOf, Certified, OnlyRecord, Authentic, ActiveEntry;
    if o.b.flash == w.b.flash {
    } else if s :| WorkedOn(w.b, w.u, o, s) {
      LayoutMeansSettled(w.b.flash, w.stable, s.layout);
    } else {
      var s :| Committed(w.b, w.u, o, s, c);
      CommitKeepsSafe(w, o, s, c);
    }
  }

  lemma CommitKeepsSafe(w: World, o: Outcome, s: Session, c: Crypto)
    requires Safe(w, c) && Committed(w.b, w.u, o, s, c) && Sound(o.b, o.u) && SameFirmware(w.u, o.u)
    ensures Safe(w.(b := o.b, u := o.u), c)
  {
    hide OtaCrc, LayoutOf, SignedBelow, Describes;
    var f, g := w.b.flash, o.b.flash;
    var index := s.layout.activationEntry;
    assert LayoutOf(f.records, f.running) == Some(s.layout);
    LayoutMeansSettled(f, w.stable, s.layout);
    var a: Answer :| g == f.(records := f.records[index := Attempted(f.records[index], NewRecord(s.targetSequence), a)]);
    AttemptOutcome(f.records[index], OtaEntry(s.targetSequence, STATE_NEW, OtaCrc(s.targetSequence)), STATE_NEW, a);
    var r := Attempted(f.records[index], NewRecord(s.targetSequence), a);
    if r == f.records[index] {
      assert g == f;
    } else if !Decode(r).IsSelectable() {
      StillFollows(f, w.stable, index, r);
    } else {
      assert Authentic(g.slots[s.targetSlot], w.u.trustedKeyDigest, c);
      assert OnTrial(g, w.stable, w.u.trustedKeyDigest, c);
    }
  }

  lemma DispatchKeepsSafe(w: World, request: Bytes, others: Others, c: Crypto)
    requires Safe(w, c)
    ensures Safe(Act(w, Serve(request, others), c), c)
  {
    hide Handle, OnTrial, Settled, Sound, EncodeResponse;
    var w0 := w.(b := w.b.Logged(Received));
    LogKeepsSafe(w, Received, c);
    ServeKeepsSafe(w0, request, false, c);
    var first := FirstReply(w0.b, w.u, request, others, c);
    var w1 := w.(b := first.b.Logged(Approved), u := first.u);
    LogKeepsSafe(w.(b := first.b, u := first.u), Approved, c);
    ServeKeepsSafe(w1, request, true, c);
  }

  lemma LogKeepsSafe(w: World, e: Event, c: Crypto)
    requires Safe(w, c)
    ensures Safe(w.(b := w.b.Logged(e)), c)
  {
    hide OnTrial, Settled;
  }

  /** When a candidate's record is lost the bootloader is back at the confirmed image. */
  lemma TrialLost(f: Flash, st: Stable, index: nat, r: Record)
    requires index < 2 && TrialRecords(f, st) && ActiveEntry(DecodeBoth(f.records)) == Some(index)
    requires !Decode(r).IsSelectable()
    ensures Settled(f.(records := f.records[index := r]), st)
  {
    hide OtaCrc, Decode;
    DecodeUpdate(f.records, index, r);
  }

  lemma TrialContinues(f: Flash, st: Stable, index: nat, r: Record)
    requires index < 2 && TrialRecords(f, st) && ActiveEntry(DecodeBoth(f.records)) == Some(index)
    requires Decode(r) == Decode(f.records[index]).(state := STATE_PENDING_VERIFY)
    ensures TrialRecords(f.(records := f.records[index := r]), st)
  {
    hide OtaCrc, Decode;
    DecodeUpdate(f.records, index, r);
  }

  function Won(f: Flash, st: Stable): Stable
    requires st.slot < 2 && st.sequence < U32_MAX
  {
    Stable(1 - st.slot, st.sequence + 1, f.slots[1 - st.slot])
  }

  /** The candidate is the confirmed image from here on. */
  predicate WonWith(f: Flash, st: Stable, g: Flash) {
    st.slot < 2 && st.sequence < U32_MAX && Restabilize(g, st) == Won(f, st) && Settled(g, Won(f, st))
  }

  /** Once its record reads VALID, the candidate is the confirmed image. */
  lemma TrialWon(f: Flash, st: Stable, index: nat, r: Record)
    requires index < 2 && TrialRecords(f, st) && ActiveEntry(DecodeBoth(f.records)) == Some(index)
    requires Decode(r) == Decode(f.records[index]).(state := STATE_VALID)
    ensures WonWith(f, st, f.(records := f.records[index := r]))
  {
    hide OtaCrc, Decode;
    DecodeUpdate(f.records, index, r);
    OtherSlot(st.sequence);
  }

  lemma SelectableCrc(e: OtaEntry, state: u32)
    requires e.IsSelectable()
    ensures OtaEntry(e.sequence, state, OtaCrc(e.sequence)) == e.(state := state)
  {
    hide OtaCrc;
  }

  lemma ConfirmKeepsSafe(w: World, c: Crypto)
    requires Safe(w, c)
    ensures var v := Act(w, Confirm, c);
            Safe(v, c) && (v.stable == w.stable || Authentic(v.stable.image, w.u.trustedKeyDigest, c))
  {
    hide OtaCrc, Authentic, LayoutOf, ConfirmRunningImage, Restabilize, Settled, TrialRecords, ActiveEntry;
    var (_, b1) := ConfirmRunningImage(w.b, w.u.currentVersion, w.u.currentSecureVersion);
    ConfirmFlash(w.b, w.u.currentVersion, w.u.currentSecureVersion);
    if b1.flash == w.b.flash {
      NothingNew(w.b.flash, w.stable);
    } else {
      var index := ActiveEntry(DecodeBoth(w.b.flash.records)).value;
      var e := Decode(w.b.flash.records[index]);
      var a: Answer :| b1.flash == w.b.flash.(records := w.b.flash.records[
        index := Attempted(w.b.flash.records[index], e.EncodeWithState(STATE_VALID), a)]);
      ConfirmRewrite(w.b.flash, w.stable, index, a);
      SessionsWereIdle(w.b, w.u, w.stable);
    }
  }

  /** No session is live while a candidate is on trial. */
  lemma SessionsWereIdle(b: Backend, u: Updater, st: Stable)
    requires Sound(b, u) && TrialRecords(b.flash, st)
    ensures u.session.Some? ==> !u.session.value.phase.Live()
  {
    hide OtaCrc, ActiveEntry, LayoutOf;
    if u.session.Some? && u.session.value.phase.Live() {
      LayoutMeansSettled(b.flash, st, u.session.value.layout);
    }
  }

  lemma NothingNew(f: Flash, st: Stable)
    requires Settled(f, st) || TrialRecords(f, st)
    ensures Restabilize(f, st) == st
  {
    hide OtaCrc;
  }

  /** A candidate's confirmation leaves it on trial, loses it, or makes it the confirmed image. */
  predicate TrialDecided(f: Flash, st: Stable, g: Flash) {
    && TrialRecords(f, st) && !Settled(f, st) && st.slot < 2 && st.sequence < U32_MAX
    && (|| (Restabilize(g, st) == st && (g == f || Settled(g, st)))
        || (Restabilize(g, st) == Won(f, st) && Settled(g, Won(f, st))))
  }

  lemma ConfirmRewrite(f: Flash, st: Stable, index: nat, a: Answer)
    requires index < 2 && (Settled(f, st) || TrialRecords(f, st)) && ActiveEntry(DecodeBoth(f.records)) == Some(index)
    requires Decode(f.records[index]).state == STATE_PENDING_VERIFY
    ensures var r := Attempted(f.records[index], Decode(f.records[index]).EncodeWithState(STATE_VALID), a);
            TrialDecided(f, st, f.(records := f.records[index := r]))
  {
    hide OtaCrc;
    var e := Decode(f.records[index]);
    var r := Attempted(f.records[index], e.EncodeWithState(STATE_VALID), a);
    AttemptOutcome(f.records[index], e, STATE_VALID, a);
    SelectableCrc(e, STATE_VALID);
    if r == f.records[index] {
      assert f.records[index := r] == f.records;
      NothingNew(f, st);
    } else if !Decode(r).IsSelectable() {
      TrialLost(f, st, index, r);
      NothingNew(f.(records := f.records[index := r]), st);
    } else {
      TrialWon(f, st, index, r);
    }
  }

  /** Confirmation touches only the record of a candidate on trial. */
  lemma ConfirmFlash(b: Backend, version: Bytes, secureVersion: u32)
    ensures var (_, b1) := ConfirmRunningImage(b, version, secureVersion);
            var active := ActiveEntry(DecodeBoth(b.flash.records));
            && b1.tape == b.tape && b1.log == b.log
            && (|| b1.flash == b.flash
                || (active.Some? && Decode(b.flash.records[active.value]).state == STATE_PENDING_VERIFY
                    && exists a: Answer :: b1.flash == b.flash.(records := b.flash.records[active.value :=
                      Attempted(b.flash.records[active.value],
                                Decode(b.flash.records[active.value]).EncodeWithState(STATE_VALID), a)])))
  {
    hide OtaCrc, ConfirmationMatchesRunningImage;
  }

  /** One record rewrite by the bootloader keeps the device settled or on trial. */
  lemma AbortPendingKeeps(b: Backend, index: nat, st: Stable)
    requires index < 2
    requires Settled(b.flash, st) || TrialRecords(b.flash, st)
    ensures var g := AbortPending(b, index).flash;
            (Settled(g, st) || (TrialRecords(g, st) && TrialRecords(b.flash, st)))
            && g.slots == b.flash.slots && g.running == b.flash.running
  {
    hide OtaCrc;
    var f := b.flash;
    var e := Decode(f.records[index]);
    if e.IsSelectable() && e.state == STATE_PENDING_VERIFY {
      var r := Attempted(f.records[index], e.EncodeWithState(STATE_ABORTED), b.Answered());
      AttemptOutcome(f.records[index], e, STATE_ABORTED, b.Answered());
      if r == f.records[index] {
        assert f.records[index := r] == f.records;
      } else if ActiveEntry(DecodeBoth(f.records)) == Some(index) {
        TrialLost(f, st, index, r);
      } else {
        StillFollows(f, st, index, r);
      }
    }
  }

  lemma StartTrialKeeps(b: Backend, st: Stable)
    requires Settled(b.flash, st) || TrialRecords(b.flash, st)
    ensures var g := StartTrial(b).flash;
            (Settled(g, st) || (TrialRecords(g, st) && TrialRecords(b.flash, st)))
            && g.slots == b.flash.slots && g.running == b.flash.running
  {
    hide OtaCrc;
    var f := b.flash;
    var index := ActiveEntry(DecodeBoth(f.records)).value;
    var e := Decode(f.records[index]);
    if e.state == STATE_NEW {
      var r := Attempted(f.records[index], e.EncodeWithState(STATE_PENDING_VERIFY), b.Answered());
      AttemptOutcome(f.records[index], e, STATE_PENDING_VERIFY, b.Answered());
      SelectableCrc(e, STATE_PENDING_VERIFY);
      if r == f.records[index] {
        assert f.records[index := r] == f.records;
      } else if !Decode(r).IsSelectable() {
        TrialLost(f, st, index, r);
      } else {
        TrialContinues(f, st, index, r);
      }
    }
  }

  lemma SettledIsNotTrial(f: Flash, st: Stable)
    requires Settled(f, st)
    ensures !TrialRecords(f, st)
  {
    hide OtaCrc;
  }

  /** However far the bootloader gets, the device stays settled or stays on trial. */
  lemma BootloaderKeeps(b: Backend, st: Stable)
    requires Settled(b.flash, st) || TrialRecords(b.flash, st)
    ensures var g := Bootloader(b).flash;
            (Settled(g, st) || (TrialRecords(g, st) && TrialRecords(b.flash, st)))
            && g.slots == b.flash.slots && g.running == b.flash.running
  {
    hide OtaCrc, AbortPending, StartTrial, ActiveEntry, Settled, TrialRecords;
    var b1 := AbortPending(b, 0);
    var b2 := AbortPending(b1, 1);
    AbortPendingKeeps(b, 0, st);
    AbortPendingKeeps(b1, 1, st);
    StartTrialKeeps(b2, st);
    if Settled(b1.flash, st) { SettledIsNotTrial(b1.flash, st); }
    if Settled(b2.flash, st) { SettledIsNotTrial(b2.flash, st); }
  }

  /** Which record is followed does not depend on what is executing. */
  lemma RunningIgnored(f: Flash, running: u32, st: Stable)
    ensures Settled(f.(running := running), st) == Settled(f, st)
    ensures TrialRecords(f.(running := running), st) == TrialRecords(f, st)
  {
    hide OtaCrc, ActiveEntry;
  }

  lemma BootKeepsSafe(w: World, runningSlot: byte, version: Bytes, floor: u32, c: Crypto)
    requires Safe(w, c)
    ensures Safe(Act(w, Boot(runningSlot, version, floor), c), c)
  {
    hide OtaCrc, Bootloader, Settled, TrialRecords, Authentic, LayoutOf, HashersAgree;
    BootloaderKeeps(w.b, w.stable);
    if Settled(w.b.flash, w.stable) { SettledIsNotTrial(w.b.flash, w.stable); }
    if UpdateSlotOffset(runningSlot).Some? {
      RunningIgnored(Bootloader(w.b).flash, UpdateSlotOffset(runningSlot).value, w.stable);
    }
  }

  lemma ActKeepsSafe(w: World, a: Action, c: Crypto)
    requires Safe(w, c)
    ensures Safe(Act(w, a, c), c)
    ensures Act(w, a, c).stable == w.stable || Authentic(Act(w, a, c).stable.image, w.u.trustedKeyDigest, c)
  {
    hide OnTrial, Settled, Authentic, MayRaise, PollStep, ConfirmRunningImage, Bootloader, DispatchReply;
    match a
    case Serve(request, others) => DispatchKeepsSafe(w, request, others, c);
    case Tick => PollOk(w.b, w.u);
    case Confirm => ConfirmKeepsSafe(w, c);
    case Boot(runningSlot, version, floor) => BootKeepsSafe(w, runningSlot, version, floor, c);
    case Raise(_, _, _, _, _) =>
  }

  ghost function Run(w: World, actions: seq<Action>, c: Crypto): World
    requires Safe(w, c)
    decreases |actions|
  {
    if actions == [] then w else
    ActKeepsSafe(w, actions[0], c);
    Run(Act(w, actions[0], c), actions[1..], c)
  }

  lemma {:induction false} RunKeepsSafe(w: World, actions: seq<Action>, c: Crypto)
    requires Safe(w, c)
    ensures Safe(Run(w, actions, c), c)
    decreases |actions|
  {
    hide Settled, OnTrial, Sound, Act;
    if actions != [] {
      ActKeepsSafe(w, actions[0], c);
      RunKeepsSafe(Act(w, actions[0], c), actions[1..], c);
    }
  }

  /**
   * The confirmed image is intact and the bootloader follows its VALID record, or follows an
   * authentic candidate in the other slot with the confirmed image's VALID record to fall back on.
   */
  ghost predicate Recoverable(v: World, c: Crypto) {
    var e := DecodeBoth(v.b.flash.records);
    var a := ActiveEntry(e);
    && v.stable.slot < 2
    && v.b.flash.slots[v.stable.slot] == v.stable.image
    && a.Some?
    && (|| (SlotOf(e[a.value].sequence) == Some(v.stable.slot) && e[a.value].state == STATE_VALID)
        || (&& SlotOf(e[a.value].sequence) == Some(1 - v.stable.slot)
            && Authentic(v.b.flash.slots[1 - v.stable.slot], v.u.trustedKeyDigest, c)
            && e[1 - a.value].IsSelectable() && e[1 - a.value].state == STATE_VALID
            && SlotOf(e[1 - a.value].sequence) == Some(v.stable.slot)))
  }

  /** A device just started on a confirmed image. */
  predicate Fresh(w: World) {
    w.u.session.None? && |w.u.currentVersion| < 0x100 && Settled(w.b.flash, w.stable)
  }

  /** Any image, any hardware and any sequence a bootloader can follow make such a start, with one record erased. */
  lemma ProvisionedIsFresh(slots: Slots, sequence: u32, tape: Tape, u: Updater, fuses: E.Block0)
    requires 0 < sequence < U32_MAX && u.session.None? && |u.currentVersion| < 0x100
    ensures var slot := SlotOf(sequence).value;
            var record := OtaEntry(sequence, STATE_VALID, OtaCrc(sequence)).EncodeWithState(STATE_VALID);
            var flash := Flash(slots, [record, ERASED], SlotOffset(sequence).value);
            Fresh(World(Backend(tape, 0, flash, []), u, Stable(slot, sequence, slots[slot]), fuses))
  {
    hide OtaCrc;
    DecodeEncode(OtaEntry(sequence, STATE_VALID, OtaCrc(sequence)), STATE_VALID);
    ErasedNotSelectable();
  }

  lemma FreshIsSafe(w: World, c: Crypto)
    requires Fresh(w)
    ensures Safe(w, c)
  {
    hide Settled;
  }

  /** The trusted key is part of the firmware: nothing the device does changes it. */
  lemma ActKeepsKey(w: World, a: Action, c: Crypto)
    requires Safe(w, c)
    ensures Act(w, a, c).u.trustedKeyDigest == w.u.trustedKeyDigest
  {
    hide OnTrial, Settled, Authentic, MayRaise, ConfirmRunningImage, Bootloader, HashersAgree, LayoutOf, Handle, Sound;
    match a
    case Serve(request, others) => DispatchKeepsKey(w, request, others, c);
    case _ =>
  }

  lemma DispatchKeepsKey(w: World, request: Bytes, others: Others, c: Crypto)
    requires Safe(w, c)
    ensures DispatchReply(w.b, w.u, request, others, c).u.trustedKeyDigest == w.u.trustedKeyDigest
  {
    hide OnTrial, Settled, Handle, EncodeResponse, Sound;
    var b0 := w.b.Logged(Received);
    LogKeepsSafe(w, Received, c);
    HandleEffect(b0, w.u, request, false, c);
    var first := FirstReply(b0, w.u, request, others, c);
    LogKeepsSound(first.b, first.u, Approved);
    HandleEffect(first.b.Logged(Approved), first.u, request, true, c);
  }

  lemma LogKeepsSound(b: Backend, u: Updater, e: Event)
    requires Sound(b, u)
    ensures Sound(b.Logged(e), u)
  {
    hide HashersAgree, LayoutOf;
  }

  /** Over whole runs, too, a new confirmed image was authentic under the trusted key. */
  lemma {:induction false} StableOrigin(w: World, actions: seq<Action>, c: Crypto)
    requires Safe(w, c)
    ensures var v := Run(w, actions, c);
            && v.u.trustedKeyDigest == w.u.trustedKeyDigest
            && (v.stable == w.stable || Authentic(v.stable.image, w.u.trustedKeyDigest, c))
    decreases |actions|
  {
    hide Settled, OnTrial, Sound, Act, Authentic;
    if actions != [] {
      ActKeepsSafe(w, actions[0], c);
      ActKeepsKey(w, actions[0], c);
      StableOrigin(Act(w, actions[0], c), actions[1..], c);
    }
  }

  // Who makes an image the confirmed one.

  /**
   * The new confirmed image was on trial in the other slot, its followed record PENDING; it was the one executing,
   * and the descriptor in its slot announces the very versions of the firmware that confirmed it.
   */
  ghost predicate ConfirmedWhileRunning(w: World, a: Action, v: World) {
    var active := ActiveEntry(DecodeBoth(w.b.flash.records));
    && a.Confirm? && w.stable.slot < 2 && w.stable.sequence < U32_MAX
    && v.stable == Won(w.b.flash, w.stable)
    && active.Some? && FromLe32(w.b.flash.records[active.value][24..28]) == 1
    && w.b.flash.running == (if v.stable.slot == 0 then 0x2_0000 else 0x20_0000)
    && Announces(v.stable.image, w.u.currentVersion, w.u.currentSecureVersion)
  }

  /** The candidate's slot is the one that its record's sequence names. */
  lemma CandidateRuns(w: World)
    requires TrialRecords(w.b.flash, w.stable) && MayConfirm(w.b.flash, w.u.currentVersion, w.u.currentSecureVersion)
    requires w.stable.slot < 2 && w.stable.sequence < U32_MAX
    ensures ConfirmedWhileRunning(w, Confirm, w.(stable := Won(w.b.flash, w.stable)))
  {
    hide OtaCrc, Announces, FromLe32, ActiveEntry;
  }

  lemma ConfirmedIsRunning(w: World, c: Crypto)
    requires Safe(w, c)
    ensures var v := Act(w, Confirm, c);
            v.stable != w.stable ==> ConfirmedWhileRunning(w, Confirm, v)
  {
    hide OtaCrc, Authentic, Sound, ConfirmRunningImage, Restabilize, Settled, TrialRecords, ActiveEntry, MayConfirm, Decode;
    hide ConfirmedWhileRunning;
    var f := w.b.flash;
    var (_, b1) := ConfirmRunningImage(w.b, w.u.currentVersion, w.u.currentSecureVersion);
    ConfirmFlash(w.b, w.u.currentVersion, w.u.currentSecureVersion);
    ConfirmExactly(w.b, w.u.currentVersion, w.u.currentSecureVersion);
    if b1.flash == f {
      NothingNew(f, w.stable);
    } else {
      var index := ActiveEntry(DecodeBoth(f.records)).value;
      var e := Decode(f.records[index]);
      var a: Answer :| b1.flash == f.(records := f.records[
        index := Attempted(f.records[index], e.EncodeWithState(STATE_VALID), a)]);
      ConfirmRewrite(f, w.stable, index, a);
      CandidateRuns(w);
      SameConfirmation(w, w.(stable := Won(f, w.stable)), Act(w, Confirm, c));
    }
  }

  /** Of the world that comes out only the confirmed image matters. */
  lemma SameConfirmation(w: World, v: World, v1: World)
    ensures v.stable == v1.stable ==> ConfirmedWhileRunning(w, Confirm, v) == ConfirmedWhileRunning(w, Confirm, v1)
  {
    hide ActiveEntry, Announces, Won;
  }

  /** One more action at the end of a run. */
  lemma {:induction false} RunNext(w: World, actions: seq<Action>, a: Action, c: Crypto)
    requires Safe(w, c)
    ensures Safe(Run(w, actions, c), c)
    ensures Run(w, actions + [a], c) == Act(Run(w, actions, c), a, c)
    decreases |actions|
  {
    hide Settled, OnTrial, Sound, Act;
    RunKeepsSafe(w, actions, c);
    if actions == [] {
      ActKeepsSafe(w, a, c);
      assert ([] + [a])[1..] == [];
    } else {
      ActKeepsSafe(w, actions[0], c);
      RunNext(Act(w, actions[0], c), actions[1..], a, c);
      assert (actions + [a])[1..] == actions[1..] + [a];
    }
  }

  /**
   * In every run, whatever fails or is cut short, the confirmed image changes at no action but a confirmation by the
   * candidate itself, running in its own slot.
   */
  lemma OnlyTheCandidateConfirms(w: World, actions: seq<Action>, a: Action, c: Crypto)
    requires Fresh(w)
    ensures Safe(w, c)
    ensures var before, after := Run(w, actions, c), Run(w, actions + [a], c);
            after.stable != before.stable ==> ConfirmedWhileRunning(before, a, after)
  {
    hide Settled, Run, Act, ConfirmedWhileRunning;
    FreshIsSafe(w, c);
    RunNext(w, actions, a, c);
    var before := Run(w, actions, c);
    if a.Confirm? { ConfirmedIsRunning(before, c); } else { OthersKeepStable(before, a, c); }
  }

  lemma OthersKeepStable(w: World, a: Action, c: Crypto)
    requires Safe(w, c) && !a.Confirm?
    ensures Act(w, a, c).stable == w.stable
  {
    hide Settled, OnTrial, Sound, MayRaise, DispatchReply, PollStep, Bootloader;
  }

  // How an update ends when the calls work.

  /** The candidate's record, by itself. */
  predicate CandidateIs(f: Flash, st: Stable, state: u32) {
    && TrialRecords(f, st)
    && var a := ActiveEntry(DecodeBoth(f.records)); a.Some? && Decode(f.records[a.value]).state == state
  }

  /**
   * What a finished activation leaves on a settled device is a new candidate, up to sequence 0xFFFF_FFFE; the next
   * sequence is the erased word, and then the bootloader goes on following the confirmed image.
   */
  lemma ActivatedIsCandidate(f: Flash, st: Stable, layout: UpdateLayout, g: Flash)
    requires Settled(f, st) && LayoutOf(f.records, f.running) == Some(layout)
    requires layout.activationEntry < 2 && layout.activeSequence < U32_MAX
    requires g.records == f.records[layout.activationEntry := NewRecord(layout.activeSequence + 1)]
    requires st.slot < 2 && g.slots[st.slot] == f.slots[st.slot]
    ensures layout.activeSequence <= 0xffff_fffd ==> CandidateIs(g, st, STATE_NEW)
    ensures layout.activeSequence > 0xffff_fffd ==> Settled(g, st)
  {
    hide OtaCrc, Decode, LayoutOf;
    LayoutMeansSettled(f, st, layout);
    var n := layout.activeSequence + 1;
    DecodeEncode(OtaEntry(n, STATE_NEW, OtaCrc(n)), STATE_NEW);
    DecodeUpdate(f.records, layout.activationEntry, NewRecord(n));
  }

  /** The bootloader gives up on nothing but the candidate, and on that only when it was on trial already. */
  lemma NothingToAbort(b: Backend, index: nat, st: Stable)
    requires index < 2 && TrialRecords(b.flash, st)
    requires ActiveEntry(DecodeBoth(b.flash.records)) == Some(1 - index) || CandidateIs(b.flash, st, STATE_NEW)
    ensures AbortPending(b, index) == b
  {
    hide OtaCrc, ReplaceEntry;
  }

  lemma CandidateAborted(b: Backend, index: nat, st: Stable)
    requires index < 2 && CandidateIs(b.flash, st, STATE_PENDING_VERIFY) && Works(b.tape, b.pos, 1)
    requires ActiveEntry(DecodeBoth(b.flash.records)) == Some(index)
    ensures Settled(AbortPending(b, index).flash, st)
  {
    hide OtaCrc, Settled, TrialRecords;
    var e := Decode(b.flash.records[index]);
    ActiveEntryIsGreatest(DecodeBoth(b.flash.records));
    DecodeEncode(e, STATE_ABORTED);
    assert b.Answered() == b.tape(b.pos);
    TrialLost(b.flash, st, index, e.EncodeWithState(STATE_ABORTED));
  }

  /** A complete boot puts a new candidate on trial. */
  lemma BootTries(b: Backend, st: Stable)
    requires CandidateIs(b.flash, st, STATE_NEW) && Works(b.tape, b.pos, 1)
    ensures var b1 := Bootloader(b);
            && CandidateIs(b1.flash, st, STATE_PENDING_VERIFY) && b1.pos == b.pos + 1 && b1.tape == b.tape
            && b1.flash.slots == b.flash.slots
  {
    hide OtaCrc, AbortPending, TrialRecords, Decode, ActiveEntry;
    NothingToAbort(b, 0, st);
    NothingToAbort(b, 1, st);
    var index := ActiveEntry(DecodeBoth(b.flash.records)).value;
    var e := Decode(b.flash.records[index]);
    ActiveEntryIsGreatest(DecodeBoth(b.flash.records));
    DecodeEncode(e, STATE_PENDING_VERIFY);
    assert b.Answered() == b.tape(b.pos);
    var r := e.EncodeWithState(STATE_PENDING_VERIFY);
    TrialContinues(b.flash, st, index, r);
    StillActive(b.flash, st, index, r);
  }

  lemma StillActive(f: Flash, st: Stable, index: nat, r: Record)
    requires index < 2 && ActiveEntry(DecodeBoth(f.records)) == Some(index)
    requires Decode(f.records[index]).state == STATE_NEW
    requires Decode(r) == Decode(f.records[index]).(state := STATE_PENDING_VERIFY)
    ensures ActiveEntry(DecodeBoth(f.records[index := r])) == Some(index)
  {
    hide OtaCrc, Decode;
    DecodeUpdate(f.records, index, r);
  }

  /** The next complete boot gives up a candidate that was not confirmed. */
  lemma BootGivesUp(b: Backend, st: Stable)
    requires CandidateIs(b.flash, st, STATE_PENDING_VERIFY) && Works(b.tape, b.pos, 1)
    ensures Settled(Bootloader(b).flash, st)
  {
    hide OtaCrc, AbortPending, StartTrial, TrialRecords, Decode, ActiveEntry, Settled;
    var index := ActiveEntry(DecodeBoth(b.flash.records)).value;
    if index == 1 { NothingToAbort(b, 0, st); }
    CandidateAborted(b, index, st);
    var b1 := AbortPending(b, index);
    if index == 0 {
      AbortPendingKeeps(b1, 1, st);
      SettledIsNotTrial(b1.flash, st);
    }
    var b2 := AbortPending(AbortPending(b, 0), 1);
    StartTrialKeeps(b2, st);
    SettledIsNotTrial(b2.flash, st);
  }

  /** A candidate that runs from its own slot, and whose descriptor announces it, confirms itself. */
  lemma CandidateConfirms(b: Backend, st: Stable, version: Bytes, secureVersion: u32)
    requires CandidateIs(b.flash, st, STATE_PENDING_VERIFY) && st.slot < 2 && st.sequence < U32_MAX
    requires UpdateSlotOffset(1 - st.slot) == Some(b.flash.running)
    requires Announces(b.flash.slots[1 - st.slot], version, secureVersion) && Works(b.tape, b.pos, 5)
    ensures Restabilize(ConfirmRunningImage(b, version, secureVersion).1.flash, st) == Won(b.flash, st)
  {
    hide OtaCrc, ConfirmRunningImage, Restabilize, Won, ActiveEntry, Settled, Announces, TrialRecords, Works, Decode;
    CandidateMayConfirm(b.flash, st, version, secureVersion);
    ConfirmFlash(b, version, secureVersion);
    ConfirmExactly(b, version, secureVersion);
    var (_, b1) := ConfirmRunningImage(b, version, secureVersion);
    var index := ActiveEntry(DecodeBoth(b.flash.records)).value;
    var e := Decode(b.flash.records[index]);
    ActiveEntryIsGreatest(DecodeBoth(b.flash.records));
    var r := e.EncodeWithState(STATE_VALID);
    DecodeEncode(e, STATE_VALID);
    assert b1.flash.records[index] == r;
    TrialWon(b.flash, st, index, r);
    assert b1.flash == b.flash.(records := b.flash.records[index := r]);
  }

  lemma CandidateMayConfirm(f: Flash, st: Stable, version: Bytes, secureVersion: u32)
    requires CandidateIs(f, st, STATE_PENDING_VERIFY) && st.slot < 2 && st.sequence < U32_MAX
    requires UpdateSlotOffset(1 - st.slot) == Some(f.running) && Announces(f.slots[1 - st.slot], version, secureVersion)
    ensures MayConfirm(f, version, secureVersion)
  {
    hide OtaCrc, Announces, ActiveEntry, FromLe32;
    OtherSlot(st.sequence);
  }

  lemma RunTwo(w: World, a: Action, b: Action, c: Crypto)
    requires Safe(w, c)
    ensures Safe(Act(w, a, c), c) && Run(w, [a, b], c) == Act(Act(w, a, c), b, c)
  {
    hide Act, Safe;
    ActKeepsSafe(w, a, c);
    RunNext(w, [], a, c);
    RunNext(w, [a], b, c);
    assert [] + [a] == [a] && [a] + [b] == [a, b];
  }

  /** After a boot that works, the followed candidate has started its trial in the slot that executes. */
  lemma TrialStarted(w: World, slot: byte, version: Bytes, floor: u32, c: Crypto)
    requires Safe(w, c) && CandidateIs(w.b.flash, w.stable, STATE_NEW) && Works(w.b.tape, w.b.pos, 1)
    requires slot < 2 && |version| <= MAX_VERSION_LENGTH
    ensures var v := Act(w, Boot(slot, version, floor), c);
            && CandidateIs(v.b.flash, v.stable, STATE_PENDING_VERIFY) && v.stable == w.stable
            && v.b.flash.slots == w.b.flash.slots && UpdateSlotOffset(slot) == Some(v.b.flash.running)
            && v.b.tape == w.b.tape && v.b.pos == w.b.pos + 1
            && v.u.currentVersion == version && v.u.currentSecureVersion == floor
  {
    hide Bootloader, TrialRecords, Settled, Sound, Authentic, Works, ActiveEntry, Decode;
    BootTries(w.b, w.stable);
    RunningIgnored(Bootloader(w.b).flash, UpdateSlotOffset(slot).value, w.stable);
  }

  /** A new candidate announces this firmware, and the calls that follow work. */
  predicate ReadyToTakeOver(b: Backend, st: Stable, version: Bytes, floor: u32) {
    && st.slot < 2 && st.sequence < U32_MAX && CandidateIs(b.flash, st, STATE_NEW)
    && Announces(b.flash.slots[1 - st.slot], version, floor) && Works(b.tape, b.pos, 6)
  }

  /**
   * An activated candidate takes over: a boot that starts its slot, and then its own confirmation, make it the
   * confirmed image, provided its descriptor announces the firmware in it and the calls work.
   */
  lemma UpdateTakesEffect(w: World, version: Bytes, floor: u32, c: Crypto)
    requires Safe(w, c) && ReadyToTakeOver(w.b, w.stable, version, floor)
    ensures w.stable.slot < 2 && w.stable.sequence < U32_MAX
    ensures Run(w, [Boot(1 - w.stable.slot, version, floor), Confirm], c).stable == Won(w.b.flash, w.stable)
  {
    hide Run, Act, CandidateIs, Works, Sound, Settled, OnTrial, FromLe32, Restabilize, ConfirmRunningImage;
    var a := Boot(1 - w.stable.slot, version, floor);
    WorksInParts(w.b.tape, w.b.pos, 1, 5);
    RunTwo(w, a, Confirm, c);
    TrialStarted(w, 1 - w.stable.slot, version, floor, c);
    var v := Act(w, a, c);
    CandidateConfirms(v.b, v.stable, version, floor);
    ConfirmActs(v, c);
  }

  lemma ConfirmActs(w: World, c: Crypto)
    requires Safe(w, c)
    ensures Act(w, Confirm, c).stable ==
            Restabilize(ConfirmRunningImage(w.b, w.u.currentVersion, w.u.currentSecureVersion).1.flash, w.stable)
  {
    hide ConfirmRunningImage, Restabilize, Sound, Settled, OnTrial;
  }

  /**
   * A candidate has one boot to confirm itself in: whatever slot the first one starts, the next boot that works gives
   * it up, and the bootloader is back at the confirmed image for good.
   */
  lemma UnconfirmedIsGivenUp(w: World, slot: byte, version: Bytes, floor: u32, again: Action, c: Crypto)
    requires Safe(w, c) && CandidateIs(w.b.flash, w.stable, STATE_NEW) && Works(w.b.tape, w.b.pos, 2)
    requires slot < 2 && |version| <= MAX_VERSION_LENGTH
    requires again.Boot? && again.runningSlot < 2 && |again.version| <= MAX_VERSION_LENGTH
    ensures var v := Run(w, [Boot(slot, version, floor), again], c);
            Settled(v.b.flash, w.stable) && v.stable == w.stable && v.b.flash.slots == w.b.flash.slots
  {
    hide Run, Act, CandidateIs, Works, Sound, Settled, OnTrial;
    WorksInParts(w.b.tape, w.b.pos, 1, 1);
    RunTwo(w, Boot(slot, version, floor), again, c);
    TrialStarted(w, slot, version, floor, c);
    var v := Act(w, Boot(slot, version, floor), c);
    BootEnds(v, again, c);
  }

  lemma BootEnds(w: World, a: Action, c: Crypto)
    requires Safe(w, c) && CandidateIs(w.b.flash, w.stable, STATE_PENDING_VERIFY) && Works(w.b.tape, w.b.pos, 1)
    requires a.Boot? && a.runningSlot < 2 && |a.version| <= MAX_VERSION_LENGTH
    ensures var v := Act(w, a, c);
            Settled(v.b.flash, w.stable) && v.stable == w.stable && v.b.flash.slots == w.b.flash.slots
  {
    hide Bootloader, TrialRecords, Settled, Sound, Authentic, Works, ActiveEntry, Decode;
    BootGivesUp(w.b, w.stable);
    BootloaderKeeps(w.b, w.stable);
    RunningIgnored(Bootloader(w.b).flash, UpdateSlotOffset(a.runningSlot).value, w.stable);
  }

  /**
   * Crash safety of the A/B scheme. From a device whose bootloader follows the VALID record of an
   * intact image, no sequence of requests, confirmations, raises and resets, with any call failing
   * or being cut short at any byte, ends anywhere but in a recoverable state; and the image that is
   * then the confirmed one is the first one or authentic under the trusted key.
   */
  lemma CrashSafe(w: World, actions: seq<Action>, c: Crypto)
    requires Fresh(w)
    ensures Safe(w, c) && Recoverable(Run(w, actions, c), c)
    ensures var v := Run(w, actions, c);
            v.stable == w.stable || Authentic(v.stable.image, w.u.trustedKeyDigest, c)
  {
    hide Settled, OnTrial, Recoverable, Sound, Run, Authentic;
    FreshIsSafe(w, c);
    RunKeepsSafe(w, actions, c);
    StableOrigin(w, actions, c);
    SafeIsRecoverable(Run(w, actions, c), c);
  }

  lemma SafeIsRecoverable(v: World, c: Crypto)
    requires Safe(v, c)
    ensures Recoverable(v, c)
  {
    hide OtaCrc, Authentic, Sound, Decode, ActiveEntry;
    if !Settled(v.b.flash, v.stable) { OtherSlot(v.stable.sequence); }
  }
}
