/** Lifetime anti-rollback: the hardware floor never passes the image the bootloader would pick. */
module AntiRollback {
  import opened Words
  import opened Crc
  import opened OtaMetadata
  import opened FlashBackend
  import opened SignedImage
  import opened UsbUpdate
  import opened UpdateSoundness
  import opened VendorCommands
  import opened UpdateRuns
  import E = SecurityEpoch
  import T = EfuseTransaction

  /** The firmware's own floor is the secure version of the image that is executing. */
  predicate FloorIsRunning(f: Flash, u: Updater) {
    && (f.running == OTA_0_OFFSET ==> u.currentSecureVersion == SecureVersionOf(f.slots[0]))
    && (f.running == OTA_1_OFFSET ==> u.currentSecureVersion == SecureVersionOf(f.slots[1]))
  }

  predicate Guarded(w: World) {
    && FloorIsRunning(w.b.flash, w.u)
    && E.Epoch(w.fuses) <= SecureVersionOf(w.stable.image)
    && (TrialRecords(w.b.flash, w.stable) ==> E.Epoch(w.fuses) <= SecureVersionOf(w.b.flash.slots[1 - w.stable.slot]))
  }

  /** Every reset starts firmware whose floor is the version in its own descriptor. */
  ghost predicate HonestBoots(w: World, actions: seq<Action>, c: Crypto)
    requires Safe(w, c)
    decreases |actions|
  {
    actions == [] ||
    (ActKeepsSafe(w, actions[0], c);
     && (actions[0].Boot? ==> HonestBoot(w, actions[0]))
     && HonestBoots(Act(w, actions[0], c), actions[1..], c))
  }

  predicate HonestBoot(w: World, a: Action)
    requires a.Boot?
  {
    a.runningSlot < 2 ==> a.floor == SecureVersionOf(w.b.flash.slots[a.runningSlot])
  }

  /** The slot the bootloader would start. */
  function FollowedSlot(f: Flash): Option<byte> {
    var a := ActiveEntry(DecodeBoth(f.records));
    if a.None? then None else SlotOf(Decode(f.records[a.value]).sequence)
  }

  lemma EffectKeepsGuarded(w: World, o: Outcome, c: Crypto)
    requires Safe(w, c) && Guarded(w) && Effect(w.b, w.u, o, c) && Sound(o.b, o.u)
    ensures Guarded(w.(b := o.b, u := o.u))
  {
    hide OtaCrc, LayoutOf, OnlyRecord, SignedBelow, Describes, Settled, TrialRecords, Authentic, SecureVersionOf;
    var f, g := w.b.flash, o.b.flash;
    if g == f {
    } else if s :| WorkedOn(w.b, w.u, o, s) {
      LayoutMeansSettled(f, w.stable, s.layout);
      StaysSettled(f, g, w.stable);
    } else {
      var s :| Committed(w.b, w.u, o, s, c);
      LayoutMeansSettled(f, w.stable, s.layout);
      DescribedVersion(f.slots[s.targetSlot], ImageMetadata(s.expectedSecureVersion, s.expectedVersion));
      SettledImage(f, w.stable);
      RecordOnly(f, g, s);
    }
  }

  lemma DescribedVersion(s: Slot, m: ImageMetadata)
    requires Describes(s, m)
    ensures SecureVersionOf(s) == m.secureVersion
  {
  }

  lemma RecordOnly(f: Flash, g: Flash, s: Session)
    requires Aimed(s) && OnlyRecord(f, g, s)
    ensures g.slots == f.slots && g.running == f.running
  {
  }

  lemma SettledImage(f: Flash, st: Stable)
    requires Settled(f, st)
    ensures st.slot < 2 && f.slots[st.slot] == st.image
  {
    hide OtaCrc, ActiveEntry;
  }

  lemma StaysSettled(f: Flash, g: Flash, st: Stable)
    requires Settled(f, st) && f.records == g.records && st.slot < 2
    ensures !TrialRecords(g, st)
  {
    hide OtaCrc, ActiveEntry;
  }

  lemma HandleKeepsGuarded(w: World, request: Bytes, present: bool, c: Crypto)
    requires Safe(w, c) && Guarded(w)
    ensures SessionFits(w.u)
    ensures var o := Handle(w.b, w.u, request, present, c);
            Guarded(w.(b := o.b, u := o.u))
  {
    hide Handle, Effect, Guarded, Settled, OnTrial;
    HandleEffect(w.b, w.u, request, present, c);
    EffectKeepsGuarded(w, Handle(w.b, w.u, request, present, c), c);
  }

  lemma DispatchKeepsGuarded(w: World, request: Bytes, others: Others, c: Crypto)
    requires Safe(w, c) && Guarded(w)
    ensures Guarded(Act(w, Serve(request, others), c))
  {
    hide Handle, Settled, TrialRecords, OnTrial, Sound, EncodeResponse, FloorIsRunning, SecureVersionOf;
    var w0 := w.(b := w.b.Logged(Received));
    LogKeepsSafe(w, Received, c);
    HandleKeepsGuarded(w0, request, false, c);
    ServeKeepsSafe(w0, request, false, c);
    var first := FirstReply(w0.b, w.u, request, others, c);
    var w1 := w.(b := first.b.Logged(Approved), u := first.u);
    LogKeepsSafe(w.(b := first.b, u := first.u), Approved, c);
    HandleKeepsGuarded(w1, request, true, c);
  }

  lemma ConfirmKeepsGuarded(w: World, c: Crypto)
    requires Safe(w, c) && Guarded(w)
    ensures Guarded(Act(w, Confirm, c))
  {
    hide OtaCrc, ConfirmRunningImage, Restabilize, Settled, TrialRecords, ActiveEntry, SecureVersionOf, Authentic, Sound;
    var f := w.b.flash;
    var (_, b1) := ConfirmRunningImage(w.b, w.u.currentVersion, w.u.currentSecureVersion);
    ConfirmFlash(w.b, w.u.currentVersion, w.u.currentSecureVersion);
    if b1.flash == f {
      NothingNew(f, w.stable);
    } else {
      var index := ActiveEntry(DecodeBoth(f.records)).value;
      var e := Decode(f.records[index]);
      var a: Answer :| b1.flash == f.(records := f.records[
        index := Attempted(f.records[index], e.EncodeWithState(STATE_VALID), a)]);
      ConfirmRewrite(f, w.stable, index, a);
      SettledIsNotTrial(b1.flash, Restabilize(b1.flash, w.stable));
    }
  }

  lemma BootKeepsGuarded(w: World, a: Action, c: Crypto)
    requires Safe(w, c) && Guarded(w) && a.Boot? && HonestBoot(w, a)
    ensures Guarded(Act(w, a, c))
  {
    hide OtaCrc, Bootloader, Settled, TrialRecords, Authentic, Sound, SecureVersionOf;
    BootloaderKeeps(w.b, w.stable);
    var g := Bootloader(w.b).flash;
    if Settled(g, w.stable) { SettledIsNotTrial(g, w.stable); }
    if UpdateSlotOffset(a.runningSlot).Some? {
      RunningIgnored(g, UpdateSlotOffset(a.runningSlot).value, w.stable);
    }
  }

  lemma EvidenceIsDescriptor(s: Slot, trusted: Bytes, c: Crypto)
    requires InstalledImage(s, trusted, c).Ok?
    ensures InstalledImage(s, trusted, c).value.secureVersion == SecureVersionOf(s)
  {
    hide InstalledImage, SignedBelow, IsPlausible, IsSigned;
    InstalledExactly(s, trusted, c);
  }

  /** An accepted plan's target is at most the version of either slot: the plan's own check of the evidence. */
  lemma AcceptedPlanFitsSlots(w: World, plan: E.ApprovedPlan, device: Bytes, bootloader: Bytes, c: Crypto)
    requires MayRaise(w, plan, device, bootloader, c)
    ensures plan.targetEpoch <= SecureVersionOf(w.b.flash.slots[0]) && plan.targetEpoch <= SecureVersionOf(w.b.flash.slots[1])
  {
    hide InstalledImage, SecureVersionOf, E.Epoch, E.Protected, Qualified, OtaCrc, Decode;
    EvidenceIsDescriptor(w.b.flash.slots[0], w.u.trustedKeyDigest, c);
    EvidenceIsDescriptor(w.b.flash.slots[1], w.u.trustedKeyDigest, c);
  }

  /** The change that an accepted raise attempts. */
  ghost function AcceptedChange(w: World, plan: E.ApprovedPlan, device: Bytes, bootloader: Bytes, c: Crypto):
    (change: E.PreparedChange)
    requires MayRaise(w, plan, device, bootloader, c)
    ensures change.before == w.fuses && change.targetEpoch == plan.targetEpoch && E.IsCounterRaise(change)
  {
    E.Planned(plan, Observed(w, device, bootloader, c).value)
  }

  /** No fuse bit is lost, and the counter is between what it was and the target, which either slot reaches. */
  ghost predicate RaisedWithin(w: World, v: World, target: nat) {
    && v == w.(fuses := v.fuses)
    && E.Epoch(w.fuses) <= E.Epoch(v.fuses) <= target
    && (forall n, i :: 0 <= n < 6 && 0 <= i < 32 && w.fuses[n][i] ==> v.fuses[n][i])
    && E.Epoch(v.fuses) <= SecureVersionOf(w.b.flash.slots[0])
    && E.Epoch(v.fuses) <= SecureVersionOf(w.b.flash.slots[1])
  }

  /**
   * A raise, whatever the controller does and however much of it burns, loses no fuse bit, stays at or
   * below the planned epoch, and so leaves both slots at or above the counter. One that reports success
   * and whose last snapshot was true reaches the planned epoch.
   */
  lemma RaiseQualifiesBoth(
    w: World, plan: E.ApprovedPlan, device: Bytes, bootloader: Bytes, controller: T.Tape, took: E.Block0, c: Crypto)
    requires Sound(w.b, w.u) && |w.u.currentVersion| < 0x100 && MayRaise(w, plan, device, bootloader, c)
    ensures var v := Act(w, Raise(plan, device, bootloader, controller, took), c);
            && RaisedWithin(w, v, plan.targetEpoch)
            && (T.TrulySucceeded(AcceptedChange(w, plan, device, bootloader, c), controller, v.fuses) ==>
                  E.Epoch(v.fuses) == plan.targetEpoch)
  {
    hide Sound, MayRaise, SecureVersionOf, E.Epoch, E.Planned, E.IsCounterRaise, T.FusesAfter, T.Attempt, Observed;
    hide T.TrulySucceeded;
    AcceptedPlanFitsSlots(w, plan, device, bootloader, c);
    T.AttemptStaysWithin(AcceptedChange(w, plan, device, bootloader, c), controller, took);
  }

  lemma RaisedIsGuarded(w: World, v: World, target: nat, c: Crypto)
    requires Safe(w, c) && Guarded(w) && RaisedWithin(w, v, target)
    ensures Guarded(v)
  {
    hide SecureVersionOf, Sound, ActiveEntry, Authentic, E.Epoch, FloorIsRunning;
  }

  lemma RaiseKeepsGuarded(w: World, a: Action, c: Crypto)
    requires Safe(w, c) && Guarded(w) && a.Raise?
    ensures Guarded(Act(w, a, c))
  {
    if MayRaise(w, a.plan, a.device, a.bootloader, c) {
      RaiseQualifiesBoth(w, a.plan, a.device, a.bootloader, a.controller, a.took, c);
      hide *;
      RaisedIsGuarded(w, Act(w, a, c), a.plan.targetEpoch, c);
    } else {
      RefusedRaise(w, a, c);
    }
  }

  lemma RefusedRaise(w: World, a: Action, c: Crypto)
    requires Sound(w.b, w.u) && |w.u.currentVersion| < 0x100
    requires a.Raise? && !MayRaise(w, a.plan, a.device, a.bootloader, c)
    ensures Act(w, a, c) == w
  {
    hide Sound, MayRaise;
  }

  lemma ActKeepsGuarded(w: World, a: Action, c: Crypto)
    requires Safe(w, c) && Guarded(w) && (a.Boot? ==> HonestBoot(w, a))
    ensures Guarded(Act(w, a, c))
  {
    hide Sound, Settled, OnTrial, TrialRecords, MayRaise, ConfirmRunningImage, Bootloader, DispatchReply, FloorIsRunning;
    match a
    case Serve(request, others) => DispatchKeepsGuarded(w, request, others, c);
    case Tick => TickKeepsGuarded(w);
    case Confirm => ConfirmKeepsGuarded(w, c);
    case Boot(_, _, _) => BootKeepsGuarded(w, a, c);
    case Raise(_, _, _, _, _) => RaiseKeepsGuarded(w, a, c);
  }

  lemma TickKeepsGuarded(w: World)
    requires Sound(w.b, w.u) && Guarded(w)
    ensures var (b1, u1) := PollStep(w.b, w.u);
            Guarded(w.(b := b1, u := u1))
  {
    hide Sound, TrialRecords, SecureVersionOf, PollStep;
    PollOk(w.b, w.u);
  }

  lemma {:induction false} RunKeepsGuarded(w: World, actions: seq<Action>, c: Crypto)
    requires Safe(w, c) && Guarded(w) && HonestBoots(w, actions, c)
    ensures Guarded(Run(w, actions, c))
    decreases |actions|
  {
    hide Settled, OnTrial, Sound, Act, Guarded;
    if actions != [] {
      ActKeepsSafe(w, actions[0], c);
      ActKeepsGuarded(w, actions[0], c);
      RunKeepsGuarded(Act(w, actions[0], c), actions[1..], c);
    }
  }

  /**
   * Over the device's whole life, with updates, confirmations, interrupted boots and raises of the
   * hardware floor in any order, the image the bootloader would start is never below the floor.
   */
  lemma LifetimeAntiRollback(w: World, actions: seq<Action>, c: Crypto)
    requires Fresh(w) && FloorIsRunning(w.b.flash, w.u) && E.Epoch(w.fuses) <= SecureVersionOf(w.stable.image)
    ensures Safe(w, c)
    ensures HonestBoots(w, actions, c) ==>
              var v := Run(w, actions, c);
              var slot := FollowedSlot(v.b.flash);
              slot.Some? && slot.value < 2 && E.Epoch(v.fuses) <= SecureVersionOf(v.b.flash.slots[slot.value])
  {
    hide Run, HonestBoots, Recoverable, TrialRecords, Settled, SecureVersionOf, OnTrial, Sound;
    FreshIsSafe(w, c);
    SettledIsNotTrial(w.b.flash, w.stable);
    if HonestBoots(w, actions, c) {
      RunKeepsGuarded(w, actions, c);
      RunKeepsSafe(w, actions, c);
      GuardedFollowed(Run(w, actions, c), c);
    }
  }

  lemma GuardedFollowed(v: World, c: Crypto)
    requires Safe(v, c) && Guarded(v)
    ensures var slot := FollowedSlot(v.b.flash);
            slot.Some? && slot.value < 2 && E.Epoch(v.fuses) <= SecureVersionOf(v.b.flash.slots[slot.value])
  {
    hide OtaCrc, Authentic, Sound, Decode, ActiveEntry, SecureVersionOf;
    if !Settled(v.b.flash, v.stable) { OtherSlot(v.stable.sequence); }
  }

  // When an activation takes effect.

  /** Flash after an activation that ran to completion. */
  function AfterActivation(f: Flash, layout: UpdateLayout): Flash
    requires layout.activationEntry < 2 && layout.activeSequence < U32_MAX
  {
    f.(records := f.records[layout.activationEntry := NewRecord(layout.activeSequence + 1)])
  }

  /**
   * An activation that runs to completion makes the bootloader follow the candidate exactly when
   * the active sequence was at most 0xFFFF_FFFD. The sequence after 0xFFFF_FFFE is the erased word,
   * which is never selectable, yet the handler reports success for it.
   */
  lemma ActivationSelectsExactly(f: Flash, layout: UpdateLayout)
    requires LayoutOf(f.records, f.running) == Some(layout)
    ensures layout.activationEntry < 2 && layout.activeSlot < 2 && layout.activeSequence < U32_MAX
    ensures NextSequence(layout.activeSequence, 1 - layout.activeSlot) == Some(layout.activeSequence + 1)
    ensures FollowedSlot(AfterActivation(f, layout)) == Some(1 - layout.activeSlot) <==> layout.activeSequence <= 0xffff_fffd
  {
    hide OtaCrc, Decode;
    LayoutShape(DecodeBoth(f.records), f.running);
    NextSequenceIsNext(layout);
    OtherSlot(layout.activeSequence);
    var n := layout.activeSequence + 1;
    DecodeEncode(OtaEntry(n, STATE_NEW, OtaCrc(n)), STATE_NEW);
    DecodeUpdate(f.records, layout.activationEntry, NewRecord(n));
  }
}
