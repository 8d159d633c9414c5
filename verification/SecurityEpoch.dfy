/**
 * The plan for raising the security epoch (src/platform/security_epoch.rs): which one-way fuse bits to burn so that
 * the sixteen-bit counter in BLOCK0 holds exactly the target number of ones.
 *
 * A 32-bit register is its bits, least significant first.
 */
module SecurityEpoch {
  import opened Words
  import opened Bits

  const FIELD_WORD := 4
  const FIELD_SHIFT := 11

  /** The six words of BLOCK0. */
  type Block0 = b: seq<Word> | |b| == 6 witness seq(6, _ => Zeros(32))

  datatype SlotEvidence = SlotEvidence(
    signatureVerified: bool, metadataValid: bool, secureVersion: u32, signedContentDigest: Bytes)

  datatype Identity = Identity(device: Bytes, bootloader: Bytes, trustedRoot: Bytes)

  datatype ObservedState = ObservedState(
    identity: Identity, block0: Block0, runningSlot: byte, slot0: SlotEvidence, slot1: SlotEvidence)

  datatype ApprovedPlan = ApprovedPlan(
    identity: Identity, expectedBlock0: Block0, imageDigest0: Bytes, imageDigest1: Bytes, targetEpoch: byte)

  datatype PlanError =
    | IdentityMismatch | Bootloader | TrustRoot | ChangedEfuses | ProtectionDisabled | WriteProtected | EpochRange
    | NoAdvance | RunningSlot | UnqualifiedSlot | ChangedImage | IncompatibleSlot | Readback

  datatype PreparedChange = PreparedChange(before: Block0, after: Block0, delta: Bitstring, targetEpoch: byte) {
    /** The program-register words: the delta in its field, every other bit zero. */
    function ProgramWords(): (w: seq<Word>)
      requires |delta| == 16
      ensures |w| == 8
    {
      var z: Word := Zeros(32);
      [z, z, z, z, InField(delta), z, z, z]
    }
  }

  function Ones(b: Bitstring): (n: nat)
    ensures n <= |b|
  {
    if b == [] then 0 else Ones(b[..|b| - 1]) + if b[|b| - 1] then 1 else 0
  }

  function Or(a: Bitstring, b: Bitstring): (r: Bitstring)
    requires |a| == |b|
    ensures |r| == |a| && forall i :: 0 <= i < |r| ==> r[i] == (a[i] || b[i])
  {
    seq(|a|, i requires 0 <= i < |a| && |a| == |b| => a[i] || b[i])
  }

  /** Sixteen bits shifted into the counter field of a word. */
  function InField(bits: Bitstring): (w: Word)
    requires |bits| == 16
    ensures forall i :: 0 <= i < 32 ==> w[i] == (FIELD_SHIFT <= i < FIELD_SHIFT + 16 && bits[i - FIELD_SHIFT])
  {
    Zeros(FIELD_SHIFT) + bits + Zeros(5)
  }

  function SecureVersionRaw(block0: Block0): (r: Bitstring)
    ensures |r| == 16
  {
    block0[FIELD_WORD][FIELD_SHIFT..FIELD_SHIFT + 16]
  }

  /** The epoch that a counter stands for. */
  function Epoch(block0: Block0): nat {
    Ones(SecureVersionRaw(block0))
  }

  /** The positions of the ones among `n` bits from `from` on. */
  function OnesFrom(b: Bitstring, from: nat, n: nat): (s: set<int>)
    requires from + n <= |b|
  {
    set i | from <= i < from + n && b[i]
  }

  lemma {:induction false} OnesCount(b: Bitstring, from: nat, n: nat)
    requires from + n <= |b|
    ensures Ones(b[from..from + n]) == |OnesFrom(b, from, n)|
    decreases n
  {
    var part := b[from..from + n];
    if n > 0 {
      OnesCount(b, from, n - 1);
      assert part[..n - 1] == b[from..from + n - 1] && part[n - 1] == b[from + n - 1];
      OneMore(b, from, n);
    } else {
      assert OnesFrom(b, from, 0) == {};
    }
  }

  lemma OneMore(b: Bitstring, from: nat, n: nat)
    requires from + n <= |b| && n > 0
    ensures |OnesFrom(b, from, n)| == |OnesFrom(b, from, n - 1)| + if b[from + n - 1] then 1 else 0
  {
    var last := from + n - 1;
    assert OnesFrom(b, from, n) == if b[last] then OnesFrom(b, from, n - 1) + {last} else OnesFrom(b, from, n - 1);
  }

  /** The epoch is the number of ones in bits 11 to 26 of the fifth word. */
  lemma EpochCounts(block0: Block0)
    ensures Epoch(block0) == |set i | 11 <= i < 27 && block0[4][i]|
  {
    OnesCount(block0[4], 11, 16);
    assert OnesFrom(block0[4], 11, 16) == set i | 11 <= i < 27 && block0[4][i];
  }

  // ---- The lowest free bits ----

  /** The number of zeros below bit `i`. */
  function FreeBelow(current: Bitstring, i: nat): (n: nat)
    requires i <= |current|
    ensures n == i - Ones(current[..i])
  {
    if i == 0 then 0
    else
      assert current[..i][..i - 1] == current[..i - 1];
      FreeBelow(current, i - 1) + if current[i - 1] then 0 else 1
  }

  /** `delta` is exactly the lowest `need` zeros of `current`. */
  predicate IsLowestFree(current: Bitstring, need: nat, delta: Bitstring) {
    |delta| == |current| &&
    forall i :: 0 <= i < |current| ==> (delta[i] <==> !current[i] && FreeBelow(current, i) < need)
  }

  lemma OnesUpTo(b: Bitstring, i: nat)
    requires 0 < i <= |b|
    ensures Ones(b[..i]) == Ones(b[..i - 1]) + if b[i - 1] then 1 else 0
  {
    assert b[..i][..i - 1] == b[..i - 1];
  }

  lemma NoOnes(b: Bitstring)
    requires b == []
    ensures Ones(b) == 0
  {
  }

  lemma FreeBelowStep(current: Bitstring, i: nat)
    requires 0 < i <= |current|
    ensures FreeBelow(current, i) == FreeBelow(current, i - 1) + if current[i - 1] then 0 else 1
  {
  }

  lemma {:induction false} OnesAdd(current: Bitstring, need: nat, delta: Bitstring, i: nat)
    requires IsLowestFree(current, need, delta) && i <= |current|
    ensures Ones(Or(current, delta)[..i]) == Ones(current[..i]) + Min(FreeBelow(current, i), need)
  {
    hide Ones, FreeBelow;
    if i == 0 {
      NothingSet(current, delta);
    } else {
      OnesAdd(current, need, delta, i - 1);
      OnesUpTo(current, i);
      OnesUpTo(Or(current, delta), i);
      FreeBelowStep(current, i);
      assert delta[i - 1] <==> !current[i - 1] && FreeBelow(current, i - 1) < need;
    }
  }

  lemma NothingSet(current: Bitstring, delta: Bitstring)
    requires |current| == |delta|
    ensures Ones(Or(current, delta)[..0]) == Ones(current[..0]) == FreeBelow(current, 0) == 0
  {
    NoOnes(current[..0]);
    NoOnes(Or(current, delta)[..0]);
  }

  /** Burning the lowest free bits reaches the target exactly. */
  lemma LowestFreeReachesTarget(current: Bitstring, need: nat, delta: Bitstring)
    requires IsLowestFree(current, need, delta) && Ones(current) + need <= |current|
    ensures Ones(Or(current, delta)) == Ones(current) + need
  {
    OnesAdd(current, need, delta, |current|);
    assert current[..|current|] == current && Or(current, delta)[..|current|] == Or(current, delta);
  }

  /** They are the lowest: no free bit is skipped. */
  lemma NoFreeBitSkipped(current: Bitstring, need: nat, delta: Bitstring, i: nat, j: nat)
    requires IsLowestFree(current, need, delta) && i <= j < |current| && delta[j] && !current[i]
    ensures delta[i]
    decreases j - i
  {
    FreeBelowGrows(current, i, j);
  }

  lemma {:induction false} FreeBelowGrows(current: Bitstring, i: nat, j: nat)
    requires i <= j <= |current|
    ensures FreeBelow(current, i) <= FreeBelow(current, j)
    decreases j
  {
    if i < j { FreeBelowGrows(current, i, j - 1); }
  }

  // ---- Preparing a change ----

  predicate Protected(block0: Block0) {
    block0[3][20] && Ones(block0[2][18..21]) % 2 == 1
  }

  function SlotRefusal(slot: SlotEvidence, digest: Bytes, target: byte): Option<PlanError> {
    if !slot.signatureVerified || !slot.metadataValid then Some(UnqualifiedSlot)
    else if slot.secureVersion < target || slot.secureVersion > 16 then Some(IncompatibleSlot)
    else if slot.signedContentDigest != digest then Some(ChangedImage)
    else None
  }

  /** Why a plan is refused, the earliest reason first. */
  function Refusal(plan: ApprovedPlan, observed: ObservedState): Option<PlanError> {
    if plan.identity.device != observed.identity.device then Some(IdentityMismatch)
    else if plan.identity.bootloader != observed.identity.bootloader then Some(Bootloader)
    else if plan.identity.trustedRoot != observed.identity.trustedRoot then Some(TrustRoot)
    else if plan.expectedBlock0 != observed.block0 then Some(ChangedEfuses)
    else if !Protected(observed.block0) then Some(ProtectionDisabled)
    else if observed.block0[0][18] then Some(WriteProtected)
    else if plan.targetEpoch > 16 then Some(EpochRange)
    else if plan.targetEpoch <= Epoch(observed.block0) then Some(NoAdvance)
    else if observed.runningSlot > 1 then Some(RunningSlot)
    else
      var first := SlotRefusal(observed.slot0, plan.imageDigest0, plan.targetEpoch);
      if first.Some? then first else SlotRefusal(observed.slot1, plan.imageDigest1, plan.targetEpoch)
  }

  /** The first check that fails, of those in order. */
  function FirstFailing(checks: seq<(bool, PlanError)>): Option<PlanError> {
    if checks == [] then None else if checks[0].0 then FirstFailing(checks[1..]) else Some(checks[0].1)
  }

  /** What the plan asks of a slot. */
  function SlotChecks(slot: SlotEvidence, digest: Bytes, target: byte): (c: seq<(bool, PlanError)>)
    ensures |c| == 3
  {
    [(slot.signatureVerified && slot.metadataValid, UnqualifiedSlot),
     (target <= slot.secureVersion <= 16, IncompatibleSlot),
     (slot.signedContentDigest == digest, ChangedImage)]
  }

  function FuseChecks(plan: ApprovedPlan, observed: ObservedState): (c: seq<(bool, PlanError)>)
    ensures |c| == 9
  {
    var b := observed.block0;
    [(plan.identity.device == observed.identity.device, IdentityMismatch),
     (plan.identity.bootloader == observed.identity.bootloader, Bootloader),
     (plan.identity.trustedRoot == observed.identity.trustedRoot, TrustRoot),
     (plan.expectedBlock0 == b, ChangedEfuses),
     (b[3][20] && b[2][18] != (b[2][19] != b[2][20]), ProtectionDisabled), // secure boot on, encryption count odd
     (!b[0][18], WriteProtected),
     (plan.targetEpoch <= 16, EpochRange),
     (|set i | 11 <= i < 27 && b[4][i]| < plan.targetEpoch, NoAdvance),
     (observed.runningSlot < 2, RunningSlot)]
  }

  /** A plan is refused at the first of these checks, on the bits of the fuses, that fails; and accepted if none does. */
  lemma RefusalExactly(plan: ApprovedPlan, observed: ObservedState)
    ensures Refusal(plan, observed) ==
            FirstFailing(FuseChecks(plan, observed) + SlotChecks(observed.slot0, plan.imageDigest0, plan.targetEpoch)
                         + SlotChecks(observed.slot1, plan.imageDigest1, plan.targetEpoch))
  {
    hide Epoch, Protected, FirstFailing, Ones, SlotRefusal, SlotChecks;
    EpochCounts(observed.block0);
    ProtectedBits(observed.block0);
    var f, a, b := FuseChecks(plan, observed), SlotChecks(observed.slot0, plan.imageDigest0, plan.targetEpoch),
                   SlotChecks(observed.slot1, plan.imageDigest1, plan.targetEpoch);
    FirstOfBoth(f + a, b);
    FirstOfBoth(f, a);
    SlotRefusalExactly(observed.slot0, plan.imageDigest0, plan.targetEpoch);
    SlotRefusalExactly(observed.slot1, plan.imageDigest1, plan.targetEpoch);
    FirstOfNine(f);
  }

  lemma ProtectedBits(b: Block0)
    ensures Protected(b) <==> b[3][20] && b[2][18] != (b[2][19] != b[2][20])
  {
    var x := b[2][18..21];
    assert x[..3] == x;
    OnesUpTo(x, 3);
    OnesUpTo(x, 2);
    OnesUpTo(x, 1);
    NoOnes(x[..0]);
  }

  lemma SlotRefusalExactly(slot: SlotEvidence, digest: Bytes, target: byte)
    ensures SlotRefusal(slot, digest, target) == FirstFailing(SlotChecks(slot, digest, target))
  {
    var c := SlotChecks(slot, digest, target);
    assert FirstFailing(c[1..][1..]) == if c[2].0 then None else Some(c[2].1);
  }

  lemma {:induction false} FirstOfBoth(a: seq<(bool, PlanError)>, b: seq<(bool, PlanError)>)
    ensures FirstFailing(a + b) == if FirstFailing(a).Some? then FirstFailing(a) else FirstFailing(b)
    decreases |a|
  {
    if a == [] {
      assert a + b == b;
    } else {
      FirstOfBoth(a[1..], b);
      assert (a + b)[1..] == a[1..] + b;
    }
  }

  lemma FirstOfNine(c: seq<(bool, PlanError)>)
    requires |c| == 9
    ensures FirstFailing(c) ==
            if !c[0].0 then Some(c[0].1) else if !c[1].0 then Some(c[1].1) else if !c[2].0 then Some(c[2].1)
            else if !c[3].0 then Some(c[3].1) else if !c[4].0 then Some(c[4].1) else if !c[5].0 then Some(c[5].1)
            else if !c[6].0 then Some(c[6].1) else if !c[7].0 then Some(c[7].1) else if !c[8].0 then Some(c[8].1)
            else None
  {
    hide FirstFailing;
    FirstOrLater(c, 0); FirstOrLater(c, 1); FirstOrLater(c, 2);
    FirstOrLater(c, 3); FirstOrLater(c, 4); FirstOrLater(c, 5);
    FirstOrLater(c, 6); FirstOrLater(c, 7); FirstOrLater(c, 8);
    assert c[0..] == c && c[9..] == [];
    NoneFails();
  }

  lemma FirstOrLater(c: seq<(bool, PlanError)>, k: nat)
    requires k < |c|
    ensures FirstFailing(c[k..]) == if c[k].0 then FirstFailing(c[k + 1..]) else Some(c[k].1)
  {
    assert c[k..][1..] == c[k + 1..];
  }

  lemma NoneFails()
    ensures FirstFailing([]) == None
  {
  }

  predicate Compatible(slot: SlotEvidence, digest: Bytes, target: byte) {
    slot.signatureVerified && slot.metadataValid && target <= slot.secureVersion <= 16 && slot.signedContentDigest == digest
  }

  /** What an accepted change promises about the fuses. */
  predicate IsCounterRaise(change: PreparedChange) {
    var current := SecureVersionRaw(change.before);
    && |change.delta| == 16
    && Ones(current) < change.targetEpoch <= 16
    && IsLowestFree(current, change.targetEpoch - Ones(current), change.delta)
    && change.after == change.before[FIELD_WORD := Or(change.before[FIELD_WORD], InField(change.delta))]
  }

  /** The lowest `need` zeros. */
  function LowestFree(current: Bitstring, need: nat): (d: Bitstring)
    ensures |d| == |current| && IsLowestFree(current, need, d)
  {
    seq(|current|, i requires 0 <= i < |current| => !current[i] && FreeBelow(current, i) < need)
  }

  lemma LowestFreeIsUnique(current: Bitstring, need: nat, d: Bitstring)
    requires IsLowestFree(current, need, d)
    ensures d == LowestFree(current, need)
  {
    hide FreeBelow;
  }

  /** The change that an accepted plan prepares. */
  function Planned(plan: ApprovedPlan, observed: ObservedState): (change: PreparedChange)
    requires Refusal(plan, observed).None?
    ensures change.before == observed.block0 && change.targetEpoch == plan.targetEpoch && IsCounterRaise(change)
  {
    var current := SecureVersionRaw(observed.block0);
    var delta := LowestFree(current, plan.targetEpoch - Ones(current));
    var after := observed.block0[FIELD_WORD := Or(observed.block0[FIELD_WORD], InField(delta))];
    PreparedChange(observed.block0, after, delta, plan.targetEpoch)
  }

  method Prepare(plan: ApprovedPlan, observed: ObservedState) returns (r: Result<PreparedChange, PlanError>)
    ensures r.Err? <==> Refusal(plan, observed).Some?
    ensures r.Err? ==> r.error == Refusal(plan, observed).value
    ensures r.Ok? ==>
      && plan.identity == observed.identity && plan.expectedBlock0 == observed.block0 && Protected(observed.block0)
      && Compatible(observed.slot0, plan.imageDigest0, plan.targetEpoch)
      && Compatible(observed.slot1, plan.imageDigest1, plan.targetEpoch)
    ensures r.Ok? ==>
      && r.value.before == observed.block0 && r.value.targetEpoch == plan.targetEpoch && IsCounterRaise(r.value)
      && r.value == Planned(plan, observed)
  {
    hide Ones, FreeBelow, LowestFree, IsLowestFree;
    var refusal := Refusal(plan, observed);
    if refusal.Some? {
      return Err(refusal.value);
    }
    var current := SecureVersionRaw(observed.block0);
    var delta := ChooseBits(current, plan.targetEpoch - Ones(current));
    var after := observed.block0[FIELD_WORD := Or(observed.block0[FIELD_WORD], InField(delta))];
    return Ok(PreparedChange(observed.block0, after, delta, plan.targetEpoch));
  }

  /** From the lowest bit up, take what is free while bits are still needed. */
  method ChooseBits(current: Bitstring, need: nat) returns (delta: Bitstring)
    requires |current| == 16
    ensures delta == LowestFree(current, need)
  {
    hide Ones, FreeBelow, LowestFree;
    NoneFreeBelow(current);
    var remaining := need;
    delta := Zeros(16);
    for bit := 0 to 16
      invariant |delta| == 16
      invariant remaining == need - Min(FreeBelow(current, bit), need)
      invariant forall i :: 0 <= i < bit ==> (delta[i] <==> !current[i] && FreeBelow(current, i) < need)
      invariant forall i :: bit <= i < 16 ==> !delta[i]
    {
      FreeBelowStep(current, bit + 1);
      if !current[bit] && remaining > 0 {
        delta := delta[bit := true];
        remaining := remaining - 1;
      }
    }
    LowestFreeIsUnique(current, need, delta);
  }

  lemma NoneFreeBelow(current: Bitstring)
    ensures FreeBelow(current, 0) == 0
  {
  }

  /**
   * What a change does to the fuses: the counter reads exactly the target, every bit that was set stays set, and
   * nothing outside the counter field moves.
   */
  lemma RaiseIsExact(change: PreparedChange)
    requires IsCounterRaise(change)
    ensures Epoch(change.after) == change.targetEpoch > Epoch(change.before)
    ensures forall w, i :: 0 <= w < 6 && 0 <= i < 32 && change.before[w][i] ==> change.after[w][i]
    ensures forall w, i :: 0 <= w < 6 && 0 <= i < 32 && !(w == 4 && 11 <= i < 27) ==>
              change.after[w][i] == change.before[w][i]
  {
    hide Ones, FreeBelow, IsLowestFree;
    var current := SecureVersionRaw(change.before);
    LowestFreeReachesTarget(current, change.targetEpoch - Ones(current), change.delta);
    assert SecureVersionRaw(change.after) == Or(current, change.delta);
  }

  /** The words to program carry new counter bits only, and burning them yields exactly the planned block. */
  lemma ProgramsOnlyNewCounterBits(change: PreparedChange)
    requires IsCounterRaise(change)
    ensures forall w :: 0 <= w < 6 ==> Or(change.before[w], change.ProgramWords()[w]) == change.after[w]
    ensures forall w, i :: 0 <= w < 8 && 0 <= i < 32 && change.ProgramWords()[w][i] ==>
              w == 4 && 11 <= i < 27 && !change.before[w][i]
  {
    hide InField;
    var words := change.ProgramWords();
    forall w | 0 <= w < 6 && w != FIELD_WORD ensures Or(change.before[w], words[w]) == change.after[w] {
      assert Or(change.before[w], Zeros(32)) == change.before[w];
    }
    forall w, i | 0 <= w < 8 && 0 <= i < 32 && words[w][i]
      ensures w == FIELD_WORD && FIELD_SHIFT <= i < FIELD_SHIFT + 16 && !change.before[w][i]
    {
      NewBit(change, i);
    }
  }

  lemma NewBit(change: PreparedChange, i: nat)
    requires IsCounterRaise(change) && i < 32 && InField(change.delta)[i]
    ensures FIELD_SHIFT <= i < FIELD_SHIFT + 16 && !change.before[FIELD_WORD][i]
  {
    hide InField, Ones, FreeBelow, Or;
    var current := SecureVersionRaw(change.before);
    assert change.delta[i - FIELD_SHIFT] && !current[i - FIELD_SHIFT];
    assert current[i - FIELD_SHIFT] == change.before[FIELD_WORD][i];
  }

  // ---- What a burn may leave ----

  function And(a: Bitstring, b: Bitstring): (r: Bitstring)
    requires |a| == |b|
    ensures |r| == |a| && forall i :: 0 <= i < |r| ==> r[i] == (a[i] && b[i])
  {
    seq(|a|, i requires 0 <= i < |a| && |a| == |b| => a[i] && b[i])
  }

  /** Fuses only ever turn on: of the asked words, the bits that `took` did. */
  function Burned(before: Block0, words: seq<Word>, took: Block0): Block0
    requires |words| == 8
  {
    seq(6, w requires 0 <= w < 6 && |words| == 8 => Or(before[w], And(words[w], took[w])))
  }

  lemma {:induction false} OnesMonotone(a: Bitstring, b: Bitstring)
    requires |a| == |b| && forall i :: 0 <= i < |a| && a[i] ==> b[i]
    ensures Ones(a) <= Ones(b)
    decreases |a|
  {
    if a != [] { OnesMonotone(a[..|a| - 1], b[..|b| - 1]); }
  }

  /** However much of a change burns, no bit is lost and the counter stays between the old count and the target. */
  lemma BurnStaysWithin(change: PreparedChange, took: Block0)
    requires IsCounterRaise(change)
    ensures var left := Burned(change.before, change.ProgramWords(), took);
            && Epoch(change.before) <= Epoch(left) <= change.targetEpoch
            && forall w, i :: 0 <= w < 6 && 0 <= i < 32 && change.before[w][i] ==> left[w][i]
  {
    hide Ones, IsLowestFree, InField, FreeBelow;
    var words := change.ProgramWords();
    var left := Burned(change.before, words, took);
    RaiseIsExact(change);
    ProgramsOnlyNewCounterBits(change);
    assert Or(change.before[FIELD_WORD], words[FIELD_WORD]) == change.after[FIELD_WORD];
    var x, y, z := SecureVersionRaw(change.before), SecureVersionRaw(left), SecureVersionRaw(change.after);
    forall i | 0 <= i < 16 ensures (x[i] ==> y[i]) && (y[i] ==> z[i]) {
      assert y[i] == left[FIELD_WORD][FIELD_SHIFT + i] && z[i] == change.after[FIELD_WORD][FIELD_SHIFT + i];
    }
    OnesMonotone(x, y);
    OnesMonotone(y, z);
  }
}
